/**
  The text fragments the USSE disassembler prints: predicate prefixes,
  move data types and register operands.
*/
module UsseDisasm {
  import opened Optional
  import opened Types
  import opened Decimal

  // -------------------------------------------------------- predicates

  /** The prefix of an instruction with an extended predicate: empty when the
      instruction is unconditional, otherwise the predicate and a space. */
  function EPredicateStr(p: ExtPredicate): (r: string)
    ensures r == "" <==> p == ExtPredicate.NoPredicate
    ensures r != "" ==> r[|r| - 1] == ' '
    ensures r != "invalid"
  {
    match p
    case NoPredicate => ""
    case P0 => "p0 "
    case P1 => "p1 "
    case P2 => "p2 "
    case P3 => "p3 "
    case NegP0 => "!p0 "
    case NegP1 => "!p1 "
    case PN => "pN "
  }

  /** e_predicate_str on a raw field value: codes outside the enum print "invalid". */
  function EPredicateCodeStr(code: uint8): (r: string)
    ensures r == "invalid" <==> code >= 8
    ensures code < 8 ==> r == EPredicateStr(ExtPredicateOfCode(code).value)
  {
    match ExtPredicateOfCode(code)
    case Some(p) => EPredicateStr(p)
    case None => "invalid"
  }

  /** Different predicates print differently. */
  lemma EPredicateStrInjective(p: ExtPredicate, q: ExtPredicate)
    requires EPredicateStr(p) == EPredicateStr(q)
    ensures p == q
  {
    match p
    case NoPredicate =>
    case P0 => assert EPredicateStr(q)[..2] == "p0";
    case P1 => assert EPredicateStr(q)[..2] == "p1";
    case P2 => assert EPredicateStr(q)[..2] == "p2";
    case P3 => assert EPredicateStr(q)[..2] == "p3";
    case NegP0 => assert EPredicateStr(q)[..3] == "!p0";
    case NegP1 => assert EPredicateStr(q)[..3] == "!p1";
    case PN => assert EPredicateStr(q)[..2] == "pN";
  }

  /** The extended predicate with the same meaning as a short one. */
  function ShortToExt(p: ShortPredicate): (r: ExtPredicate)
  {
    match p
    case NoPredicate => ExtPredicate.NoPredicate
    case P0 => ExtPredicate.P0
    case P1 => ExtPredicate.P1
    case NegP0 => ExtPredicate.NegP0
  }

  /** The prefix of an instruction with a short predicate. */
  function SPredicateStr(p: ShortPredicate): (r: string)
    ensures r == "" <==> p == ShortPredicate.NoPredicate
    ensures r != "invalid"
  {
    match p
    case NoPredicate => ""
    case P0 => "p0 "
    case P1 => "p1 "
    case NegP0 => "!p0 "
  }

  /** s_predicate_str on a raw field value: codes outside the enum print "invalid". */
  function SPredicateCodeStr(code: uint8): (r: string)
    ensures r == "invalid" <==> code >= 4
    ensures code < 4 ==> r == SPredicateStr(ShortPredicateOfCode(code).value)
  {
    match ShortPredicateOfCode(code)
    case Some(p) => SPredicateStr(p)
    case None => "invalid"
  }

  /** A short predicate prints as the extended predicate it stands for. */
  lemma SPredicateStrAgrees(p: ShortPredicate)
    ensures SPredicateStr(p) == EPredicateStr(ShortToExt(p))
  {
  }

  /** Hence different short predicates print differently too. */
  lemma SPredicateStrInjective(p: ShortPredicate, q: ShortPredicate)
    requires SPredicateStr(p) == SPredicateStr(q)
    ensures p == q
  {
    SPredicateStrAgrees(p);
    SPredicateStrAgrees(q);
    EPredicateStrInjective(ShortToExt(p), ShortToExt(q));
  }

  // --------------------------------------------------- move data types

  /** The data type of a move: a type letter followed by its width. */
  function MoveDataTypeStr(t: MoveDataType): (r: string)
    ensures 2 <= |r| <= 3 && r[0] in {'i', 'c', 'f'}
    ensures r[0] == 'i' <==> t in {Int8, Int16, Int32}
    ensures r != "invalid"
  {
    match t
    case Int8 => "i8"
    case Int16 => "i16"
    case Int32 => "i32"
    case C10 => "c10"
    case F16 => "f16"
    case F32 => "f32"
  }

  /** move_data_type_str on a raw field value: codes outside the enum print "invalid". */
  function MoveDataTypeCodeStr(code: uint8): (r: string)
    ensures r == "invalid" <==> code >= 6
    ensures code < 6 ==> r == MoveDataTypeStr(MoveDataTypeOfCode(code).value)
  {
    match MoveDataTypeOfCode(code)
    case Some(t) => MoveDataTypeStr(t)
    case None => "invalid"
  }

  /** Different data types print differently. */
  lemma MoveDataTypeStrInjective(s: MoveDataType, t: MoveDataType)
    requires MoveDataTypeStr(s) == MoveDataTypeStr(t)
    ensures s == t
  {
    var r := MoveDataTypeStr(s);
    assert r[1] == MoveDataTypeStr(t)[1];
    if |r| == 3 {
      assert r[2] == MoveDataTypeStr(t)[2];
    }
  }

  // ---------------------------------------------------------- operands

  /** The banks operand_to_str has a prefix for. */
  predicate PrintableBank(bank: RegisterBank)
  {
    bank in {PrimAttr, SecAttr, Temp, Output, FpInternal}
  }

  predicate IsLetter(c: char) { 'a' <= c <= 'z' }

  /** The bank prefix; any other bank trips a debug assertion and, with
      assertions compiled out, contributes nothing. */
  function BankPrefix(bank: RegisterBank): (r: string)
    ensures PrintableBank(bank) ==> 1 <= |r| <= 2 && forall k :: 0 <= k < |r| ==> IsLetter(r[k])
    ensures !PrintableBank(bank) ==> r == ""
  {
    match bank
    case PrimAttr => "pa"
    case SecAttr => "sa"
    case Temp => "r"
    case Output => "o"
    case FpInternal => "i"
    case _ => ""
  }

  /** operand_to_str: bank prefix, register number in decimal and, when the write
      mask is not empty, a dot and the swizzle text. The swizzle printer is a
      parameter, since its definition is not part of this model. */
  function OperandToStr(op: Operand, writeMask: uint8, swizzleToStr: (Swizzle4, uint8) -> string): (r: string)
    ensures BankPrefix(op.bank) <= r
    ensures |r| > |BankPrefix(op.bank)|
    ensures !PrintableBank(op.bank) ==> IsDigit(r[0])
    ensures writeMask == 0 ==> '.' !in r
    ensures writeMask != 0 ==> '.' in r
  {
    var text := BankPrefix(op.bank) + DecimalString(op.num);
    assert text[|text| - 1] != '.';
    if writeMask != 0 then text + "." + swizzleToStr(op.swizzle, writeMask) else text
  }

  /** What an operand's text says: its bank, its number and the swizzle text after the dot. */
  datatype OperandText = OperandText(bank: RegisterBank, num: nat, swizzle: Option<string>)

  /** Reads back the bank prefix of an operand's text. */
  function ParseBankPrefix(s: string): (r: Option<(RegisterBank, nat)>)
    ensures r.Some? ==> PrintableBank(r.value.0) && r.value.1 == |BankPrefix(r.value.0)| <= |s|
  {
    if |s| >= 2 && s[..2] == "pa" then Some((PrimAttr, 2))
    else if |s| >= 2 && s[..2] == "sa" then Some((SecAttr, 2))
    else if |s| >= 1 && s[0] == 'r' then Some((Temp, 1))
    else if |s| >= 1 && s[0] == 'o' then Some((Output, 1))
    else if |s| >= 1 && s[0] == 'i' then Some((FpInternal, 1))
    else None
  }

  /** Reads an operand's text back, or None when it is not one. */
  function ParseOperandText(s: string): (r: Option<OperandText>)
    ensures r.Some? ==> PrintableBank(r.value.bank)
  {
    match ParseBankPrefix(s)
    case None => None
    case Some((bank, len)) =>
      var digits := TakeDigits(s[len..]);
      var rest := s[len + |digits|..];
      if digits == [] then None
      else if rest == [] then Some(OperandText(bank, ParseDecimal(digits), None))
      else if rest[0] == '.' then Some(OperandText(bank, ParseDecimal(digits), Some(rest[1..])))
      else None
  }

  lemma BankPrefixRoundTrip(bank: RegisterBank, tail: string)
    requires PrintableBank(bank)
    ensures ParseBankPrefix(BankPrefix(bank) + tail) == Some((bank, |BankPrefix(bank)|))
  {
    var s := BankPrefix(bank) + tail;
    assert s[0] == BankPrefix(bank)[0];
    if |BankPrefix(bank)| == 2 {
      assert s[..2] == BankPrefix(bank);
    }
  }

  /** What ParseOperandText reads, given the bank prefix, the digits after it
      and what follows the digits. */
  lemma ParseOperandTextParts(s: string, bank: RegisterBank, len: nat, digits: string, rest: string)
    requires ParseBankPrefix(s) == Some((bank, len))
    requires TakeDigits(s[len..]) == digits && digits != []
    requires len + |digits| <= |s| && s[len + |digits|..] == rest
    ensures ParseOperandText(s)
            == if rest == [] then Some(OperandText(bank, ParseDecimal(digits), None))
               else if rest[0] == '.' then Some(OperandText(bank, ParseDecimal(digits), Some(rest[1..])))
               else None
  {
  }

  lemma DropConcat<T>(a: seq<T>, b: seq<T>, c: seq<T>)
    ensures (a + (b + c))[|a|..] == b + c
    ensures (a + (b + c))[|a| + |b|..] == c
  {
  }

  /** A bank prefix, a number in decimal and an optional dot and swizzle text read back as such. */
  lemma ParseOperandTextOf(bank: RegisterBank, n: nat, suffix: string, swizzle: Option<string>, s: string)
    requires PrintableBank(bank)
    requires (swizzle == None && suffix == "") || (swizzle.Some? && suffix == "." + swizzle.value)
    requires s == BankPrefix(bank) + (DecimalString(n) + suffix)
    ensures ParseOperandText(s) == Some(OperandText(bank, n, swizzle))
  {
    var prefix := BankPrefix(bank);
    var digits := DecimalString(n);
    var tail := digits + suffix;
    assert ParseBankPrefix(s) == Some((bank, |prefix|)) by {
      BankPrefixRoundTrip(bank, tail);
    }
    DropConcat(prefix, digits, suffix);
    assert TakeDigits(tail) == digits by {
      TakeDigitsOfDigits(digits, suffix);
    }
    assert ParseDecimal(digits) == n by {
      ParseDecimalString(n);
    }
    ParseOperandTextParts(s, bank, |prefix|, digits, suffix);
    if swizzle.Some? {
      assert suffix[1..] == swizzle.value;
    }
  }

  /** An operand's text gives back its bank, its number and the swizzle text,
      and whether a write mask was given. */
  lemma OperandToStrRoundTrip(op: Operand, writeMask: uint8, swizzleToStr: (Swizzle4, uint8) -> string)
    requires PrintableBank(op.bank)
    ensures ParseOperandText(OperandToStr(op, writeMask, swizzleToStr))
            == Some(OperandText(op.bank, op.num,
                                if writeMask == 0 then None else Some(swizzleToStr(op.swizzle, writeMask))))
  {
    var swizzle := if writeMask == 0 then None else Some(swizzleToStr(op.swizzle, writeMask));
    var suffix := if writeMask != 0 then "." + swizzleToStr(op.swizzle, writeMask) else "";
    var s := OperandToStr(op, writeMask, swizzleToStr);
    assert s == BankPrefix(op.bank) + (DecimalString(op.num) + suffix);
    ParseOperandTextOf(op.bank, op.num, suffix, swizzle, s);
  }

  /** The text of an operand in a bank without a prefix is not read back as an operand. */
  lemma OperandToStrUnprintable(op: Operand, writeMask: uint8, swizzleToStr: (Swizzle4, uint8) -> string)
    requires !PrintableBank(op.bank)
    ensures ParseOperandText(OperandToStr(op, writeMask, swizzleToStr)) == None
  {
    var s := OperandToStr(op, writeMask, swizzleToStr);
    if |s| >= 2 {
      assert s[..2][0] == s[0];
    }
  }

  /** Two operands print alike only when they have the same bank and number. */
  lemma OperandToStrInjective(a: Operand, b: Operand, writeMask: uint8,
                              swizzleToStr: (Swizzle4, uint8) -> string)
    requires PrintableBank(a.bank) && PrintableBank(b.bank)
    requires OperandToStr(a, writeMask, swizzleToStr) == OperandToStr(b, writeMask, swizzleToStr)
    ensures a.bank == b.bank && a.num == b.num
  {
    OperandToStrRoundTrip(a, writeMask, swizzleToStr);
    OperandToStrRoundTrip(b, writeMask, swizzleToStr);
  }
}
