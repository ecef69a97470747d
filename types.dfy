/**
  The USSE instruction-set vocabulary (predicates, swizzles, register banks,
  operands) and the register-bank bookkeeping that maps USSE register indices
  onto SPIR-V variables.
*/
module Types {
  import opened Spirv

  /** The source's uint8_t immediates (Imm4, Imm6 and the enums' underlying type). */
  type uint8 = x: int | 0 <= x < 0x100

  // ---------------------------------------------------------------- enums

  /** The 8-valued predicate of the extended instruction encodings. */
  datatype ExtPredicate = NoPredicate | P0 | P1 | P2 | P3 | NegP0 | NegP1 | PN

  /** The 4-valued predicate of the short instruction encodings. */
  datatype ShortPredicate = NoPredicate | P0 | P1 | NegP0

  datatype SwizzleChannel = X | Y | Z | W | Zero | One | Two | Half | Undefined

  datatype MoveDataType = Int8 | Int16 | Int32 | C10 | F16 | F32

  datatype RegisterBank =
    | Temp | PrimAttr | Output | SecAttr | FpInternal
    | Special | Global | FpConstant | Immediate | Index | Indexed
    | Maximum | Invalid

  /** The underlying value of each ExtPredicate, in declaration order. */
  function ExtPredicateCode(p: ExtPredicate): uint8
  {
    match p
    case NoPredicate => 0
    case P0 => 1
    case P1 => 2
    case P2 => 3
    case P3 => 4
    case NegP0 => 5
    case NegP1 => 6
    case PN => 7
  }

  /** Reading a raw byte as an ExtPredicate: only the eight declared values name one. */
  function ExtPredicateOfCode(code: uint8): (r: Optional.Option<ExtPredicate>)
    ensures r.Some? <==> code < 8
    ensures r.Some? ==> ExtPredicateCode(r.value) == code
  {
    if code == 0 then Optional.Some(ExtPredicate.NoPredicate)
    else if code == 1 then Optional.Some(ExtPredicate.P0)
    else if code == 2 then Optional.Some(ExtPredicate.P1)
    else if code == 3 then Optional.Some(ExtPredicate.P2)
    else if code == 4 then Optional.Some(ExtPredicate.P3)
    else if code == 5 then Optional.Some(ExtPredicate.NegP0)
    else if code == 6 then Optional.Some(ExtPredicate.NegP1)
    else if code == 7 then Optional.Some(ExtPredicate.PN)
    else Optional.None
  }

  function ShortPredicateCode(p: ShortPredicate): uint8
  {
    match p
    case NoPredicate => 0
    case P0 => 1
    case P1 => 2
    case NegP0 => 3
  }

  function ShortPredicateOfCode(code: uint8): (r: Optional.Option<ShortPredicate>)
    ensures r.Some? <==> code < 4
    ensures r.Some? ==> ShortPredicateCode(r.value) == code
  {
    if code == 0 then Optional.Some(ShortPredicate.NoPredicate)
    else if code == 1 then Optional.Some(ShortPredicate.P0)
    else if code == 2 then Optional.Some(ShortPredicate.P1)
    else if code == 3 then Optional.Some(ShortPredicate.NegP0)
    else Optional.None
  }

  function MoveDataTypeCode(t: MoveDataType): uint8
  {
    match t
    case Int8 => 0
    case Int16 => 1
    case Int32 => 2
    case C10 => 3
    case F16 => 4
    case F32 => 5
  }

  function MoveDataTypeOfCode(code: uint8): (r: Optional.Option<MoveDataType>)
    ensures r.Some? <==> code < 6
    ensures r.Some? ==> MoveDataTypeCode(r.value) == code
  {
    if code == 0 then Optional.Some(Int8)
    else if code == 1 then Optional.Some(Int16)
    else if code == 2 then Optional.Some(Int32)
    else if code == 3 then Optional.Some(C10)
    else if code == 4 then Optional.Some(F16)
    else if code == 5 then Optional.Some(F32)
    else Optional.None
  }

  // ------------------------------------------------------------- swizzles

  type Swizzle3 = s: seq<SwizzleChannel> | |s| == 3 witness [X, X, X]
  type Swizzle4 = s: seq<SwizzleChannel> | |s| == 4 witness [X, X, X, X]

  const DefaultSwizzle4: Swizzle4 := [X, Y, Z, W]
  const UndefinedSwizzle4: Swizzle4 := [Undefined, Undefined, Undefined, Undefined]

  /** Widens a 3-channel swizzle; the fourth channel is X. */
  function ToSwizzle4(sw: Swizzle3): (r: Swizzle4)
    ensures r[..3] == sw
    ensures r[3] == X
  {
    [sw[0], sw[1], sw[2], X]
  }

  /** The cascade of is_default's fallthrough switch entered at case `len`:
      the tests for channels len-1 down to 0. */
  function IdentityPrefix(sw: Swizzle4, len: nat): (r: bool)
    requires len <= 4
    ensures r <==> forall k :: 0 <= k < len ==> sw[k] == DefaultSwizzle4[k]
  {
    len == 0 || (sw[len - 1] == DefaultSwizzle4[len - 1] && IdentityPrefix(sw, len - 1))
  }

  /** Whether the first swLen channels (four when omitted) are X, Y, Z, W in order; a length the
      switch has no case for (0 or more than 4) leaves the flag true. */
  function IsDefault(sw: Swizzle4, swLen: uint8 := 4): (r: bool)
    ensures 1 <= swLen <= 4 ==> (r <==> forall k :: 0 <= k < swLen ==> sw[k] == DefaultSwizzle4[k])
    ensures (swLen == 0 || swLen > 4) ==> r
  {
    if 1 <= swLen <= 4 then IdentityPrefix(sw, swLen) else true
  }

  // -------------------------------------------------------------- operand

  /** A register reference. RegisterFlags declares no values, so flags are not kept. */
  datatype Operand = Operand(num: uint8, bank: RegisterBank, swizzle: Swizzle4)

  /** A default-constructed Operand. */
  function DefaultOperand(): (op: Operand)
    ensures op.num == 0x3F
    ensures op.bank == Invalid
    ensures forall k :: 0 <= k < 4 ==> op.swizzle[k] == Undefined
  {
    Operand(0x3F, Invalid, UndefinedSwizzle4)
  }

  // ------------------------------------------------ register-bank bindings

  /** A SPIR-V variable: its type and its id. */
  datatype SpirvVar = SpirvVar(ty: SpvType, varId: SpvId)

  /** A variable bound to the register range [offset, offset + size) of a bank. */
  datatype SpirvReg = SpirvReg(ty: SpvType, varId: SpvId, offset: nat, size: nat)

  /** The total size of a list of bindings. */
  function SumSizes(regs: seq<SpirvReg>): nat
  {
    if regs == [] then 0 else SumSizes(regs[..|regs| - 1]) + regs[|regs| - 1].size
  }

  /** Every binding starts where the ones before it end. */
  ghost predicate Contiguous(regs: seq<SpirvReg>)
  {
    forall k :: 0 <= k < |regs| ==> regs[k].offset == SumSizes(regs[..k])
  }

  predicate Covers(reg: SpirvReg, index: nat)
  {
    reg.offset <= index < reg.offset + reg.size
  }

  /** The bindings after a push of a variable of the given size. */
  function PushReg(regs: seq<SpirvReg>, v: SpirvVar, size: nat): seq<SpirvReg>
  {
    regs + [SpirvReg(v.ty, v.varId, SumSizes(regs), size)]
  }

  lemma SumSizesAppend(regs: seq<SpirvReg>, r: SpirvReg)
    ensures SumSizes(regs + [r]) == SumSizes(regs) + r.size
  {
    assert (regs + [r])[..|regs|] == regs;
  }

  /** A push keeps the bindings contiguous and grows the total by the size pushed. */
  lemma PushRegContiguous(regs: seq<SpirvReg>, v: SpirvVar, size: nat)
    requires Contiguous(regs)
    ensures Contiguous(PushReg(regs, v, size))
    ensures SumSizes(PushReg(regs, v, size)) == SumSizes(regs) + size
  {
    var r := PushReg(regs, v, size);
    SumSizesAppend(regs, r[|regs|]);
    forall k | 0 <= k < |r| ensures r[k].offset == SumSizes(r[..k]) {
      if k < |regs| {
        assert r[..k] == regs[..k];
      } else {
        assert r[..k] == regs;
      }
    }
  }

  /** A prefix of contiguous bindings is contiguous. */
  lemma ContiguousPrefix(regs: seq<SpirvReg>, n: nat)
    requires Contiguous(regs) && n <= |regs|
    ensures Contiguous(regs[..n])
  {
    forall k | 0 <= k < n ensures regs[..n][k].offset == SumSizes(regs[..n][..k]) {
      assert regs[..n][..k] == regs[..k];
    }
  }

  /** Contiguous bindings cover exactly the indices below their total size. */
  lemma {:induction false} CoveredIffBelowSize(regs: seq<SpirvReg>, index: nat)
    requires Contiguous(regs)
    ensures (exists k :: 0 <= k < |regs| && Covers(regs[k], index)) <==> index < SumSizes(regs)
  {
    if regs != [] {
      var n := |regs| - 1;
      var init := regs[..n];
      ContiguousPrefix(regs, n);
      CoveredIffBelowSize(init, index);
      assert regs[n].offset == SumSizes(init);
      if index < SumSizes(init) {
        var k :| 0 <= k < |init| && Covers(init[k], index);
        assert regs[k] == init[k];
      } else if index < SumSizes(regs) {
        assert Covers(regs[n], index);
      } else {
        forall k | 0 <= k < |regs| ensures !Covers(regs[k], index) {
          if k < n {
            assert init[k] == regs[k];
          }
        }
      }
    }
  }

  /** The offset of a contiguous binding plus its size never exceeds the total. */
  lemma {:induction false} BindingWithinTotal(regs: seq<SpirvReg>, k: nat)
    requires Contiguous(regs) && k < |regs|
    ensures regs[k].offset + regs[k].size <= SumSizes(regs)
  {
    var n := |regs| - 1;
    if k < n {
      var init := regs[..n];
      ContiguousPrefix(regs, n);
      BindingWithinTotal(init, k);
    }
  }

  /** Contiguous bindings do not overlap: at most one covers an index. */
  lemma {:induction false} CoverUnique(regs: seq<SpirvReg>, i: nat, j: nat, index: nat)
    requires Contiguous(regs) && i < |regs| && j < |regs|
    requires Covers(regs[i], index) && Covers(regs[j], index)
    ensures i == j
  {
    if i < j {
      assert regs[..j][i] == regs[i];
      ContiguousPrefix(regs, j);
      BindingWithinTotal(regs[..j], i);
    } else if j < i {
      assert regs[..i][j] == regs[j];
      ContiguousPrefix(regs, i);
      BindingWithinTotal(regs[..i], j);
    }
  }

  /** The bindings of one register bank, allocated one after the other. */
  class SpirvVarRegBank {
    var vars: seq<SpirvReg>
    var nextOffset: nat

    ghost predicate Valid()
      reads this
    {
      Contiguous(vars) && nextOffset == SumSizes(vars)
    }

    constructor ()
      ensures Valid() && vars == [] && nextOffset == 0
    {
      vars, nextOffset := [], 0;
    }

    /** The binding that covers index and the component offset into it. When no
        binding covers index, the incoming outReg and outCompOffset come back untouched. */
    method FindRegAt(index: nat, outReg: SpirvReg, outCompOffset: nat)
      returns (found: bool, reg: SpirvReg, compOffset: nat)
      ensures found <==> exists k :: 0 <= k < |vars| && Covers(vars[k], index)
      ensures found ==> exists k :: 0 <= k < |vars| && reg == vars[k] && Covers(reg, index)
                          && forall j :: 0 <= j < k ==> !Covers(vars[j], index)
      ensures found ==> compOffset == index - reg.offset && compOffset < reg.size
      ensures !found ==> reg == outReg && compOffset == outCompOffset
      ensures Valid() ==> (found <==> index < nextOffset)
    {
      if Valid() {
        CoveredIffBelowSize(vars, index);
      }
      reg, compOffset := outReg, outCompOffset;
      var i := 0;
      while i < |vars|
        invariant 0 <= i <= |vars|
        invariant forall j :: 0 <= j < i ==> !Covers(vars[j], index)
      {
        var v := vars[i];
        if index >= v.offset && index < v.offset + v.size {
          reg := v;
          compOffset := index - v.offset;
          found := true;
          return;
        }
        i := i + 1;
      }
      found := false;
    }

    /** The bindings in the order they were pushed. */
    function GetVars(): (r: seq<SpirvReg>)
      reads this
      ensures Valid() ==> Contiguous(r) && SumSizes(r) == nextOffset
    {
      vars
    }

    method Push(v: SpirvVar, size: nat)
      requires Valid()
      modifies this
      ensures Valid()
      ensures vars == PushReg(old(vars), v, size)
      ensures vars[|vars| - 1].offset == old(nextOffset)
      ensures nextOffset == old(nextOffset) + size
    {
      PushRegContiguous(vars, v, size);
      var offset := nextOffset;
      vars := vars + [SpirvReg(v.ty, v.varId, offset, size)];
      nextOffset := nextOffset + size;
    }

    /** The sum of the binding sizes. */
    method Size() returns (s: nat)
      ensures s == SumSizes(vars)
      ensures Valid() ==> s == nextOffset
    {
      s := 0;
      for i := 0 to |vars|
        invariant s == SumSizes(vars[..i])
      {
        assert vars[..i + 1] == vars[..i] + [vars[i]];
        SumSizesAppend(vars[..i], vars[i]);
        s := s + vars[i].size;
      }
      assert vars[..|vars|] == vars;
    }
  }

  /** The bindings of every bank, as values. */
  datatype Banks = Banks(
    ins: seq<SpirvReg>, uniforms: seq<SpirvReg>, temps: seq<SpirvReg>,
    internals: seq<SpirvReg>, outs: seq<SpirvReg>, structs: seq<SpirvReg>)

  const EmptyBanks := Banks([], [], [], [], [], [])

  ghost predicate AllContiguous(bs: Banks)
  {
    Contiguous(bs.ins) && Contiguous(bs.uniforms) && Contiguous(bs.temps)
    && Contiguous(bs.internals) && Contiguous(bs.outs) && Contiguous(bs.structs)
  }

  /** The per-bank variables of one shader: ins are the 'pa' registers, uniforms
      'sa', temps 'r', internals 'i', outs 'o'; structs is never filled. */
  class ShaderParameters {
    const ins: SpirvVarRegBank
    const uniforms: SpirvVarRegBank
    const temps: SpirvVarRegBank
    const internals: SpirvVarRegBank
    const outs: SpirvVarRegBank
    const structs: SpirvVarRegBank

    /** The banks, numbered in the order of the fields. */
    function BankAt(i: nat): SpirvVarRegBank
      requires i < 6
    {
      if i == 0 then ins else if i == 1 then uniforms else if i == 2 then temps
      else if i == 3 then internals else if i == 4 then outs else structs
    }

    /** The six banks are six different objects. */
    ghost predicate Distinct()
    {
      forall i, j :: 0 <= i < j < 6 ==> BankAt(i) != BankAt(j)
    }

    lemma DistinctBanks()
      requires Distinct()
      ensures ins != uniforms && ins != temps && ins != internals && ins != outs && ins != structs
      ensures uniforms != temps && uniforms != internals && uniforms != outs && uniforms != structs
      ensures temps != internals && temps != outs && temps != structs
      ensures internals != outs && internals != structs && outs != structs
    {
      assert BankAt(0) == ins && BankAt(1) == uniforms && BankAt(2) == temps;
      assert BankAt(3) == internals && BankAt(4) == outs && BankAt(5) == structs;
    }

    ghost predicate BanksValid()
      reads ins, uniforms, temps, internals, outs, structs
    {
      ins.Valid() && uniforms.Valid() && temps.Valid() && internals.Valid() && outs.Valid() && structs.Valid()
    }

    ghost predicate Valid()
      reads ins, uniforms, temps, internals, outs, structs
    {
      Distinct() && BanksValid()
    }

    function Value(): Banks
      reads ins, uniforms, temps, internals, outs, structs
    {
      Banks(ins.vars, uniforms.vars, temps.vars, internals.vars, outs.vars, structs.vars)
    }

    constructor ()
      ensures Valid() && Value() == EmptyBanks
      ensures fresh(ins) && fresh(uniforms) && fresh(temps)
      ensures fresh(internals) && fresh(outs) && fresh(structs)
    {
      ins := new SpirvVarRegBank();
      uniforms := new SpirvVarRegBank();
      temps := new SpirvVarRegBank();
      internals := new SpirvVarRegBank();
      outs := new SpirvVarRegBank();
      structs := new SpirvVarRegBank();
    }

    lemma ValueContiguous()
      requires Valid()
      ensures AllContiguous(Value())
    {
    }
  }
}
