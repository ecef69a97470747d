/**
  The pure pieces of the SPIR-V recompiler: the program-parameter record,
  the mapping from parameter metadata to SPIR-V types, variable-name
  sanitising, and the register-bank to storage-class mapping.
*/
module RecompilerHelpers {
  import opened Optional
  import opened Spirv
  import opened Types

  // ------------------------------------------------- program parameters

  datatype ParameterCategory =
    | Attribute | Uniform | Sampler | AuxiliarySurface | UniformBuffer
    | UnknownCategory(code: nat)

  /** The scalar component type of a parameter. */
  datatype ParameterType =
    | TypeF16 | TypeF32 | TypeU8 | TypeU16 | TypeU32 | TypeS8 | TypeS16 | TypeS32
    | UnknownType(code: nat)

  /** The shape the metadata reader classifies a parameter as. */
  datatype GenericParameterType = GenericScalar | GenericVector | GenericMatrix | GenericOther

  /** One entry of the program's parameter table, with the metadata reader's
      accessors already applied. */
  datatype Parameter = Parameter(
    category: ParameterCategory,
    paramType: ParameterType,
    genericType: GenericParameterType,
    componentCount: nat,
    arraySize: nat,
    structName: string,
    name: string,
    rawName: string)

  // ------------------------------------------------------------- types

  predicate IsUnsignedType(t: ParameterType) { t == TypeU8 || t == TypeU16 || t == TypeU32 }

  predicate IsSignedType(t: ParameterType) { t == TypeS8 || t == TypeS16 || t == TypeS32 }

  /** The bit width the parameter table declares for an integer type. */
  function IntegerWidth(t: ParameterType): nat
    requires IsUnsignedType(t) || IsSignedType(t)
  {
    match t
    case TypeU8 => 8
    case TypeS8 => 8
    case TypeU16 => 16
    case TypeS16 => 16
    case _ => 32
  }

  /** The widened fallback type. */
  const Float32 := Float(32)

  /** The SPIR-V scalar type for a parameter type. Half floats are widened to
      32-bit floats and an unknown type falls back to a 32-bit float. */
  function GetTypeBasic(t: ParameterType): (r: SpvType)
    ensures IsUnsignedType(t) ==> r == UInt(IntegerWidth(t))
    ensures IsSignedType(t) ==> r == Int(IntegerWidth(t))
    ensures !IsUnsignedType(t) && !IsSignedType(t) ==> r == Float32
  {
    match t
    case TypeF16 => Float(32)
    case TypeF32 => Float(32)
    case TypeU8 => UInt(8)
    case TypeU16 => UInt(16)
    case TypeU32 => UInt(32)
    case TypeS8 => Int(8)
    case TypeS16 => Int(16)
    case TypeS32 => Int(32)
    case UnknownType(_) => Float32
  }

  /** A guess at a matrix type: an N x N matrix when the parameter's components
      fill a whole number of N x N matrices, else an N-vector (N the component count).
      The matrix array that would hold several such matrices is never built. */
  function GetTypeMatrix(p: Parameter): (r: SpvType)
    requires p.componentCount > 0
    ensures r == Matrix(GetTypeBasic(p.paramType), p.componentCount, p.componentCount)
            || r == Vector(GetTypeBasic(p.paramType), p.componentCount)
    ensures r.Matrix? <==> (p.componentCount * p.arraySize) % (p.componentCount * p.componentCount) == 0
  {
    var basic := GetTypeBasic(p.paramType);
    var totalTypeSize := p.componentCount * p.arraySize;
    var matrixSize := p.componentCount * p.componentCount;
    var leftover := totalTypeSize % matrixSize;
    if leftover == 0 then Matrix(basic, p.componentCount, p.componentCount)
    else Vector(basic, p.componentCount)
  }

  /** The number of N x N matrices get_type_matrix finds in a parameter. */
  function MatrixArraySize(p: Parameter): nat
    requires p.componentCount > 0
  {
    (p.componentCount * p.arraySize) / (p.componentCount * p.componentCount)
  }

  /** What the shape classification requires for the matrix arithmetic to be defined. */
  predicate WellFormedParameter(p: Parameter)
  {
    p.genericType == GenericMatrix ==> p.componentCount > 0
  }

  /** The scalar type under a vector or a matrix. */
  function ComponentType(t: SpvType): SpvType
  {
    match t
    case Vector(c, _) => c
    case Matrix(c, _, _) => c
    case _ => t
  }

  /** The SPIR-V type of a parameter, by its shape. */
  function GetParamType(p: Parameter): (r: SpvType)
    requires WellFormedParameter(p)
    ensures p.genericType != GenericOther ==> ComponentType(r) == GetTypeBasic(p.paramType)
    ensures p.genericType == GenericOther ==> r == Float32
    ensures p.genericType == GenericScalar ==> r == GetTypeBasic(p.paramType)
    ensures p.genericType == GenericVector ==> r == Vector(GetTypeBasic(p.paramType), p.componentCount)
    ensures r.Vector? ==> r.count == p.componentCount
    ensures r.Matrix? ==> p.genericType == GenericMatrix && r.columns == r.rows == p.componentCount
  {
    match p.genericType
    case GenericScalar => GetTypeBasic(p.paramType)
    case GenericVector => Vector(GetTypeBasic(p.paramType), p.componentCount)
    case GenericMatrix => GetTypeMatrix(p)
    case GenericOther => Float32
  }

  // ------------------------------------------------------ variable names

  /** std::unique over the name with the predicate "both characters are '_'":
      a character is kept unless it and the last character kept are both '_'. */
  function Sanitized(s: string): string
  {
    if s == [] then []
    else
      var prev := Sanitized(s[..|s| - 1]);
      var c := s[|s| - 1];
      if c == '_' && prev != [] && prev[|prev| - 1] == '_' then prev else prev + [c]
  }

  /** A suffix without '_' passes through unchanged: only runs of '_' are squeezed. */
  lemma {:induction false} SanitizedAppendNoUnderscore(p: string, d: string)
    requires forall k :: 0 <= k < |d| ==> d[k] != '_'
    ensures Sanitized(p + d) == Sanitized(p) + d
  {
    if d == [] {
      assert p + d == p;
    } else {
      var d0 := d[..|d| - 1];
      var s := p + d;
      assert s[..|s| - 1] == p + d0;
      SanitizedAppendNoUnderscore(p, d0);
      assert d == d0 + [d[|d| - 1]];
    }
  }

  /** sanitize_variable_name: the in-place erase, on the name passed in and out. */
  method SanitizeVariableName(name: string) returns (r: string)
    ensures r == Sanitized(name)
  {
    r := [];
    for i := 0 to |name|
      invariant r == Sanitized(name[..i])
    {
      assert name[..i + 1][..i] == name[..i];
      var c := name[i];
      if !(r != [] && r[|r| - 1] == c && c == '_') {
        r := r + [c];
      }
    }
    assert name[..|name|] == name;
  }

  /** std::replace of every '.' by '_'. */
  function ReplaceDots(s: string): (r: string)
    ensures |r| == |s|
    ensures forall k :: 0 <= k < |s| ==> r[k] == (if s[k] == '.' then '_' else s[k])
  {
    if s == [] then [] else (if s[0] == '.' then "_" else [s[0]]) + ReplaceDots(s[1..])
  }

  // ------------------------------------------------------ storage classes

  /** The banks that are backed by a SPIR-V variable. */
  predicate HasStorage(bank: RegisterBank)
  {
    bank == Temp || bank == PrimAttr || bank == Output || bank == SecAttr || bank == FpInternal
  }

  function RegTypeToStorageClass(bank: RegisterBank): (r: StorageClass)
    ensures r != StorageClassMax <==> HasStorage(bank)
  {
    match bank
    case Temp => StorageClassFunction
    case PrimAttr => StorageClassInput
    case Output => StorageClassOutput
    case SecAttr => StorageClassUniformConstant
    case FpInternal => StorageClassPrivate
    case _ => StorageClassMax
  }

  /** The bank a storage class serves; the inverse of RegTypeToStorageClass. */
  function BankOfStorageClass(sc: StorageClass): Option<RegisterBank>
  {
    match sc
    case StorageClassFunction => Some(Temp)
    case StorageClassInput => Some(PrimAttr)
    case StorageClassOutput => Some(Output)
    case StorageClassUniformConstant => Some(SecAttr)
    case StorageClassPrivate => Some(FpInternal)
    case StorageClassMax => None
  }

  // ------------------------------------------------------------ lemmas

  /** Both directions of the storage-class mapping agree for the backed banks,
      and the other banks map to the class that names no bank. */
  lemma StorageClassRoundTrip(bank: RegisterBank, sc: StorageClass)
    ensures HasStorage(bank) ==> BankOfStorageClass(RegTypeToStorageClass(bank)) == Some(bank)
    ensures !HasStorage(bank) ==> BankOfStorageClass(RegTypeToStorageClass(bank)) == None
    ensures sc != StorageClassMax ==> RegTypeToStorageClass(BankOfStorageClass(sc).value) == sc
  {
  }

  lemma MulAtLeast(m: int, d: int)
    requires d > 0 && m > 0
    ensures m * d >= d
  {
    assert m * d == (m - 1) * d + d;
    assert (m - 1) * d >= 0;
  }

  lemma DivModUnique(x: int, d: int, q: int, r: int)
    requires d > 0 && x == q * d + r && 0 <= r < d
    ensures x / d == q && x % d == r
  {
    var q', r' := x / d, x % d;
    assert x == q' * d + r';
    assert (q - q') * d == r' - r by {
      assert (q - q') * d == q * d - q' * d;
    }
    if q > q' {
      MulAtLeast(q - q', d);
    } else if q < q' {
      MulAtLeast(q' - q, d);
    }
  }

  lemma MulDistributes(n: int, q: int, r: int)
    ensures n * (q * n + r) == q * (n * n) + r * n
  {
  }

  lemma MulBelowSquare(n: int, r: int)
    requires 0 <= r < n
    ensures 0 <= r * n < n * n
  {
  }

  lemma MulZeroIff(n: int, r: int)
    requires n > 0
    ensures r * n == 0 <==> r == 0
  {
  }

  /** Scaling both sides of a division by n: n * a against n * n behaves as a against n. */
  lemma ScaledDivMod(n: int, a: int)
    requires n > 0
    ensures (n * a) / (n * n) == a / n
    ensures (n * a) % (n * n) == 0 <==> a % n == 0
  {
    var q, r := a / n, a % n;
    assert n * a == q * (n * n) + r * n by {
      assert a == q * n + r;
      MulDistributes(n, q, r);
    }
    MulBelowSquare(n, r);
    DivModUnique(n * a, n * n, q, r * n);
    MulZeroIff(n, r);
  }

  /** get_type_matrix's divisibility test holds exactly when the array size is a
      multiple of the component count, and the matrix count it computes is their quotient. */
  lemma MatrixCaseIffArrayMultiple(p: Parameter)
    requires p.componentCount > 0
    ensures GetTypeMatrix(p).Matrix? <==> p.arraySize % p.componentCount == 0
    ensures MatrixArraySize(p) == p.arraySize / p.componentCount
  {
    ScaledDivMod(p.componentCount, p.arraySize);
  }

  predicate NoDoubleUnderscore(s: string)
  {
    forall k :: 0 <= k < |s| - 1 ==> !(s[k] == '_' && s[k + 1] == '_')
  }

  /** The name with every '_' removed. */
  function StripUnderscores(s: string): string
  {
    if s == [] then []
    else StripUnderscores(s[..|s| - 1]) + (if s[|s| - 1] == '_' then [] else [s[|s| - 1]])
  }

  /** An independent statement of the collapse: drop each '_' whose predecessor in
      the ORIGINAL name is also '_'. */
  function DropRepeatedUnderscores(s: string): string
  {
    if s == [] then []
    else
      var n := |s|;
      DropRepeatedUnderscores(s[..n - 1])
        + (if s[n - 1] == '_' && n >= 2 && s[n - 2] == '_' then [] else [s[n - 1]])
  }

  /** Sanitising keeps the last character. */
  lemma SanitizedLast(s: string)
    requires s != []
    ensures Sanitized(s) != [] && Sanitized(s)[|Sanitized(s)| - 1] == s[|s| - 1]
  {
  }

  /** Comparing with the last character kept and with the previous original
      character drop the same characters. */
  lemma {:induction false} SanitizedIsDropRepeated(s: string)
    ensures Sanitized(s) == DropRepeatedUnderscores(s)
  {
    if s != [] {
      var n := |s|;
      SanitizedIsDropRepeated(s[..n - 1]);
      if n >= 2 {
        SanitizedLast(s[..n - 1]);
        assert s[..n - 1][n - 2] == s[n - 2];
      }
    }
  }

  /** No two '_' are adjacent after sanitising. */
  lemma {:induction false} SanitizedNoDoubleUnderscore(s: string)
    ensures NoDoubleUnderscore(Sanitized(s))
  {
    if s != [] {
      SanitizedNoDoubleUnderscore(s[..|s| - 1]);
    }
  }

  /** Sanitising removes only '_': the other characters stay, in order. */
  lemma {:induction false} SanitizedKeepsOtherCharacters(s: string)
    ensures StripUnderscores(Sanitized(s)) == StripUnderscores(s)
  {
    if s != [] {
      var prev := Sanitized(s[..|s| - 1]);
      SanitizedKeepsOtherCharacters(s[..|s| - 1]);
      var c := s[|s| - 1];
      if !(c == '_' && prev != [] && prev[|prev| - 1] == '_') {
        assert (prev + [c])[..|prev + [c]| - 1] == prev;
      }
    }
  }

  /** A name is left unchanged exactly when it has no two adjacent '_'. */
  lemma {:induction false} SanitizedFixpoint(s: string)
    ensures Sanitized(s) == s <==> NoDoubleUnderscore(s)
  {
    SanitizedNoDoubleUnderscore(s);
    if NoDoubleUnderscore(s) && s != [] {
      var n := |s|;
      var init := s[..n - 1];
      assert NoDoubleUnderscore(init) by {
        forall k | 0 <= k < |init| - 1 ensures !(init[k] == '_' && init[k + 1] == '_') {
          assert init[k] == s[k] && init[k + 1] == s[k + 1];
        }
      }
      SanitizedFixpoint(init);
      assert s == init + [s[n - 1]];
    }
  }

  lemma SanitizedIdempotent(s: string)
    ensures Sanitized(Sanitized(s)) == Sanitized(s)
  {
    SanitizedNoDoubleUnderscore(s);
    SanitizedFixpoint(Sanitized(s));
  }
}
