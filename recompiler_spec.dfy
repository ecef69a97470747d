/**
  The parameter scan of the SPIR-V recompiler, stated as functions on values:
  each step of create_parameters maps the builder's module and the register
  banks to new ones. The methods of module Recompiler are proved to perform
  exactly these steps.
*/
module RecompilerSpec {
  import opened Spirv
  import opened Types
  import opened Decimal
  import opened RecompilerHelpers

  datatype ProgramType = Vertex | Fragment

  /** The parts of a program header that create_parameters reads. The two masks
      are the vertex-output and fragment-input flag words. */
  datatype Program = Program(
    programType: ProgramType,
    parameters: seq<Parameter>,
    vertexOutputs: bv32,
    fragmentInputs: bv32,
    tempRegCount1: nat,
    primaryRegCount: nat,
    nativeColor: bool)

  predicate WellFormedProgram(prog: Program)
  {
    forall i :: 0 <= i < |prog.parameters| ==> WellFormedParameter(prog.parameters[i])
  }

  // ------------------------------------------------------ bank selection

  /** The bank object create_variable pushes to, for a bank that has one. */
  function Group(bs: Banks, bank: RegisterBank): seq<SpirvReg>
    requires HasStorage(bank)
  {
    if bank == SecAttr then bs.uniforms
    else if bank == PrimAttr then bs.ins
    else if bank == Output then bs.outs
    else if bank == Temp then bs.temps
    else bs.internals
  }

  function WithGroup(bs: Banks, bank: RegisterBank, regs: seq<SpirvReg>): (r: Banks)
    requires HasStorage(bank)
    ensures Group(r, bank) == regs
    ensures forall g :: HasStorage(g) && g != bank ==> Group(r, g) == Group(bs, g)
    ensures r.structs == bs.structs
  {
    if bank == SecAttr then bs.(uniforms := regs)
    else if bank == PrimAttr then bs.(ins := regs)
    else if bank == Output then bs.(outs := regs)
    else if bank == Temp then bs.(temps := regs)
    else bs.(internals := regs)
  }

  /** The builder's module together with the register banks. */
  datatype Recomp = Recomp(spv: Module, banks: Banks)

  const Vec4 := Vector(Float32, 4)

  /** create_variable: the builder declares the variable (whatever the bank), and
      a bank with a variable group gets the binding; any other bank gives NoResult. */
  function CreateVariableSpec(r: Recomp, name: string, bank: RegisterBank, size: nat, ty: SpvType): (Recomp, SpvId)
  {
    var (m, id) := DeclareVariable(r.spv, RegTypeToStorageClass(bank), ty, Sanitized(name));
    if HasStorage(bank) then
      (Recomp(m, WithGroup(r.banks, bank, PushReg(Group(r.banks, bank), SpirvVar(ty, id), size))), id)
    else
      (Recomp(m, r.banks), NoResult)
  }

  // ------------------------------------------------------------ structs

  /** The value of a StructDeclContext. */
  datatype StructDecl = StructDecl(
    name: string,
    regType: RegisterBank,
    fieldTypes: seq<SpvType>,
    fieldNames: seq<string>,
    isInterfaceBlock: bool)

  const EmptyDecl := StructDecl("", Invalid, [], [], false)

  /** Field types and names stay paired, and an unnamed context is the cleared one. */
  predicate DeclInvariant(d: StructDecl)
  {
    |d.fieldTypes| == |d.fieldNames| && (d.name == "" ==> d == EmptyDecl)
  }

  /** create_struct: one variable of the struct type, of size 1, in the struct's bank. */
  function CreateStructSpec(r: Recomp, d: StructDecl): (Recomp, SpvId)
    requires |d.fieldTypes| == |d.fieldNames|
  {
    var structType := Struct(d.name, d.fieldTypes, d.fieldNames, d.isInterfaceBlock);
    CreateVariableSpec(r, d.name, d.regType, 1, structType)
  }

  const SamplerType := SampledImage2D(Float32)

  /** create_param_sampler: a 2-unit secondary-attribute variable named by the raw name. */
  function CreateParamSamplerSpec(r: Recomp, p: Parameter): (Recomp, SpvId)
  {
    CreateVariableSpec(r, p.rawName, SecAttr, 2, SamplerType)
  }

  // -------------------------------------------------------- the scan

  /** The scan's state: what has been built and the open struct. */
  datatype ScanState = ScanState(recomp: Recomp, decl: StructDecl)

  /** The open struct ends before a parameter outside it. */
  predicate StructDeclEnded(d: StructDecl, structName: string)
  {
    (structName == "" && d.name != "") || (structName != "" && d.name != "" && d.name != structName)
  }

  predicate CanBeInterfaceBlock(bank: RegisterBank, pt: ProgramType)
  {
    (bank == Output && pt == Vertex) || (bank == PrimAttr && pt == Fragment)
  }

  /** The name of a parameter that gets variables of its own: uniforms use the
      display name, others the raw name with a struct path flattened. */
  function VariableBaseName(p: Parameter, bank: RegisterBank): string
  {
    if bank == SecAttr then p.name
    else if p.structName != "" then ReplaceDots(p.rawName)
    else p.rawName
  }

  function ElementName(base: string, arraySize: nat, index: nat): string
  {
    if arraySize == 1 then base else base + "_" + DecimalString(index)
  }

  /** The names of the first k elements of an array parameter, in element order. */
  function ElementNames(base: string, arraySize: nat, k: nat): (r: seq<string>)
    ensures |r| == k
  {
    if k == 0 then [] else ElementNames(base, arraySize, k - 1) + [ElementName(base, arraySize, k - 1)]
  }

  /** Entry j of the list is the name of element j. */
  lemma {:induction false} ElementNameAt(base: string, arraySize: nat, k: nat, j: nat)
    requires j < k
    ensures ElementNames(base, arraySize, k)[j] == ElementName(base, arraySize, j)
  {
    if j < k - 1 {
      ElementNameAt(base, arraySize, k - 1, j);
    }
  }

  /** create_variable for each of the first k names in turn, all in one bank
      with one type. */
  function CreateVariablesSpec(r: Recomp, names: seq<string>, bank: RegisterBank, count: nat, ty: SpvType,
                               k: nat): Recomp
    requires k <= |names|
  {
    if k == 0 then r
    else CreateVariableSpec(CreateVariablesSpec(r, names, bank, count, ty, k - 1), names[k - 1], bank, count, ty).0
  }

  /** The variables of an array parameter, one per element. */
  function CreateElementsSpec(r: Recomp, base: string, bank: RegisterBank, count: nat, ty: SpvType,
                              arraySize: nat): Recomp
  {
    CreateVariablesSpec(r, ElementNames(base, arraySize, arraySize), bank, count, ty, arraySize)
  }

  /** The open struct flushed, if there is one. */
  function FlushSpec(s: ScanState): (r: ScanState)
    requires DeclInvariant(s.decl)
    ensures r.decl == EmptyDecl
  {
    if s.decl.name != "" then ScanState(CreateStructSpec(s.recomp, s.decl).0, EmptyDecl) else s
  }

  /** The open struct flushed when the parameter ends it, else the state as it was. */
  function AttributeFlush(s: ScanState, p: Parameter): (r: ScanState)
    requires DeclInvariant(s.decl)
    ensures DeclInvariant(r.decl)
  {
    if StructDeclEnded(s.decl, p.structName) then FlushSpec(s) else s
  }

  /** After the flush: a struct field of an interface block is collected into the
      open struct; any other parameter gets a variable per array element. */
  function AttributeAdd(s: ScanState, p: Parameter, pt: ProgramType, bank: RegisterBank): (r: ScanState)
    requires WellFormedParameter(p) && DeclInvariant(s.decl)
    ensures DeclInvariant(r.decl)
  {
    var ty := GetParamType(p);
    if p.structName != "" && CanBeInterfaceBlock(bank, pt) then
      ScanState(s.recomp, StructDecl(p.structName, bank, s.decl.fieldTypes + [ty], s.decl.fieldNames + [p.name], true))
    else
      var base := VariableBaseName(p, bank);
      ScanState(CreateElementsSpec(s.recomp, base, bank, p.componentCount, ty, p.arraySize), s.decl)
  }

  /** An attribute or uniform parameter in the given bank. */
  function AttributeStep(s: ScanState, p: Parameter, pt: ProgramType, bank: RegisterBank): (r: ScanState)
    requires WellFormedParameter(p) && DeclInvariant(s.decl)
    ensures DeclInvariant(r.decl)
  {
    AttributeAdd(AttributeFlush(s, p), p, pt, bank)
  }

  /** One iteration of the parameter loop. */
  function ParamStep(s: ScanState, p: Parameter, pt: ProgramType): (r: ScanState)
    requires WellFormedParameter(p) && DeclInvariant(s.decl)
    ensures DeclInvariant(r.decl)
  {
    match p.category
    case Uniform => AttributeStep(s, p, pt, SecAttr)
    case Attribute => AttributeStep(s, p, pt, PrimAttr)
    case Sampler => ScanState(CreateParamSamplerSpec(s.recomp, p).0, s.decl)
    case _ => s
  }

  /** The parameter loop over ps. */
  function Scan(s: ScanState, ps: seq<Parameter>, pt: ProgramType): (r: ScanState)
    requires DeclInvariant(s.decl)
    requires forall i :: 0 <= i < |ps| ==> WellFormedParameter(ps[i])
    ensures DeclInvariant(r.decl)
  {
    if ps == [] then s
    else ParamStep(Scan(s, ps[..|ps| - 1], pt), ps[|ps| - 1], pt)
  }

  // ---------------------------------------------------- stage-fixed I/O

  /** The vertex-output properties, one per flag bit from the lowest (position) up. */
  const VertexOutputTable: seq<(string, nat)> := [
    ("out_Position", 4),
    ("out_Fog", 4),
    ("out_Color0", 4),
    ("out_Color1", 4),
    ("out_TexCoord0", 2),
    ("out_TexCoord1", 2),
    ("out_TexCoord2", 2),
    ("out_TexCoord3", 2),
    ("out_TexCoord4", 2),
    ("out_TexCoord5", 2),
    ("out_TexCoord6", 2),
    ("out_TexCoord7", 2),
    ("out_TexCoord8", 2),
    ("out_TexCoord9", 2),
    ("out_Psize", 1),
    ("out_Clip0", 4),
    ("out_Clip1", 4),
    ("out_Clip2", 4),
    ("out_Clip3", 4),
    ("out_Clip4", 4),
    ("out_Clip5", 4),
    ("out_Clip6", 4),
    ("out_Clip7", 4)]

  /** The fragment-input properties, one per flag bit from the lowest (position) up. */
  const FragmentInputTable: seq<(string, nat)> := [
    ("in_Position", 4),
    ("in_Fog", 4),
    ("in_Color0", 4),
    ("in_Color1", 4),
    ("in_TexCoord0", 2),
    ("in_TexCoord1", 2),
    ("in_TexCoord2", 2),
    ("in_TexCoord3", 2),
    ("in_TexCoord4", 2),
    ("in_TexCoord5", 2),
    ("in_TexCoord6", 2),
    ("in_TexCoord7", 2),
    ("in_TexCoord8", 2),
    ("in_TexCoord9", 2),
    ("in_SpriteCoord", 2)]

  predicate BitSet(mask: bv32, k: nat)
    requires k < 32
  {
    mask & ((1 as bv32) << k) != 0
  }

  /** The output variable of flag bit k; bit 0, the position, is the BuiltIn Position. */
  function VertexOutputStep(r: Recomp, k: nat): Recomp
    requires k < |VertexOutputTable|
  {
    var (name, count) := VertexOutputTable[k];
    var (r1, id) := CreateVariableSpec(r, name, Output, count, Vector(Float32, count));
    if k == 0 then Recomp(Decorate(r1.spv, BuiltInPosition(id)), r1.banks) else r1
  }

  /** The vertex outputs of flag bits below k. */
  function VertexOutputsSpec(r: Recomp, mask: bv32, k: nat): Recomp
    requires k <= |VertexOutputTable|
  {
    if k == 0 then r
    else
      var prev := VertexOutputsSpec(r, mask, k - 1);
      if BitSet(mask, k - 1) then VertexOutputStep(prev, k - 1) else prev
  }

  function FragmentInputStep(r: Recomp, k: nat): Recomp
    requires k < |FragmentInputTable|
  {
    var (name, count) := FragmentInputTable[k];
    CreateVariableSpec(r, name, PrimAttr, count, Vector(Float32, count)).0
  }

  /** The fragment inputs of flag bits below k. */
  function FragmentInputsSpec(r: Recomp, mask: bv32, k: nat): Recomp
    requires k <= |FragmentInputTable|
  {
    if k == 0 then r
    else
      var prev := FragmentInputsSpec(r, mask, k - 1);
      if BitSet(mask, k - 1) then FragmentInputStep(prev, k - 1) else prev
  }

  /** create_fragment_output: out_color at location 0, pushed to the outputs twice. */
  function FragmentOutputSpec(r: Recomp): Recomp
  {
    var (r1, id) := CreateVariableSpec(r, "out_color", Output, 4, Vec4);
    var m := Decorate(r1.spv, Location(id, 0));
    Recomp(m, WithGroup(r1.banks, Output, PushReg(r1.banks.outs, SpirvVar(Vec4, id), 4)))
  }

  function StageIoSpec(r: Recomp, prog: Program): Recomp
  {
    match prog.programType
    case Vertex => VertexOutputsSpec(r, prog.vertexOutputs, |VertexOutputTable|)
    case Fragment => FragmentOutputSpec(FragmentInputsSpec(r, prog.fragmentInputs, |FragmentInputTable|))
  }

  // ------------------------------------------- temps, internals, patch

  /** The temporaries r0 .. r(k-1). */
  function TempsSpec(r: Recomp, k: nat): Recomp
  {
    if k == 0 then r
    else CreateVariableSpec(TempsSpec(r, k - 1), "r" + DecimalString(k - 1), Temp, 4, Vec4).0
  }

  /** The internals i0 .. i(k-1), each addressed as 16 components. */
  function InternalsSpec(r: Recomp, k: nat): Recomp
  {
    if k == 0 then r
    else CreateVariableSpec(InternalsSpec(r, k - 1), "i" + DecimalString(k - 1), FpInternal, 16, Vec4).0
  }

  const InternalRegCount := 3

  /** size_t arithmetic: the subtraction wraps modulo 2^64. */
  const SizeTModulus: nat := 0x1_0000_0000_0000_0000

  function PrimaryShortfall(primaryRegCount: nat, insSize: nat): nat
  {
    (primaryRegCount - insSize) % SizeTModulus
  }

  /** The placeholder primary attributes of a non-native-colour fragment program. */
  function ColorPatchSpec(r: Recomp, prog: Program): Recomp
  {
    if prog.programType == Fragment && !prog.nativeColor then
      var missing := PrimaryShortfall(prog.primaryRegCount, SumSizes(r.banks.ins));
      if missing > 2 then r
      else if missing > 0 then
        CreateVariableSpec(r, "pa0_blend", PrimAttr, missing * 2, Vector(Float32, missing * 2)).0
      else r
    else r
  }

  /** create_parameters, from the builder's module before the call. */
  function CreateParametersSpec(m: Module, prog: Program): Recomp
    requires WellFormedProgram(prog)
  {
    var scanned := Scan(ScanState(Recomp(m, EmptyBanks), EmptyDecl), prog.parameters, prog.programType);
    var r1 := FlushSpec(scanned).recomp;
    var r2 := StageIoSpec(r1, prog);
    var r3 := InternalsSpec(TempsSpec(r2, prog.tempRegCount1), InternalRegCount);
    ColorPatchSpec(r3, prog)
  }
}
