/**
  create_parameters and the helpers it calls, as methods on the builder and
  on the register-bank objects. Each one is proved to change the builder's
  module and the banks exactly as its counterpart in RecompilerSpec says.
*/
module Recompiler {
  import opened Spirv
  import opened Types
  import opened Decimal
  import opened RecompilerHelpers
  import opened RecompilerSpec

  /** The struct whose fields the scan is collecting. */
  class StructDeclContext {
    var name: string
    var regType: RegisterBank
    var fieldTypes: seq<SpvType>
    var fieldNames: seq<string>
    var isInterfaceBlock: bool

    function Value(): StructDecl
      reads this
    {
      StructDecl(name, regType, fieldTypes, fieldNames, isInterfaceBlock)
    }

    constructor ()
      ensures Value() == EmptyDecl
    {
      name, regType, fieldTypes, fieldNames, isInterfaceBlock := "", Invalid, [], [], false;
    }

    /** No struct is open. */
    function Empty(): (r: bool)
      reads this
      ensures DeclInvariant(Value()) ==> (r <==> Value() == EmptyDecl)
    {
      name == ""
    }

    method Clear()
      modifies this
      ensures Value() == EmptyDecl
    {
      name, regType, fieldTypes, fieldNames, isInterfaceBlock := "", Invalid, [], [], false;
    }
  }

  method CreateVariable(b: Builder, params: ShaderParameters, name: string, bank: RegisterBank,
                        size: nat, ty: SpvType) returns (id: SpvId)
    requires params.Valid()
    modifies b, params.ins, params.uniforms, params.outs, params.temps, params.internals
    ensures params.Valid()
    ensures (Recomp(b.Value(), params.Value()), id)
            == CreateVariableSpec(Recomp(old(b.Value()), old(params.Value())), name, bank, size, ty)
  {
    params.DistinctBanks();
    var sanitized := SanitizeVariableName(name);
    var storageClass := RegTypeToStorageClass(bank);
    var varId := b.CreateVariable(storageClass, ty, sanitized);
    var group: SpirvVarRegBank;
    if bank == SecAttr {
      group := params.uniforms;
    } else if bank == PrimAttr {
      group := params.ins;
    } else if bank == Output {
      group := params.outs;
    } else if bank == Temp {
      group := params.temps;
    } else if bank == FpInternal {
      group := params.internals;
    } else {
      // logged as an unsupported register type
      return NoResult;
    }
    group.Push(SpirvVar(ty, varId), size);
    id := varId;
  }

  method CreateStruct(b: Builder, params: ShaderParameters, ctx: StructDeclContext) returns (id: SpvId)
    requires params.Valid()
    requires |ctx.fieldTypes| == |ctx.fieldNames|
    modifies b, params.ins, params.uniforms, params.outs, params.temps, params.internals, ctx
    ensures params.Valid()
    ensures ctx.Value() == EmptyDecl
    ensures (Recomp(b.Value(), params.Value()), id)
            == CreateStructSpec(Recomp(old(b.Value()), old(params.Value())), old(ctx.Value()))
  {
    // addMemberName for every field index
    var memberNames: seq<string> := [];
    for fieldIndex := 0 to |ctx.fieldTypes|
      invariant memberNames == ctx.fieldNames[..fieldIndex]
    {
      memberNames := memberNames + [ctx.fieldNames[fieldIndex]];
    }
    assert ctx.fieldNames[..|ctx.fieldTypes|] == ctx.fieldNames;
    var structType := Struct(ctx.name, ctx.fieldTypes, memberNames, ctx.isInterfaceBlock);
    id := CreateVariable(b, params, ctx.name, ctx.regType, 1, structType);
    ctx.Clear();
  }

  method CreateParamSampler(b: Builder, params: ShaderParameters, p: Parameter) returns (id: SpvId)
    requires params.Valid()
    modifies b, params.ins, params.uniforms, params.outs, params.temps, params.internals
    ensures params.Valid()
    ensures (Recomp(b.Value(), params.Value()), id)
            == CreateParamSamplerSpec(Recomp(old(b.Value()), old(params.Value())), p)
  {
    var sampledImageType := SampledImage2D(Float(32));
    id := CreateVariable(b, params, p.rawName, SecAttr, 2, sampledImageType);
  }

  /** The output variable of flag bit vo. */
  method CreateVertexOutput(b: Builder, params: ShaderParameters, vo: nat)
    requires params.Valid() && vo < |VertexOutputTable|
    modifies b, params.ins, params.uniforms, params.outs, params.temps, params.internals
    ensures params.Valid()
    ensures Recomp(b.Value(), params.Value()) == VertexOutputStep(Recomp(old(b.Value()), old(params.Value())), vo)
  {
    ghost var before := Recomp(b.Value(), params.Value());
    var (name, componentCount) := VertexOutputTable[vo];
    var outType := Vector(Float(32), componentCount);
    var outVar := CreateVariable(b, params, name, Output, componentCount, outType);
    ghost var created := CreateVariableSpec(before, name, Output, componentCount, outType);
    assert created.0 == Recomp(b.Value(), params.Value()) && created.1 == outVar;
    if vo == 0 {
      b.AddDecoration(BuiltInPosition(outVar));
    }
  }

  /** One turn of the vertex output loop: output vo when its flag bit is set. */
  method CreateVertexOutputIfSet(b: Builder, params: ShaderParameters, vertexOutputs: bv32, vo: nat,
                                 ghost start: Recomp)
    requires params.Valid() && vo < |VertexOutputTable|
    requires Recomp(b.Value(), params.Value()) == VertexOutputsSpec(start, vertexOutputs, vo)
    modifies b, params.ins, params.uniforms, params.outs, params.temps, params.internals
    ensures params.Valid()
    ensures Recomp(b.Value(), params.Value()) == VertexOutputsSpec(start, vertexOutputs, vo + 1)
  {
    if vertexOutputs & ((1 as bv32) << vo) != 0 {
      CreateVertexOutput(b, params, vo);
    }
  }

  method CreateVertexOutputs(b: Builder, params: ShaderParameters, vertexOutputs: bv32)
    requires params.Valid()
    modifies b, params.ins, params.uniforms, params.outs, params.temps, params.internals
    ensures params.Valid()
    ensures Recomp(b.Value(), params.Value())
            == VertexOutputsSpec(Recomp(old(b.Value()), old(params.Value())), vertexOutputs, |VertexOutputTable|)
  {
    ghost var start := Recomp(b.Value(), params.Value());
    for vo := 0 to |VertexOutputTable|
      invariant params.Valid()
      invariant Recomp(b.Value(), params.Value()) == VertexOutputsSpec(start, vertexOutputs, vo)
    {
      CreateVertexOutputIfSet(b, params, vertexOutputs, vo, start);
    }
  }

  method CreateFragmentInputs(b: Builder, params: ShaderParameters, fragmentInputs: bv32)
    requires params.Valid()
    modifies b, params.ins, params.uniforms, params.outs, params.temps, params.internals
    ensures params.Valid()
    ensures Recomp(b.Value(), params.Value())
            == FragmentInputsSpec(Recomp(old(b.Value()), old(params.Value())), fragmentInputs, |FragmentInputTable|)
  {
    ghost var start := Recomp(b.Value(), params.Value());
    for fi := 0 to |FragmentInputTable|
      invariant params.Valid()
      invariant Recomp(b.Value(), params.Value()) == FragmentInputsSpec(start, fragmentInputs, fi)
    {
      if fragmentInputs & ((1 as bv32) << fi) != 0 {
        var (name, componentCount) := FragmentInputTable[fi];
        var inType := Vector(Float(32), componentCount);
        var inVar := CreateVariable(b, params, name, PrimAttr, componentCount, inType);
      }
    }
  }

  method CreateFragmentOutput(b: Builder, params: ShaderParameters)
    requires params.Valid()
    modifies b, params.ins, params.uniforms, params.outs, params.temps, params.internals
    ensures params.Valid()
    ensures Recomp(b.Value(), params.Value())
            == FragmentOutputSpec(Recomp(old(b.Value()), old(params.Value())))
  {
    var fragColorType := Vector(Float(32), 4);
    var fragColorVar := CreateVariable(b, params, "out_color", Output, 4, fragColorType);
    b.AddDecoration(Location(fragColorVar, 0));
    params.DistinctBanks();
    params.outs.Push(SpirvVar(fragColorType, fragColorVar), 4);
  }

  /** The variable of element p of an attribute or uniform, after those of
      elements 0 .. p - 1: named after the parameter alone when it is not an
      array, else with the index appended. */
  method CreateElement(b: Builder, params: ShaderParameters, varName: string, regType: RegisterBank,
                       componentCount: nat, ty: SpvType, arraySize: nat, p: nat,
                       ghost names: seq<string>, ghost before: Recomp)
    requires params.Valid() && p < arraySize && names == ElementNames(varName, arraySize, arraySize)
    requires Recomp(b.Value(), params.Value()) == CreateVariablesSpec(before, names, regType, componentCount, ty, p)
    modifies b, params.ins, params.uniforms, params.outs, params.temps, params.internals
    ensures params.Valid()
    ensures Recomp(b.Value(), params.Value()) == CreateVariablesSpec(before, names, regType, componentCount, ty, p + 1)
  {
    var varElemName: string;
    if arraySize == 1 {
      varElemName := varName;
    } else {
      varElemName := varName + "_" + DecimalString(p);
    }
    ElementNameAt(varName, arraySize, arraySize, p);
    var _ := CreateVariable(b, params, varElemName, regType, componentCount, ty);
  }

  /** The variables of one attribute or uniform, one per array element. */
  method CreateElements(b: Builder, params: ShaderParameters, varName: string, regType: RegisterBank,
                        componentCount: nat, ty: SpvType, arraySize: nat)
    requires params.Valid()
    modifies b, params.ins, params.uniforms, params.outs, params.temps, params.internals
    ensures params.Valid()
    ensures Recomp(b.Value(), params.Value())
            == CreateElementsSpec(old(Recomp(b.Value(), params.Value())), varName, regType, componentCount,
                                  ty, arraySize)
  {
    ghost var before := Recomp(b.Value(), params.Value());
    ghost var names := ElementNames(varName, arraySize, arraySize);
    for p := 0 to arraySize
      invariant params.Valid()
      invariant Recomp(b.Value(), params.Value()) == CreateVariablesSpec(before, names, regType, componentCount, ty, p)
    {
      CreateElement(b, params, varName, regType, componentCount, ty, arraySize, p, names, before);
    }
  }

  /** A uniform or an attribute after the flush: a field of an interface block is
      collected into the open struct; any other parameter gets a variable per
      array element. */
  method AddAttribute(b: Builder, params: ShaderParameters, ctx: StructDeclContext,
                      parameter: Parameter, programType: ProgramType, paramRegType: RegisterBank)
    requires params.Valid()
    requires WellFormedParameter(parameter) && DeclInvariant(ctx.Value())
    modifies b, params.ins, params.uniforms, params.outs, params.temps, params.internals, ctx
    ensures params.Valid() && DeclInvariant(ctx.Value())
    ensures ScanState(Recomp(b.Value(), params.Value()), ctx.Value())
            == AttributeAdd(old(ScanState(Recomp(b.Value(), params.Value()), ctx.Value())), parameter,
                            programType, paramRegType)
  {
    ghost var s1 := ScanState(Recomp(b.Value(), params.Value()), ctx.Value());
    var structName := parameter.structName;
    var isStructField := structName != "";
    var paramType := GetParamType(parameter);
    var isUniform := paramRegType == SecAttr;
    var isVertexOutput := paramRegType == Output && programType == Vertex;
    var isFragmentInput := paramRegType == PrimAttr && programType == Fragment;
    var canBeInterfaceBlock := isVertexOutput || isFragmentInput;
    var canBeStruct := canBeInterfaceBlock;
    if isStructField && canBeStruct {
      ctx.name := structName;
      ctx.fieldTypes := ctx.fieldTypes + [paramType];
      ctx.fieldNames := ctx.fieldNames + [parameter.name];
      ctx.regType := paramRegType;
      ctx.isInterfaceBlock := canBeInterfaceBlock;
    } else {
      var varName: string;
      if isUniform {
        varName := parameter.name;
      } else {
        varName := parameter.rawName;
        if isStructField {
          varName := ReplaceDots(varName);
        }
      }
      assert varName == VariableBaseName(parameter, paramRegType);
      CreateElements(b, params, varName, paramRegType, parameter.componentCount, paramType, parameter.arraySize);
    }
  }

  /** A uniform or an attribute: the open struct is flushed when this parameter
      ends it, then the parameter is added. */
  method ScanAttribute(b: Builder, params: ShaderParameters, ctx: StructDeclContext,
                       parameter: Parameter, programType: ProgramType, paramRegType: RegisterBank)
    requires params.Valid()
    requires WellFormedParameter(parameter) && DeclInvariant(ctx.Value())
    modifies b, params.ins, params.uniforms, params.outs, params.temps, params.internals, ctx
    ensures params.Valid() && DeclInvariant(ctx.Value())
    ensures ScanState(Recomp(b.Value(), params.Value()), ctx.Value())
            == AttributeStep(old(ScanState(Recomp(b.Value(), params.Value()), ctx.Value())), parameter,
                             programType, paramRegType)
  {
    ghost var s0 := ScanState(Recomp(b.Value(), params.Value()), ctx.Value());
    var structName := parameter.structName;
    var isStructField := structName != "";
    var structDeclEnded := (!isStructField && !ctx.Empty())
                           || (isStructField && !ctx.Empty() && ctx.name != structName);
    if structDeclEnded {
      var _ := CreateStruct(b, params, ctx);
    }
    assert ScanState(Recomp(b.Value(), params.Value()), ctx.Value()) == AttributeFlush(s0, parameter);
    AddAttribute(b, params, ctx, parameter, programType, paramRegType);
  }

  /** One iteration of create_parameters' loop over the parameter table. */
  method ScanParameter(b: Builder, params: ShaderParameters, ctx: StructDeclContext,
                       parameter: Parameter, programType: ProgramType)
    requires params.Valid()
    requires WellFormedParameter(parameter) && DeclInvariant(ctx.Value())
    modifies b, params.ins, params.uniforms, params.outs, params.temps, params.internals, ctx
    ensures params.Valid() && DeclInvariant(ctx.Value())
    ensures ScanState(Recomp(b.Value(), params.Value()), ctx.Value())
            == ParamStep(old(ScanState(Recomp(b.Value(), params.Value()), ctx.Value())), parameter, programType)
  {
    if parameter.category == Uniform || parameter.category == Attribute {
      var paramRegType := if parameter.category == Uniform then SecAttr else PrimAttr;
      ScanAttribute(b, params, ctx, parameter, programType, paramRegType);
    } else if parameter.category == Sampler {
      var _ := CreateParamSampler(b, params, parameter);
    } else {
      // auxiliary surfaces, uniform buffers and unknown categories are logged and skipped
    }
  }

  /** The primary-attribute patch for fragment programs without native colour. */
  method PatchColorAttributes(b: Builder, params: ShaderParameters, program: Program)
    requires params.Valid()
    modifies b, params.ins, params.uniforms, params.outs, params.temps, params.internals
    ensures params.Valid()
    ensures Recomp(b.Value(), params.Value()) == ColorPatchSpec(old(Recomp(b.Value(), params.Value())), program)
  {
    if program.programType == Fragment && !program.nativeColor {
      ghost var before := Recomp(b.Value(), params.Value());
      var insSize := params.ins.Size();
      var missingPrimaryAttrs := (program.primaryRegCount - insSize) % SizeTModulus;
      assert missingPrimaryAttrs == PrimaryShortfall(program.primaryRegCount, SumSizes(before.banks.ins));
      if missingPrimaryAttrs > 2 {
        // logged as an error
      } else if missingPrimaryAttrs > 0 {
        var size := missingPrimaryAttrs * 2;
        var paType := Vector(Float(32), size);
        var _ := CreateVariable(b, params, "pa0_blend", PrimAttr, size, paType);
      }
    }
  }

  /** The stage-fixed inputs and outputs of create_parameters. */
  method CreateStageIo(b: Builder, params: ShaderParameters, program: Program)
    requires params.Valid()
    modifies b, params.ins, params.uniforms, params.outs, params.temps, params.internals
    ensures params.Valid()
    ensures Recomp(b.Value(), params.Value()) == StageIoSpec(old(Recomp(b.Value(), params.Value())), program)
  {
    if program.programType == Vertex {
      CreateVertexOutputs(b, params, program.vertexOutputs);
    } else {
      CreateFragmentInputs(b, params, program.fragmentInputs);
      CreateFragmentOutput(b, params);
    }
  }

  /** The temporaries r0 .. r(count-1) of create_parameters. */
  method CreateTemps(b: Builder, params: ShaderParameters, count: nat)
    requires params.Valid()
    modifies b, params.ins, params.uniforms, params.outs, params.temps, params.internals
    ensures params.Valid()
    ensures Recomp(b.Value(), params.Value()) == TempsSpec(old(Recomp(b.Value(), params.Value())), count)
  {
    ghost var start := Recomp(b.Value(), params.Value());
    for i := 0 to count
      invariant params.Valid()
      invariant Recomp(b.Value(), params.Value()) == TempsSpec(start, i)
    {
      var name := "r" + DecimalString(i);
      var ty := Vector(Float(32), 4);
      var _ := CreateVariable(b, params, name, Temp, 4, ty);
    }
  }

  /** The internal registers i0 .. i2 of create_parameters. */
  method CreateInternals(b: Builder, params: ShaderParameters)
    requires params.Valid()
    modifies b, params.ins, params.uniforms, params.outs, params.temps, params.internals
    ensures params.Valid()
    ensures Recomp(b.Value(), params.Value()) == InternalsSpec(old(Recomp(b.Value(), params.Value())), InternalRegCount)
  {
    ghost var start := Recomp(b.Value(), params.Value());
    for i := 0 to InternalRegCount
      invariant params.Valid()
      invariant Recomp(b.Value(), params.Value()) == InternalsSpec(start, i)
    {
      var name := "i" + DecimalString(i);
      var ty := Vector(Float(32), 4);
      var _ := CreateVariable(b, params, name, FpInternal, 16, ty);
    }
  }

  /** create_parameters' loop over the parameter table. */
  method ScanParameters(b: Builder, params: ShaderParameters, ctx: StructDeclContext,
                        ps: seq<Parameter>, programType: ProgramType)
    requires params.Valid() && DeclInvariant(ctx.Value())
    requires forall i :: 0 <= i < |ps| ==> WellFormedParameter(ps[i])
    modifies b, params.ins, params.uniforms, params.outs, params.temps, params.internals, ctx
    ensures params.Valid() && DeclInvariant(ctx.Value())
    ensures ScanState(Recomp(b.Value(), params.Value()), ctx.Value())
            == Scan(old(ScanState(Recomp(b.Value(), params.Value()), ctx.Value())), ps, programType)
  {
    ghost var start := ScanState(Recomp(b.Value(), params.Value()), ctx.Value());
    for i := 0 to |ps|
      invariant params.Valid() && DeclInvariant(ctx.Value())
      invariant ScanState(Recomp(b.Value(), params.Value()), ctx.Value()) == Scan(start, ps[..i], programType)
    {
      assert ps[..i + 1][..i] == ps[..i];
      ScanParameter(b, params, ctx, ps[i], programType);
    }
    assert ps[..|ps|] == ps;
  }

  method CreateParameters(b: Builder, program: Program) returns (params: ShaderParameters)
    requires WellFormedProgram(program)
    modifies b
    ensures params.Valid()
    ensures fresh(params.ins) && fresh(params.uniforms) && fresh(params.temps)
    ensures fresh(params.internals) && fresh(params.outs) && fresh(params.structs)
    ensures Recomp(b.Value(), params.Value()) == CreateParametersSpec(old(b.Value()), program)
  {
    params := new ShaderParameters();
    var ctx := new StructDeclContext();
    assert ScanState(Recomp(b.Value(), params.Value()), ctx.Value()) == ScanState(Recomp(old(b.Value()), EmptyBanks), EmptyDecl);
    ScanParameters(b, params, ctx, program.parameters, program.programType);
    ghost var scanned := ScanState(Recomp(b.Value(), params.Value()), ctx.Value());

    // declarations that ended with a struct
    if !ctx.Empty() {
      var _ := CreateStruct(b, params, ctx);
    }

    ghost var flushed := Recomp(b.Value(), params.Value());
    assert flushed == FlushSpec(scanned).recomp;
    CreateStageIo(b, params, program);
    CreateTemps(b, params, program.tempRegCount1);
    CreateInternals(b, params);
    PatchColorAttributes(b, params, program);
  }
}
