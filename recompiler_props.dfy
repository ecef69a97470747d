/**
  What create_parameters builds, proved about the step functions of
  RecompilerSpec: which bank each variable lands in, how many bindings of
  which size each step adds, which names and decorations it emits, and when
  the open struct is flushed.
*/
module RecompilerProps {
  import opened Optional
  import opened Spirv
  import opened Types
  import opened Decimal
  import opened RecompilerHelpers
  import opened RecompilerSpec

  /** The banks that have a variable group, other than g. */
  predicate OtherGroup(g: RegisterBank, bank: RegisterBank)
  {
    HasStorage(g) && g != bank
  }

  // ---------------------------------------------------- create_variable

  /** create_variable declares one variable, with the sanitized name, after the
      ones already declared. */
  lemma CreateVariableDeclares(r: Recomp, name: string, bank: RegisterBank, size: nat, ty: SpvType)
    ensures CreateVariableSpec(r, name, bank, size, ty).0.spv.variables
            == r.spv.variables + [VarDecl(RegTypeToStorageClass(bank), ty, Sanitized(name))]
    ensures CreateVariableSpec(r, name, bank, size, ty).0.spv.decorations == r.spv.decorations
  {
  }

  /** For a bank with a variable group, create_variable returns the new variable
      and binds it in that group right after the existing bindings; every other
      group is left as it was. */
  lemma CreateVariableBinds(r: Recomp, name: string, bank: RegisterBank, size: nat, ty: SpvType)
    requires HasStorage(bank)
    ensures CreateVariableSpec(r, name, bank, size, ty).1 == |r.spv.variables| + 1
    ensures Group(CreateVariableSpec(r, name, bank, size, ty).0.banks, bank)
            == PushReg(Group(r.banks, bank), SpirvVar(ty, |r.spv.variables| + 1), size)
  {
  }

  /** create_variable leaves every other group, and the struct bindings, as they were. */
  lemma CreateVariableKeepsOthers(r: Recomp, name: string, bank: RegisterBank, size: nat, ty: SpvType, g: RegisterBank)
    requires OtherGroup(g, bank)
    ensures Group(CreateVariableSpec(r, name, bank, size, ty).0.banks, g) == Group(r.banks, g)
    ensures CreateVariableSpec(r, name, bank, size, ty).0.banks.structs == r.banks.structs
  {
  }

  /** For any other bank, create_variable declares the variable but binds it
      nowhere and returns NoResult. */
  lemma CreateVariableUnbound(r: Recomp, name: string, bank: RegisterBank, size: nat, ty: SpvType)
    requires !HasStorage(bank)
    ensures CreateVariableSpec(r, name, bank, size, ty).1 == NoResult
    ensures CreateVariableSpec(r, name, bank, size, ty).0.banks == r.banks
  {
  }

  /** A binding keeps the bank contiguous and grows it by the size asked for. */
  lemma CreateVariableContiguous(r: Recomp, name: string, bank: RegisterBank, size: nat, ty: SpvType)
    requires AllContiguous(r.banks)
    ensures AllContiguous(CreateVariableSpec(r, name, bank, size, ty).0.banks)
    ensures HasStorage(bank) ==>
              SumSizes(Group(CreateVariableSpec(r, name, bank, size, ty).0.banks, bank))
              == SumSizes(Group(r.banks, bank)) + size
  {
    if HasStorage(bank) {
      var (r1, id) := CreateVariableSpec(r, name, bank, size, ty);
      PushRegContiguous(Group(r.banks, bank), SpirvVar(ty, id), size);
    }
  }

  // ----------------------------------------------------- array elements

  /** The k-th element of an array parameter is named base_k; a parameter that is
      not an array keeps its base name. Element names never repeat. */
  lemma ElementNamesDistinct(base: string, arraySize: nat, i: nat, j: nat)
    requires arraySize != 1 && i != j
    ensures ElementName(base, arraySize, i) != ElementName(base, arraySize, j)
  {
    var a := ElementName(base, arraySize, i);
    var b := ElementName(base, arraySize, j);
    if a == b {
      assert a[|base| + 1..] == DecimalString(i);
      assert b[|base| + 1..] == DecimalString(j);
      DecimalStringInjective(i, j);
    }
  }

  /** Element names stay distinct once sanitised: only the shared base_ prefix
      can lose underscores, and the decimal suffixes differ. */
  lemma SanitizedElementNamesDistinct(base: string, arraySize: nat, i: nat, j: nat)
    requires arraySize != 1 && i != j
    ensures Sanitized(ElementName(base, arraySize, i)) != Sanitized(ElementName(base, arraySize, j))
  {
    var p := base + "_";
    var di := DecimalString(i);
    var dj := DecimalString(j);
    SanitizedAppendNoUnderscore(p, di);
    SanitizedAppendNoUnderscore(p, dj);
    var q := Sanitized(p);
    if q + di == q + dj {
      assert (q + di)[|q|..] == di;
      assert (q + dj)[|q|..] == dj;
      DecimalStringInjective(i, j);
    }
  }

  lemma AppendAssoc<T>(a: seq<T>, b: seq<T>, c: seq<T>)
    ensures (a + b) + c == a + (b + c)
  {
  }

  /** The total size of two lists of bindings one after the other. */
  lemma {:induction false} SumSizesConcat(a: seq<SpirvReg>, b: seq<SpirvReg>)
    ensures SumSizes(a + b) == SumSizes(a) + SumSizes(b)
  {
    if b != [] {
      var init := b[..|b| - 1];
      SumSizesConcat(a, init);
      assert a + b == (a + init) + [b[|b| - 1]];
      SumSizesAppend(a + init, b[|b| - 1]);
      assert SumSizes(b) == SumSizes(init) + b[|b| - 1].size;
      assert SumSizes(a + b) == SumSizes(a + init) + b[|b| - 1].size;
    } else {
      assert a + b == a;
    }
  }

  /** The bindings of the first k elements of an array parameter: consecutive
      variables from firstId, count components each, packed from offset on. */
  function ElementRegs(ty: SpvType, firstId: nat, offset: nat, count: nat, k: nat): (r: seq<SpirvReg>)
    ensures |r| == k
  {
    if k == 0 then []
    else
      var prev := ElementRegs(ty, firstId, offset, count, k - 1);
      prev + [SpirvReg(ty, firstId + k - 1, offset + SumSizes(prev), count)]
  }

  lemma MulPred(k: nat, count: nat)
    requires k > 0
    ensures k * count == (k - 1) * count + count
  {
  }

  /** The elements' bindings add up to k * count components. */
  lemma {:induction false} ElementRegsSize(ty: SpvType, firstId: nat, offset: nat, count: nat, k: nat)
    ensures SumSizes(ElementRegs(ty, firstId, offset, count, k)) == k * count
  {
    if k > 0 {
      var prev := ElementRegs(ty, firstId, offset, count, k - 1);
      ElementRegsSize(ty, firstId, offset, count, k - 1);
      SumSizesAppend(prev, SpirvReg(ty, firstId + k - 1, offset + SumSizes(prev), count));
      MulPred(k, count);
    }
  }

  /** Element j is the variable firstId + j, bound to components
      [offset + j * count, offset + (j + 1) * count). */
  lemma {:induction false} ElementRegAt(ty: SpvType, firstId: nat, offset: nat, count: nat, k: nat, j: nat)
    requires j < k
    ensures ElementRegs(ty, firstId, offset, count, k)[j] == SpirvReg(ty, firstId + j, offset + j * count, count)
  {
    if j < k - 1 {
      ElementRegAt(ty, firstId, offset, count, k - 1, j);
    } else {
      ElementRegsSize(ty, firstId, offset, count, k - 1);
    }
  }

  /** Pushing the next element after the first k - 1 gives the first k. */
  lemma PushElement(g0: seq<SpirvReg>, ty: SpvType, firstId: nat, count: nat, k: nat)
    requires k > 0
    ensures PushReg(g0 + ElementRegs(ty, firstId, SumSizes(g0), count, k - 1), SpirvVar(ty, firstId + k - 1), count)
            == g0 + ElementRegs(ty, firstId, SumSizes(g0), count, k)
  {
    var regs := ElementRegs(ty, firstId, SumSizes(g0), count, k - 1);
    SumSizesConcat(g0, regs);
    var last := SpirvReg(ty, firstId + k - 1, SumSizes(g0) + SumSizes(regs), count);
    assert (g0 + regs) + [last] == g0 + (regs + [last]);
  }

  /** A bank's bindings after variables firstId .. firstId + k - 1, each of the
      same type and size, have been pushed onto g0 in turn. */
  function PushedRegs(g0: seq<SpirvReg>, ty: SpvType, firstId: nat, count: nat, k: nat): seq<SpirvReg>
  {
    if k == 0 then g0 else PushReg(PushedRegs(g0, ty, firstId, count, k - 1), SpirvVar(ty, firstId + k - 1), count)
  }

  /** Pushing k variables appends their bindings, packed one after the other. */
  lemma {:induction false} PushedRegsLayout(g0: seq<SpirvReg>, ty: SpvType, firstId: nat, count: nat, k: nat)
    ensures PushedRegs(g0, ty, firstId, count, k) == g0 + ElementRegs(ty, firstId, SumSizes(g0), count, k)
  {
    if k > 0 {
      assert PushedRegs(g0, ty, firstId, count, k - 1) == g0 + ElementRegs(ty, firstId, SumSizes(g0), count, k - 1) by {
        PushedRegsLayout(g0, ty, firstId, count, k - 1);
      }
      PushElement(g0, ty, firstId, count, k);
    }
  }

  /** One more variable, whatever its name, pushes one more binding. */
  lemma PushNextVariable(prev: Recomp, next: Recomp, name: string, bank: RegisterBank, count: nat, ty: SpvType,
                         g0: seq<SpirvReg>, firstId: nat, k: nat)
    requires HasStorage(bank) && k > 0 && firstId + k - 1 == |prev.spv.variables| + 1
    requires Group(prev.banks, bank) == PushedRegs(g0, ty, firstId, count, k - 1)
    requires next == CreateVariableSpec(prev, name, bank, count, ty).0
    ensures Group(next.banks, bank) == PushedRegs(g0, ty, firstId, count, k)
  {
    CreateVariableBinds(prev, name, bank, count, ty);
  }

  /** The variables created for the first k names are pushed, in name order,
      onto the bindings already in the bank, as the variables numbered from
      firstId, the first one not yet declared. */
  /** The state after the variables for the first k names, under a name that is
      not recursive: the lemmas by induction below state their hypotheses
      through it, so that hypothesis and goal are the very same terms. */
  function VariablesAfter(r: Recomp, names: seq<string>, bank: RegisterBank, count: nat, ty: SpvType, k: nat): Recomp
    requires k <= |names|
  {
    CreateVariablesSpec(r, names, bank, count, ty, k)
  }

  /** One more name declares one more variable. */
  lemma CreateVariablesCountStep(r: Recomp, names: seq<string>, bank: RegisterBank, count: nat, ty: SpvType, k: nat)
    requires 0 < k <= |names|
    requires |VariablesAfter(r, names, bank, count, ty, k - 1).spv.variables| == |r.spv.variables| + (k - 1)
    ensures |VariablesAfter(r, names, bank, count, ty, k).spv.variables| == |r.spv.variables| + k
  {
    CreateVariableDeclares(CreateVariablesSpec(r, names, bank, count, ty, k - 1), names[k - 1], bank, count, ty);
  }

  /** One more name pushes one more binding, for the next variable. */
  lemma CreateVariablesPushStep(r: Recomp, names: seq<string>, bank: RegisterBank, count: nat,
                                ty: SpvType, k: nat, firstId: nat, g0: seq<SpirvReg>)
    requires 0 < k <= |names| && HasStorage(bank) && firstId == |r.spv.variables| + 1
    requires |VariablesAfter(r, names, bank, count, ty, k - 1).spv.variables| == |r.spv.variables| + (k - 1)
    requires Group(VariablesAfter(r, names, bank, count, ty, k - 1).banks, bank) == PushedRegs(g0, ty, firstId, count, k - 1)
    ensures Group(VariablesAfter(r, names, bank, count, ty, k).banks, bank) == PushedRegs(g0, ty, firstId, count, k)
  {
    PushNextVariable(CreateVariablesSpec(r, names, bank, count, ty, k - 1), CreateVariablesSpec(r, names, bank, count, ty, k),
                     names[k - 1], bank, count, ty, g0, firstId, k);
  }

  /** Creating a variable for each of the first k names declares k variables and
      pushes their bindings, in name order, onto those already in the bank, as
      the variables numbered from firstId, the first one not yet declared. */
  lemma {:induction false} CreateVariablesPushes(r: Recomp, names: seq<string>, bank: RegisterBank, count: nat,
                                                 ty: SpvType, k: nat, firstId: nat, g0: seq<SpirvReg>)
    requires k <= |names| && HasStorage(bank) && firstId == |r.spv.variables| + 1 && g0 == Group(r.banks, bank)
    ensures |VariablesAfter(r, names, bank, count, ty, k).spv.variables| == |r.spv.variables| + k
    ensures Group(VariablesAfter(r, names, bank, count, ty, k).banks, bank) == PushedRegs(g0, ty, firstId, count, k)
  {
    if k > 0 {
      CreateVariablesPushes(r, names, bank, count, ty, k - 1, firstId, g0);
      CreateVariablesCountStep(r, names, bank, count, ty, k);
      CreateVariablesPushStep(r, names, bank, count, ty, k, firstId, g0);
    }
  }

  /** Hence they are bound right after the bindings already in the bank,
      packed in name order. */
  lemma CreateVariablesBindings(r: Recomp, names: seq<string>, bank: RegisterBank, count: nat,
                                ty: SpvType, k: nat, firstId: nat, g0: seq<SpirvReg>)
    requires k <= |names| && HasStorage(bank) && firstId == |r.spv.variables| + 1 && g0 == Group(r.banks, bank)
    ensures Group(CreateVariablesSpec(r, names, bank, count, ty, k).banks, bank)
            == g0 + ElementRegs(ty, firstId, SumSizes(g0), count, k)
  {
    CreateVariablesPushes(r, names, bank, count, ty, k, firstId, g0);
    PushedRegsLayout(g0, ty, firstId, count, k);
  }

  /** The variables created for the first k names leave the other banks as they were. */
  lemma {:induction false} CreateVariablesKeepsOthers(r: Recomp, names: seq<string>, bank: RegisterBank, count: nat,
                                                      ty: SpvType, k: nat, g: RegisterBank)
    requires k <= |names| && OtherGroup(g, bank)
    ensures Group(CreateVariablesSpec(r, names, bank, count, ty, k).banks, g) == Group(r.banks, g)
    ensures CreateVariablesSpec(r, names, bank, count, ty, k).banks.structs == r.banks.structs
  {
    if k > 0 {
      CreateVariablesKeepsOthers(r, names, bank, count, ty, k - 1, g);
      CreateVariableKeepsOthers(CreateVariablesSpec(r, names, bank, count, ty, k - 1), names[k - 1], bank, count, ty, g);
    }
  }

  /** The declarations of the variables created for the first k names: each of
      the bank's storage class, the type given and the sanitized name. */
  function VariableDecls(bank: RegisterBank, ty: SpvType, names: seq<string>, k: nat): (r: seq<VarDecl>)
    requires k <= |names|
    ensures |r| == k
  {
    if k == 0 then []
    else VariableDecls(bank, ty, names, k - 1) + [VarDecl(RegTypeToStorageClass(bank), ty, Sanitized(names[k - 1]))]
  }

  /** Declaration j is that of the variable for name j. */
  lemma {:induction false} VariableDeclAt(bank: RegisterBank, ty: SpvType, names: seq<string>, k: nat, j: nat)
    requires j < k <= |names|
    ensures VariableDecls(bank, ty, names, k)[j] == VarDecl(RegTypeToStorageClass(bank), ty, Sanitized(names[j]))
  {
    if j < k - 1 {
      VariableDeclAt(bank, ty, names, k - 1, j);
    }
  }

  /** One more name declares one more variable, after the others. */
  lemma CreateVariablesDeclareStep(r: Recomp, names: seq<string>, bank: RegisterBank, count: nat,
                                   ty: SpvType, k: nat)
    requires 0 < k <= |names|
    requires VariablesAfter(r, names, bank, count, ty, k - 1).spv.variables
             == r.spv.variables + VariableDecls(bank, ty, names, k - 1)
    requires VariablesAfter(r, names, bank, count, ty, k - 1).spv.decorations == r.spv.decorations
    ensures VariablesAfter(r, names, bank, count, ty, k).spv.variables
            == r.spv.variables + VariableDecls(bank, ty, names, k)
    ensures VariablesAfter(r, names, bank, count, ty, k).spv.decorations == r.spv.decorations
  {
    var prev := CreateVariablesSpec(r, names, bank, count, ty, k - 1);
    var decls := VariableDecls(bank, ty, names, k - 1);
    var name := names[k - 1];
    var decl := VarDecl(RegTypeToStorageClass(bank), ty, Sanitized(name));
    var next := CreateVariableSpec(prev, name, bank, count, ty).0;
    assert next.spv.variables == prev.spv.variables + [decl] && next.spv.decorations == prev.spv.decorations by {
      CreateVariableDeclares(prev, name, bank, count, ty);
    }
    AppendAssoc(r.spv.variables, decls, [decl]);
  }

  /** The variables created for the first k names are declared in name order,
      after the ones already declared, and add no decoration. */
  lemma {:induction false} CreateVariablesDeclares(r: Recomp, names: seq<string>, bank: RegisterBank, count: nat,
                                                   ty: SpvType, k: nat)
    requires k <= |names|
    ensures VariablesAfter(r, names, bank, count, ty, k).spv.variables
            == r.spv.variables + VariableDecls(bank, ty, names, k)
    ensures VariablesAfter(r, names, bank, count, ty, k).spv.decorations == r.spv.decorations
  {
    if k > 0 {
      CreateVariablesDeclares(r, names, bank, count, ty, k - 1);
      CreateVariablesDeclareStep(r, names, bank, count, ty, k);
    }
  }

  /** For a bank without a variable group, the variables are declared but bound nowhere. */
  lemma {:induction false} CreateVariablesUnbound(r: Recomp, names: seq<string>, bank: RegisterBank, count: nat,
                                                  ty: SpvType, k: nat)
    requires k <= |names| && !HasStorage(bank)
    ensures CreateVariablesSpec(r, names, bank, count, ty, k).banks == r.banks
  {
    if k > 0 {
      CreateVariablesUnbound(r, names, bank, count, ty, k - 1);
      CreateVariableUnbound(CreateVariablesSpec(r, names, bank, count, ty, k - 1), names[k - 1], bank, count, ty);
    }
  }

  /** An array parameter declares one variable per element, in element order,
      each bound after the bank's bindings so far as the next variable with
      count components, and nothing changes in the other banks. */
  lemma CreateElementsLayout(r: Recomp, base: string, bank: RegisterBank, count: nat, ty: SpvType,
                             arraySize: nat)
    requires HasStorage(bank)
    ensures var r1 := CreateElementsSpec(r, base, bank, count, ty, arraySize);
            var names := ElementNames(base, arraySize, arraySize);
            && r1.spv.variables == r.spv.variables + VariableDecls(bank, ty, names, arraySize)
            && Group(r1.banks, bank)
               == Group(r.banks, bank) + ElementRegs(ty, |r.spv.variables| + 1, SumSizes(Group(r.banks, bank)), count, arraySize)
            && forall g :: OtherGroup(g, bank) ==> Group(r1.banks, g) == Group(r.banks, g)
  {
    var names := ElementNames(base, arraySize, arraySize);
    CreateVariablesDeclares(r, names, bank, count, ty, arraySize);
    CreateVariablesBindings(r, names, bank, count, ty, arraySize, |r.spv.variables| + 1, Group(r.banks, bank));
    forall g | OtherGroup(g, bank)
      ensures Group(CreateVariablesSpec(r, names, bank, count, ty, arraySize).banks, g) == Group(r.banks, g)
    {
      CreateVariablesKeepsOthers(r, names, bank, count, ty, arraySize, g);
    }
  }

  // ------------------------------------------------------------ samplers

  /** A sampler is one 2-unit binding in the uniforms, whatever its array size or
      component count, for a variable of the sampled-image type named by the
      parameter's raw name. */
  lemma SamplerBinding(r: Recomp, p: Parameter)
    ensures var (r1, id) := CreateParamSamplerSpec(r, p);
            id == |r.spv.variables| + 1
            && r1.banks.uniforms == r.banks.uniforms + [SpirvReg(SamplerType, id, SumSizes(r.banks.uniforms), 2)]
            && r1.banks.(uniforms := r.banks.uniforms) == r.banks
            && r1.spv.variables == r.spv.variables + [VarDecl(StorageClassUniformConstant, SamplerType, Sanitized(p.rawName))]
  {
    CreateVariableDeclares(r, p.rawName, SecAttr, 2, SamplerType);
    CreateVariableBinds(r, p.rawName, SecAttr, 2, SamplerType);
  }

  // ---------------------------------------------------------- the scan

  /** Auxiliary surfaces, uniform buffers and unknown categories change nothing. */
  lemma SkippedCategories(s: ScanState, p: Parameter, pt: ProgramType)
    requires WellFormedParameter(p) && DeclInvariant(s.decl)
    requires p.category !in {Attribute, Uniform, Sampler}
    ensures ParamStep(s, p, pt) == s
  {
  }

  /** A parameter outside the open struct sees the struct flushed first. */
  lemma FlushBeforeClosingParameter(s: ScanState, p: Parameter, pt: ProgramType)
    requires WellFormedParameter(p) && DeclInvariant(s.decl)
    requires p.category in {Attribute, Uniform} && StructDeclEnded(s.decl, p.structName)
    ensures ParamStep(s, p, pt) == ParamStep(FlushSpec(s), p, pt)
  {
    assert !StructDeclEnded(FlushSpec(s).decl, p.structName);
  }

  /** A flush declares one variable of the struct type, named after the struct,
      and binds it with size 1 in the struct's bank; with no open struct it does nothing. */
  lemma FlushDeclaresStruct(s: ScanState)
    requires DeclInvariant(s.decl)
    ensures s.decl.name == "" ==> FlushSpec(s) == s
    ensures s.decl.name != "" ==>
              var d := s.decl;
              var r1 := FlushSpec(s).recomp;
              var id := |s.recomp.spv.variables| + 1;
              r1.spv.variables
              == s.recomp.spv.variables
                 + [VarDecl(RegTypeToStorageClass(d.regType),
                            Struct(d.name, d.fieldTypes, d.fieldNames, d.isInterfaceBlock), Sanitized(d.name))]
              && (HasStorage(d.regType) ==>
                    Group(r1.banks, d.regType)
                    == Group(s.recomp.banks, d.regType)
                       + [SpirvReg(Struct(d.name, d.fieldTypes, d.fieldNames, d.isInterfaceBlock), id,
                                   SumSizes(Group(s.recomp.banks, d.regType)), 1)])
  {
    if s.decl.name != "" {
      var d := s.decl;
      var ty := Struct(d.name, d.fieldTypes, d.fieldNames, d.isInterfaceBlock);
      CreateVariableDeclares(s.recomp, d.name, d.regType, 1, ty);
      if HasStorage(d.regType) {
        CreateVariableBinds(s.recomp, d.name, d.regType, 1, ty);
      }
    }
  }

  /** The field types of a run of struct fields, in order. */
  function FieldTypes(ps: seq<Parameter>): (r: seq<SpvType>)
    requires forall i :: 0 <= i < |ps| ==> WellFormedParameter(ps[i])
    ensures |r| == |ps|
  {
    if ps == [] then [] else FieldTypes(ps[..|ps| - 1]) + [GetParamType(ps[|ps| - 1])]
  }

  /** The field names of a run of struct fields, in order. */
  function FieldNames(ps: seq<Parameter>): (r: seq<string>)
    ensures |r| == |ps|
  {
    if ps == [] then [] else FieldNames(ps[..|ps| - 1]) + [ps[|ps| - 1].name]
  }

  /** The open struct is empty or collects fields of the given struct as an interface block. */
  predicate CollectingInto(d: StructDecl, name: string)
  {
    d == EmptyDecl || (d.name == name && d.regType == PrimAttr && d.isInterfaceBlock)
  }

  /** In a fragment program, an attribute of the struct being collected adds its
      type and name to it and declares nothing. */
  lemma StructFieldStep(s: ScanState, p: Parameter, name: string)
    requires DeclInvariant(s.decl) && CollectingInto(s.decl, name) && name != ""
    requires WellFormedParameter(p) && p.category == Attribute && p.structName == name
    ensures ParamStep(s, p, Fragment)
            == ScanState(s.recomp, StructDecl(name, PrimAttr, s.decl.fieldTypes + [GetParamType(p)],
                                              s.decl.fieldNames + [p.name], true))
  {
    assert !StructDeclEnded(s.decl, name);
  }

  /** In a fragment program, a run of attributes of one struct declares nothing:
      it collects their types and names, in order, into an interface block. */
  lemma {:induction false} StructRunCollects(s: ScanState, ps: seq<Parameter>, name: string)
    requires DeclInvariant(s.decl) && CollectingInto(s.decl, name) && name != ""
    requires forall i :: 0 <= i < |ps| ==> WellFormedParameter(ps[i])
    requires forall i :: 0 <= i < |ps| ==> ps[i].category == Attribute && ps[i].structName == name
    ensures ps != [] ==>
              Scan(s, ps, Fragment)
              == ScanState(s.recomp, StructDecl(name, PrimAttr, s.decl.fieldTypes + FieldTypes(ps),
                                                s.decl.fieldNames + FieldNames(ps), true))
    ensures ps == [] ==> Scan(s, ps, Fragment) == s
  {
    if ps != [] {
      var init := ps[..|ps| - 1];
      var last := ps[|ps| - 1];
      var mid := Scan(s, init, Fragment);
      var types := s.decl.fieldTypes + FieldTypes(init);
      var names := s.decl.fieldNames + FieldNames(init);
      assert mid == ScanState(s.recomp, StructDecl(name, PrimAttr, types, names, true)) || (init == [] && mid == s) by {
        StructRunCollects(s, init, name);
      }
      if init == [] {
        assert FieldTypes(init) == [] && FieldNames(init) == [];
      }
      assert Scan(s, ps, Fragment) == ScanState(s.recomp, StructDecl(name, PrimAttr, types + [GetParamType(last)],
                                                                   names + [last.name], true)) by {
        StructFieldStep(mid, last, name);
      }
      assert FieldTypes(ps) == FieldTypes(init) + [GetParamType(last)];
      assert FieldNames(ps) == FieldNames(init) + [last.name];
      AppendAssoc(s.decl.fieldTypes, FieldTypes(init), [GetParamType(last)]);
      AppendAssoc(s.decl.fieldNames, FieldNames(init), [last.name]);
    }
  }

  /** Only attributes of fragment programs are collected into structs: in a vertex
      program, and for uniforms anywhere, the open struct stays empty throughout the scan. */
  lemma {:induction false} VertexScanNeverCollects(s: ScanState, ps: seq<Parameter>)
    requires s.decl == EmptyDecl
    requires forall i :: 0 <= i < |ps| ==> WellFormedParameter(ps[i])
    ensures Scan(s, ps, Vertex).decl == EmptyDecl
  {
    if ps != [] {
      VertexScanNeverCollects(s, ps[..|ps| - 1]);
    }
  }

  lemma UniformNeverCollected(s: ScanState, p: Parameter, pt: ProgramType)
    requires WellFormedParameter(p) && DeclInvariant(s.decl) && p.category == Uniform
    ensures ParamStep(s, p, pt).decl == FlushSpec(s).decl || ParamStep(s, p, pt).decl == s.decl
  {
  }

  // ---------------------------------------------------- stage-fixed I/O

  /** The only group that changed between two sets of banks is bank's. */
  predicate OnlyGroupChanged(before: Banks, after: Banks, bank: RegisterBank)
  {
    (forall g :: OtherGroup(g, bank) ==> Group(after, g) == Group(before, g)) && after.structs == before.structs
  }

  lemma OnlyGroupChangedTrans(a: Banks, b: Banks, c: Banks, bank: RegisterBank)
    requires OnlyGroupChanged(a, b, bank) && OnlyGroupChanged(b, c, bank)
    ensures OnlyGroupChanged(a, c, bank)
  {
  }

  /** One stage-fixed variable: a float vector of count components in bank. */
  lemma IoVariableStep(prev: Recomp, name: string, bank: RegisterBank, count: nat)
    requires HasStorage(bank)
    ensures var (r1, id) := CreateVariableSpec(prev, name, bank, count, Vector(Float32, count));
            id == |prev.spv.variables| + 1
            && r1.spv.variables
               == prev.spv.variables + [VarDecl(RegTypeToStorageClass(bank), Vector(Float32, count), Sanitized(name))]
            && r1.spv.decorations == prev.spv.decorations
            && Group(r1.banks, bank)
               == Group(prev.banks, bank) + [SpirvReg(Vector(Float32, count), id, SumSizes(Group(prev.banks, bank)), count)]
            && |Group(r1.banks, bank)| == |Group(prev.banks, bank)| + 1
            && SumSizes(Group(r1.banks, bank)) == SumSizes(Group(prev.banks, bank)) + count
            && OnlyGroupChanged(prev.banks, r1.banks, bank)
  {
    var ty := Vector(Float32, count);
    CreateVariableDeclares(prev, name, bank, count, ty);
    CreateVariableBinds(prev, name, bank, count, ty);
    SumSizesAppend(Group(prev.banks, bank), SpirvReg(ty, |prev.spv.variables| + 1, SumSizes(Group(prev.banks, bank)), count));
    forall g | OtherGroup(g, bank)
      ensures Group(CreateVariableSpec(prev, name, bank, count, ty).0.banks, g) == Group(prev.banks, g)
    {
      CreateVariableKeepsOthers(prev, name, bank, count, ty, g);
    }
    CreateVariableKeepsOthers(prev, name, bank, count, ty, if bank == Temp then FpInternal else Temp);
  }

  /** The table entries among the first k whose flag bit is set, in table order. */
  function Selected(table: seq<(string, nat)>, mask: bv32, k: nat): (r: seq<(string, nat)>)
    requires k <= |table| <= 32
    ensures |r| <= k
  {
    if k == 0 then []
    else if BitSet(mask, k - 1) then Selected(table, mask, k - 1) + [table[k - 1]]
    else Selected(table, mask, k - 1)
  }

  /** The components the entries take together. */
  function TotalComponents(es: seq<(string, nat)>): nat
  {
    if es == [] then 0 else TotalComponents(es[..|es| - 1]) + es[|es| - 1].1
  }

  /** The variables declared for the entries: a float vector per entry, named after it. */
  function IoDecls(storage: StorageClass, es: seq<(string, nat)>): (r: seq<VarDecl>)
    ensures |r| == |es|
  {
    if es == [] then []
    else IoDecls(storage, es[..|es| - 1]) + [VarDecl(storage, Vector(Float32, es[|es| - 1].1), Sanitized(es[|es| - 1].0))]
  }

  /** The bindings of the entries' variables: a float vector per entry, the
      variables numbered from firstId, packed one after the other from at. */
  function IoRegs(es: seq<(string, nat)>, firstId: nat, at: nat): (r: seq<SpirvReg>)
    ensures |r| == |es|
  {
    if es == [] then []
    else
      var prev := IoRegs(es[..|es| - 1], firstId, at);
      var e := es[|es| - 1];
      prev + [SpirvReg(Vector(Float32, e.1), firstId + |es| - 1, at + SumSizes(prev), e.1)]
  }

  /** One more entry adds the binding of the next variable, right after the others. */
  lemma IoRegsSnoc(es: seq<(string, nat)>, e: (string, nat), firstId: nat, at: nat)
    ensures IoRegs(es + [e], firstId, at)
            == IoRegs(es, firstId, at)
               + [SpirvReg(Vector(Float32, e.1), firstId + |es|, at + SumSizes(IoRegs(es, firstId, at)), e.1)]
  {
    assert (es + [e])[..|es|] == es;
  }

  /** The entries' bindings take as many components as the entries ask for. */
  lemma {:induction false} IoRegsSize(es: seq<(string, nat)>, firstId: nat, at: nat)
    ensures SumSizes(IoRegs(es, firstId, at)) == TotalComponents(es)
  {
    if es != [] {
      var init := es[..|es| - 1];
      var e := es[|es| - 1];
      var prev := IoRegs(init, firstId, at);
      IoRegsSize(init, firstId, at);
      SumSizesAppend(prev, SpirvReg(Vector(Float32, e.1), firstId + |es| - 1, at + SumSizes(prev), e.1));
    }
  }

  /** One more flag bit: the selection grows by that bit's entry when the bit is set. */
  lemma SelectedStep(table: seq<(string, nat)>, mask: bv32, k: nat)
    requires 0 < k <= |table| <= 32
    ensures Selected(table, mask, k)
            == if BitSet(mask, k - 1) then Selected(table, mask, k - 1) + [table[k - 1]] else Selected(table, mask, k - 1)
  {
  }

  /** Extending a selection by one entry extends its declarations and component count by that entry. */
  lemma SelectedSnoc(storage: StorageClass, es: seq<(string, nat)>, e: (string, nat))
    ensures IoDecls(storage, es + [e]) == IoDecls(storage, es) + [VarDecl(storage, Vector(Float32, e.1), Sanitized(e.0))]
    ensures TotalComponents(es + [e]) == TotalComponents(es) + e.1
  {
    assert (es + [e])[..|es|] == es;
  }

  /** The output variable of one vertex-output flag bit. */
  lemma VertexOutputStepShape(prev: Recomp, k: nat, name: string, count: nat)
    requires k < |VertexOutputTable| && VertexOutputTable[k] == (name, count)
    ensures var r1 := VertexOutputStep(prev, k);
            r1.spv.variables == prev.spv.variables + [VarDecl(StorageClassOutput, Vector(Float32, count), Sanitized(name))]
            && r1.spv.decorations
               == prev.spv.decorations + (if k == 0 then [BuiltInPosition(|prev.spv.variables| + 1)] else [])
            && r1.banks.outs
               == prev.banks.outs + [SpirvReg(Vector(Float32, count), |prev.spv.variables| + 1, SumSizes(prev.banks.outs), count)]
            && |r1.banks.outs| == |prev.banks.outs| + 1
            && SumSizes(r1.banks.outs) == SumSizes(prev.banks.outs) + count
            && OnlyGroupChanged(prev.banks, r1.banks, Output)
  {
    IoVariableStep(prev, name, Output, count);
  }

  /** The input variable of one fragment-input flag bit. */
  lemma FragmentInputStepShape(prev: Recomp, k: nat, name: string, count: nat)
    requires k < |FragmentInputTable| && FragmentInputTable[k] == (name, count)
    ensures var r1 := FragmentInputStep(prev, k);
            r1.spv.variables == prev.spv.variables + [VarDecl(StorageClassInput, Vector(Float32, count), Sanitized(name))]
            && r1.spv.decorations == prev.spv.decorations
            && r1.banks.ins
               == prev.banks.ins + [SpirvReg(Vector(Float32, count), |prev.spv.variables| + 1, SumSizes(prev.banks.ins), count)]
            && |r1.banks.ins| == |prev.banks.ins| + 1
            && SumSizes(r1.banks.ins) == SumSizes(prev.banks.ins) + count
            && OnlyGroupChanged(prev.banks, r1.banks, PrimAttr)
  {
    IoVariableStep(prev, name, PrimAttr, count);
  }

  /** The vertex outputs: one output variable per set flag bit, in table order,
      bound one after the other in the output bank. */
  lemma {:induction false} VertexOutputsShape(r: Recomp, mask: bv32, k: nat)
    requires k <= |VertexOutputTable|
    ensures var r1 := VertexOutputsSpec(r, mask, k);
            var sel := Selected(VertexOutputTable, mask, k);
            r1.spv.variables == r.spv.variables + IoDecls(StorageClassOutput, sel)
            && |r1.banks.outs| == |r.banks.outs| + |sel|
            && SumSizes(r1.banks.outs) == SumSizes(r.banks.outs) + TotalComponents(sel)
            && OnlyGroupChanged(r.banks, r1.banks, Output)
            && r1.banks.outs == r.banks.outs + IoRegs(sel, |r.spv.variables| + 1, SumSizes(r.banks.outs))
    decreases k, 1
  {
    if k > 0 {
      var prev := VertexOutputsSpec(r, mask, k - 1);
      var sel0 := Selected(VertexOutputTable, mask, k - 1);
      assert prev.spv.variables == r.spv.variables + IoDecls(StorageClassOutput, sel0)
             && |prev.banks.outs| == |r.banks.outs| + |sel0|
             && SumSizes(prev.banks.outs) == SumSizes(r.banks.outs) + TotalComponents(sel0)
             && OnlyGroupChanged(r.banks, prev.banks, Output) by {
        VertexOutputsShape(r, mask, k - 1);
      }
      if BitSet(mask, k - 1) {
        var e := VertexOutputTable[k - 1];
        var decl := VarDecl(StorageClassOutput, Vector(Float32, e.1), Sanitized(e.0));
        var r1 := VertexOutputStep(prev, k - 1);
        assert r1.spv.variables == prev.spv.variables + [decl]
               && |r1.banks.outs| == |prev.banks.outs| + 1
               && SumSizes(r1.banks.outs) == SumSizes(prev.banks.outs) + e.1
               && OnlyGroupChanged(prev.banks, r1.banks, Output) by {
          VertexOutputStepShape(prev, k - 1, e.0, e.1);
        }
        SelectedStep(VertexOutputTable, mask, k);
        SelectedSnoc(StorageClassOutput, sel0, e);
        AppendAssoc(r.spv.variables, IoDecls(StorageClassOutput, sel0), [decl]);
        OnlyGroupChangedTrans(r.banks, prev.banks, r1.banks, Output);
      }
    }
    VertexOutputsBindings(r, mask, k, |r.spv.variables| + 1, SumSizes(r.banks.outs));
  }

  /** Appending the next I/O binding after bindings laid out by IoRegs. */
  lemma IoRegsExtend(g0: seq<SpirvReg>, sel0: seq<(string, nat)>, e: (string, nat), firstId: nat, at: nat,
                     g: seq<SpirvReg>, id: nat)
    requires at == SumSizes(g0) && g == g0 + IoRegs(sel0, firstId, at) && id == firstId + |sel0|
    ensures g + [SpirvReg(Vector(Float32, e.1), id, SumSizes(g), e.1)] == g0 + IoRegs(sel0 + [e], firstId, at)
  {
    var regs := IoRegs(sel0, firstId, at);
    SumSizesConcat(g0, regs);
    IoRegsSnoc(sel0, e, firstId, at);
    AppendAssoc(g0, regs, [SpirvReg(Vector(Float32, e.1), id, SumSizes(g), e.1)]);
  }

  /** The vertex-output variable of bit k, declared after the variables laid out by IoRegs. */
  lemma VertexOutputStepBinding(r: Recomp, prev: Recomp, k: nat, sel0: seq<(string, nat)>, firstId: nat, at: nat)
    requires k < |VertexOutputTable| && firstId == |r.spv.variables| + 1 && at == SumSizes(r.banks.outs)
    requires prev.spv.variables == r.spv.variables + IoDecls(StorageClassOutput, sel0)
    requires prev.banks.outs == r.banks.outs + IoRegs(sel0, firstId, at)
    ensures VertexOutputStep(prev, k).banks.outs == r.banks.outs + IoRegs(sel0 + [VertexOutputTable[k]], firstId, at)
  {
    var e := VertexOutputTable[k];
    var id := |prev.spv.variables| + 1;
    assert id == firstId + |sel0| by {
      assert |IoDecls(StorageClassOutput, sel0)| == |sel0|;
    }
    assert VertexOutputStep(prev, k).banks.outs
           == prev.banks.outs + [SpirvReg(Vector(Float32, e.1), id, SumSizes(prev.banks.outs), e.1)] by {
      VertexOutputStepShape(prev, k, e.0, e.1);
    }
    IoRegsExtend(r.banks.outs, sel0, e, firstId, at, prev.banks.outs, id);
  }

  /** One more vertex-output flag bit keeps the bindings laid out by IoRegs. */
  lemma VertexOutputsBindingsStep(r: Recomp, mask: bv32, k: nat, firstId: nat, at: nat)
    requires 0 < k <= |VertexOutputTable| && firstId == |r.spv.variables| + 1 && at == SumSizes(r.banks.outs)
    requires VertexOutputsSpec(r, mask, k - 1).spv.variables
             == r.spv.variables + IoDecls(StorageClassOutput, Selected(VertexOutputTable, mask, k - 1))
    requires VertexOutputsSpec(r, mask, k - 1).banks.outs
             == r.banks.outs + IoRegs(Selected(VertexOutputTable, mask, k - 1), firstId, at)
    ensures VertexOutputsSpec(r, mask, k).banks.outs
            == r.banks.outs + IoRegs(Selected(VertexOutputTable, mask, k), firstId, at)
  {
    var prev := VertexOutputsSpec(r, mask, k - 1);
    SelectedStep(VertexOutputTable, mask, k);
    if BitSet(mask, k - 1) {
      VertexOutputStepBinding(r, prev, k - 1, Selected(VertexOutputTable, mask, k - 1), firstId, at);
    }
  }

  /** The vertex outputs are bound one after the other in the output bank: one
      binding per set flag bit, in table order, of that semantic's component count. */
  lemma {:induction false} VertexOutputsBindings(r: Recomp, mask: bv32, k: nat, firstId: nat, at: nat)
    requires k <= |VertexOutputTable| && firstId == |r.spv.variables| + 1 && at == SumSizes(r.banks.outs)
    ensures VertexOutputsSpec(r, mask, k).banks.outs
            == r.banks.outs + IoRegs(Selected(VertexOutputTable, mask, k), firstId, at)
    decreases k, 0
  {
    if k > 0 {
      VertexOutputsBindings(r, mask, k - 1, firstId, at);
      VertexOutputsShape(r, mask, k - 1);
      VertexOutputsBindingsStep(r, mask, k, firstId, at);
    } else {
      assert r.banks.outs + [] == r.banks.outs;
    }
  }

  /** Only the position (bit 0) is decorated, as the BuiltIn Position, and it is
      the first variable the vertex outputs make. */
  lemma {:induction false} VertexOutputsDecorations(r: Recomp, mask: bv32, k: nat, firstId: nat)
    requires k <= |VertexOutputTable| && firstId == |r.spv.variables| + 1
    ensures VertexOutputsSpec(r, mask, k).spv.decorations
            == r.spv.decorations + (if k > 0 && BitSet(mask, 0) then [BuiltInPosition(firstId)] else [])
  {
    if k > 0 {
      var prev := VertexOutputsSpec(r, mask, k - 1);
      assert prev.spv.decorations
             == r.spv.decorations + (if k - 1 > 0 && BitSet(mask, 0) then [BuiltInPosition(firstId)] else []) by {
        VertexOutputsDecorations(r, mask, k - 1, firstId);
      }
      if BitSet(mask, k - 1) {
        var e := VertexOutputTable[k - 1];
        VertexOutputStepShape(prev, k - 1, e.0, e.1);
      }
    }
  }

  /** The fragment inputs: one input variable per set flag bit, in table order,
      bound one after the other in the primary-attribute bank, undecorated. */
  lemma {:induction false} FragmentInputsShape(r: Recomp, mask: bv32, k: nat)
    requires k <= |FragmentInputTable|
    ensures var r1 := FragmentInputsSpec(r, mask, k);
            var sel := Selected(FragmentInputTable, mask, k);
            r1.spv.variables == r.spv.variables + IoDecls(StorageClassInput, sel)
            && r1.spv.decorations == r.spv.decorations
            && |r1.banks.ins| == |r.banks.ins| + |sel|
            && SumSizes(r1.banks.ins) == SumSizes(r.banks.ins) + TotalComponents(sel)
            && OnlyGroupChanged(r.banks, r1.banks, PrimAttr)
            && r1.banks.ins == r.banks.ins + IoRegs(sel, |r.spv.variables| + 1, SumSizes(r.banks.ins))
    decreases k, 1
  {
    if k > 0 {
      var prev := FragmentInputsSpec(r, mask, k - 1);
      var sel0 := Selected(FragmentInputTable, mask, k - 1);
      assert prev.spv.variables == r.spv.variables + IoDecls(StorageClassInput, sel0)
             && prev.spv.decorations == r.spv.decorations
             && |prev.banks.ins| == |r.banks.ins| + |sel0|
             && SumSizes(prev.banks.ins) == SumSizes(r.banks.ins) + TotalComponents(sel0)
             && OnlyGroupChanged(r.banks, prev.banks, PrimAttr) by {
        FragmentInputsShape(r, mask, k - 1);
      }
      if BitSet(mask, k - 1) {
        var e := FragmentInputTable[k - 1];
        var decl := VarDecl(StorageClassInput, Vector(Float32, e.1), Sanitized(e.0));
        var r1 := FragmentInputStep(prev, k - 1);
        assert r1.spv.variables == prev.spv.variables + [decl]
               && r1.spv.decorations == prev.spv.decorations
               && |r1.banks.ins| == |prev.banks.ins| + 1
               && SumSizes(r1.banks.ins) == SumSizes(prev.banks.ins) + e.1
               && OnlyGroupChanged(prev.banks, r1.banks, PrimAttr) by {
          FragmentInputStepShape(prev, k - 1, e.0, e.1);
        }
        SelectedStep(FragmentInputTable, mask, k);
        SelectedSnoc(StorageClassInput, sel0, e);
        AppendAssoc(r.spv.variables, IoDecls(StorageClassInput, sel0), [decl]);
        OnlyGroupChangedTrans(r.banks, prev.banks, r1.banks, PrimAttr);
      }
    }
    FragmentInputsBindings(r, mask, k, |r.spv.variables| + 1, SumSizes(r.banks.ins));
  }

  /** The fragment-input variable of bit k, declared after the variables laid out by IoRegs. */
  lemma FragmentInputStepBinding(r: Recomp, prev: Recomp, k: nat, sel0: seq<(string, nat)>, firstId: nat, at: nat)
    requires k < |FragmentInputTable| && firstId == |r.spv.variables| + 1 && at == SumSizes(r.banks.ins)
    requires prev.spv.variables == r.spv.variables + IoDecls(StorageClassInput, sel0)
    requires prev.banks.ins == r.banks.ins + IoRegs(sel0, firstId, at)
    ensures FragmentInputStep(prev, k).banks.ins == r.banks.ins + IoRegs(sel0 + [FragmentInputTable[k]], firstId, at)
  {
    var e := FragmentInputTable[k];
    var id := |prev.spv.variables| + 1;
    assert id == firstId + |sel0| by {
      assert |IoDecls(StorageClassInput, sel0)| == |sel0|;
    }
    assert FragmentInputStep(prev, k).banks.ins
           == prev.banks.ins + [SpirvReg(Vector(Float32, e.1), id, SumSizes(prev.banks.ins), e.1)] by {
      FragmentInputStepShape(prev, k, e.0, e.1);
    }
    IoRegsExtend(r.banks.ins, sel0, e, firstId, at, prev.banks.ins, id);
  }

  /** One more fragment-input flag bit keeps the bindings laid out by IoRegs. */
  lemma FragmentInputsBindingsStep(r: Recomp, mask: bv32, k: nat, firstId: nat, at: nat)
    requires 0 < k <= |FragmentInputTable| && firstId == |r.spv.variables| + 1 && at == SumSizes(r.banks.ins)
    requires FragmentInputsSpec(r, mask, k - 1).spv.variables
             == r.spv.variables + IoDecls(StorageClassInput, Selected(FragmentInputTable, mask, k - 1))
    requires FragmentInputsSpec(r, mask, k - 1).banks.ins
             == r.banks.ins + IoRegs(Selected(FragmentInputTable, mask, k - 1), firstId, at)
    ensures FragmentInputsSpec(r, mask, k).banks.ins
            == r.banks.ins + IoRegs(Selected(FragmentInputTable, mask, k), firstId, at)
  {
    var prev := FragmentInputsSpec(r, mask, k - 1);
    SelectedStep(FragmentInputTable, mask, k);
    if BitSet(mask, k - 1) {
      FragmentInputStepBinding(r, prev, k - 1, Selected(FragmentInputTable, mask, k - 1), firstId, at);
    }
  }

  /** The fragment inputs are bound one after the other in the primary-attribute
      bank: one binding per set flag bit, in table order, of that semantic's
      component count. */
  lemma {:induction false} FragmentInputsBindings(r: Recomp, mask: bv32, k: nat, firstId: nat, at: nat)
    requires k <= |FragmentInputTable| && firstId == |r.spv.variables| + 1 && at == SumSizes(r.banks.ins)
    ensures FragmentInputsSpec(r, mask, k).banks.ins
            == r.banks.ins + IoRegs(Selected(FragmentInputTable, mask, k), firstId, at)
    decreases k, 0
  {
    if k > 0 {
      FragmentInputsBindings(r, mask, k - 1, firstId, at);
      FragmentInputsShape(r, mask, k - 1);
      FragmentInputsBindingsStep(r, mask, k, firstId, at);
    } else {
      assert r.banks.ins + [] == r.banks.ins;
    }
  }

  /** The fragment output declares out_color as an output variable and decorates
      it, the variable numbered id, with location 0. */
  lemma FragmentOutputDeclares(r: Recomp, id: nat)
    requires id == |r.spv.variables| + 1
    ensures FragmentOutputSpec(r).spv.variables == r.spv.variables + [VarDecl(StorageClassOutput, Vec4, "out_color")]
    ensures FragmentOutputSpec(r).spv.decorations == r.spv.decorations + [Location(id, 0)]
  {
    var name := "out_color";
    assert Sanitized(name) == name by {
      assert NoDoubleUnderscore(name);
      SanitizedFixpoint(name);
    }
    CreateVariableDeclares(r, name, Output, 4, Vec4);
    CreateVariableBinds(r, name, Output, 4, Vec4);
  }

  /** The fragment output binds out_color twice in a row in the output bank, from
      offset at, and changes no other group. */
  lemma FragmentOutputBinds(r: Recomp, id: nat, at: nat)
    requires id == |r.spv.variables| + 1 && at == SumSizes(r.banks.outs)
    ensures FragmentOutputSpec(r).banks.outs == r.banks.outs + [SpirvReg(Vec4, id, at, 4), SpirvReg(Vec4, id, at + 4, 4)]
    ensures OnlyGroupChanged(r.banks, FragmentOutputSpec(r).banks, Output)
  {
    var r1 := CreateVariableSpec(r, "out_color", Output, 4, Vec4).0;
    assert r1.banks.outs == r.banks.outs + [SpirvReg(Vec4, id, at, 4)] by {
      CreateVariableBinds(r, "out_color", Output, 4, Vec4);
    }
    assert OnlyGroupChanged(r.banks, r1.banks, Output) by {
      IoVariableStep(r, "out_color", Output, 4);
    }
    SumSizesAppend(r.banks.outs, SpirvReg(Vec4, id, at, 4));
  }

  /** Hence the output bank grows by 8 components. */
  lemma FragmentOutputShape(r: Recomp, id: nat, at: nat)
    requires id == |r.spv.variables| + 1 && at == SumSizes(r.banks.outs)
    ensures var r1 := FragmentOutputSpec(r);
            r1.spv.variables == r.spv.variables + [VarDecl(StorageClassOutput, Vec4, "out_color")]
            && r1.spv.decorations == r.spv.decorations + [Location(id, 0)]
            && r1.banks.outs == r.banks.outs + [SpirvReg(Vec4, id, at, 4), SpirvReg(Vec4, id, at + 4, 4)]
            && SumSizes(r1.banks.outs) == at + 8
            && OnlyGroupChanged(r.banks, r1.banks, Output)
  {
    FragmentOutputDeclares(r, id);
    FragmentOutputBinds(r, id, at);
    var first := SpirvReg(Vec4, id, at, 4);
    var second := SpirvReg(Vec4, id, at + 4, 4);
    SumSizesAppend(r.banks.outs, first);
    SumSizesAppend(r.banks.outs + [first], second);
    assert r.banks.outs + [first] + [second] == r.banks.outs + [first, second];
  }

  // --------------------------------------------------- temps and internals

  /** The temporaries r0 .. r(k-1) declare k variables. */
  lemma TempsCountStep(r: Recomp, k: nat)
    requires k > 0
    requires |TempsSpec(r, k - 1).spv.variables| == |r.spv.variables| + (k - 1)
    requires TempsSpec(r, k - 1).spv.decorations == r.spv.decorations
    ensures |TempsSpec(r, k).spv.variables| == |r.spv.variables| + k
    ensures TempsSpec(r, k).spv.decorations == r.spv.decorations
  {
    CreateVariableDeclares(TempsSpec(r, k - 1), "r" + DecimalString(k - 1), Temp, 4, Vec4);
  }

  lemma {:induction false} TempsCount(r: Recomp, k: nat)
    ensures |TempsSpec(r, k).spv.variables| == |r.spv.variables| + k
    ensures TempsSpec(r, k).spv.decorations == r.spv.decorations
  {
    if k > 0 {
      TempsCount(r, k - 1);
      TempsCountStep(r, k);
    }
  }

  /** Temporary j is the variable made j-th, bound to components [4j, 4j + 4)
      past the temporaries already there. */
  lemma TempsPushStep(r: Recomp, k: nat, firstId: nat, g0: seq<SpirvReg>)
    requires k > 0 && |TempsSpec(r, k - 1).spv.variables| + 1 == firstId + k - 1
    requires TempsSpec(r, k - 1).banks.temps == PushedRegs(g0, Vec4, firstId, 4, k - 1)
    ensures TempsSpec(r, k).banks.temps == PushedRegs(g0, Vec4, firstId, 4, k)
  {
    PushNextVariable(TempsSpec(r, k - 1), TempsSpec(r, k), "r" + DecimalString(k - 1), Temp, 4, Vec4, g0, firstId, k);
  }

  lemma {:induction false} TempsPushes(r: Recomp, k: nat, firstId: nat, g0: seq<SpirvReg>)
    requires firstId == |r.spv.variables| + 1 && g0 == r.banks.temps
    ensures TempsSpec(r, k).banks.temps == PushedRegs(g0, Vec4, firstId, 4, k)
  {
    if k > 0 {
      TempsPushes(r, k - 1, firstId, g0);
      TempsCount(r, k - 1);
      TempsPushStep(r, k, firstId, g0);
    }
  }

  lemma TempsBindings(r: Recomp, k: nat)
    ensures r.banks.temps + ElementRegs(Vec4, |r.spv.variables| + 1, SumSizes(r.banks.temps), 4, k)
            == TempsSpec(r, k).banks.temps
  {
    TempsPushes(r, k, |r.spv.variables| + 1, r.banks.temps);
    PushedRegsLayout(r.banks.temps, Vec4, |r.spv.variables| + 1, 4, k);
  }

  lemma TempsKeepOthersStep(r: Recomp, k: nat, g: RegisterBank)
    requires k > 0 && OtherGroup(g, Temp)
    requires Group(TempsSpec(r, k - 1).banks, g) == Group(r.banks, g)
    requires TempsSpec(r, k - 1).banks.structs == r.banks.structs
    ensures Group(TempsSpec(r, k).banks, g) == Group(r.banks, g)
    ensures TempsSpec(r, k).banks.structs == r.banks.structs
  {
    CreateVariableKeepsOthers(TempsSpec(r, k - 1), "r" + DecimalString(k - 1), Temp, 4, Vec4, g);
  }

  lemma {:induction false} TempsKeepOthers(r: Recomp, k: nat, g: RegisterBank)
    requires OtherGroup(g, Temp)
    ensures Group(TempsSpec(r, k).banks, g) == Group(r.banks, g)
    ensures TempsSpec(r, k).banks.structs == r.banks.structs
  {
    if k > 0 {
      TempsKeepOthers(r, k - 1, g);
      TempsKeepOthersStep(r, k, g);
    }
  }

  /** The internals i0 .. i(k-1) declare k variables. */
  lemma InternalsCountStep(r: Recomp, k: nat)
    requires k > 0
    requires |InternalsSpec(r, k - 1).spv.variables| == |r.spv.variables| + (k - 1)
    requires InternalsSpec(r, k - 1).spv.decorations == r.spv.decorations
    ensures |InternalsSpec(r, k).spv.variables| == |r.spv.variables| + k
    ensures InternalsSpec(r, k).spv.decorations == r.spv.decorations
  {
    CreateVariableDeclares(InternalsSpec(r, k - 1), "i" + DecimalString(k - 1), FpInternal, 16, Vec4);
  }

  lemma {:induction false} InternalsCount(r: Recomp, k: nat)
    ensures |InternalsSpec(r, k).spv.variables| == |r.spv.variables| + k
    ensures InternalsSpec(r, k).spv.decorations == r.spv.decorations
  {
    if k > 0 {
      InternalsCount(r, k - 1);
      InternalsCountStep(r, k);
    }
  }

  /** Internal j is bound to components [16j, 16j + 16) past the internals
      already there, although its type has only four components. */
  lemma InternalsPushStep(r: Recomp, k: nat, firstId: nat, g0: seq<SpirvReg>)
    requires k > 0 && |InternalsSpec(r, k - 1).spv.variables| + 1 == firstId + k - 1
    requires InternalsSpec(r, k - 1).banks.internals == PushedRegs(g0, Vec4, firstId, 16, k - 1)
    ensures InternalsSpec(r, k).banks.internals == PushedRegs(g0, Vec4, firstId, 16, k)
  {
    PushNextVariable(InternalsSpec(r, k - 1), InternalsSpec(r, k), "i" + DecimalString(k - 1), FpInternal, 16, Vec4, g0, firstId, k);
  }

  lemma {:induction false} InternalsPushes(r: Recomp, k: nat, firstId: nat, g0: seq<SpirvReg>)
    requires firstId == |r.spv.variables| + 1 && g0 == r.banks.internals
    ensures InternalsSpec(r, k).banks.internals == PushedRegs(g0, Vec4, firstId, 16, k)
  {
    if k > 0 {
      InternalsPushes(r, k - 1, firstId, g0);
      InternalsCount(r, k - 1);
      InternalsPushStep(r, k, firstId, g0);
    }
  }

  lemma InternalsBindings(r: Recomp, k: nat)
    ensures r.banks.internals + ElementRegs(Vec4, |r.spv.variables| + 1, SumSizes(r.banks.internals), 16, k)
            == InternalsSpec(r, k).banks.internals
  {
    InternalsPushes(r, k, |r.spv.variables| + 1, r.banks.internals);
    PushedRegsLayout(r.banks.internals, Vec4, |r.spv.variables| + 1, 16, k);
  }

  /** Starting from no internals, internal j is bound to components [16j, 16j + 16). */
  lemma InternalsFromEmpty(r: Recomp, k: nat, firstId: nat)
    requires r.banks.internals == [] && firstId == |r.spv.variables| + 1
    ensures InternalsSpec(r, k).banks.internals == ElementRegs(Vec4, firstId, 0, 16, k)
    ensures InternalsSpec(r, k).banks.temps == r.banks.temps
  {
    assert InternalsSpec(r, k).banks.internals == ElementRegs(Vec4, firstId, 0, 16, k) by {
      InternalsBindings(r, k);
      assert [] + ElementRegs(Vec4, firstId, 0, 16, k) == ElementRegs(Vec4, firstId, 0, 16, k);
    }
    assert InternalsSpec(r, k).banks.temps == r.banks.temps by {
      InternalsKeepOthers(r, k, Temp);
    }
  }

  lemma InternalsKeepOthersStep(r: Recomp, k: nat, g: RegisterBank)
    requires k > 0 && OtherGroup(g, FpInternal)
    requires Group(InternalsSpec(r, k - 1).banks, g) == Group(r.banks, g)
    requires InternalsSpec(r, k - 1).banks.structs == r.banks.structs
    ensures Group(InternalsSpec(r, k).banks, g) == Group(r.banks, g)
    ensures InternalsSpec(r, k).banks.structs == r.banks.structs
  {
    CreateVariableKeepsOthers(InternalsSpec(r, k - 1), "i" + DecimalString(k - 1), FpInternal, 16, Vec4, g);
  }

  lemma {:induction false} InternalsKeepOthers(r: Recomp, k: nat, g: RegisterBank)
    requires OtherGroup(g, FpInternal)
    ensures Group(InternalsSpec(r, k).banks, g) == Group(r.banks, g)
    ensures InternalsSpec(r, k).banks.structs == r.banks.structs
  {
    if k > 0 {
      InternalsKeepOthers(r, k - 1, g);
      InternalsKeepOthersStep(r, k, g);
    }
  }

  // --------------------------------------------------------- colour patch

  /** With the size_t subtraction, the shortfall is 1 or 2 exactly when the program
      has one or two primary registers more than the inputs take; when the inputs
      take more than the program has, the shortfall wraps to a huge value. */
  lemma ShortfallSmallIff(primaryRegCount: nat, insSize: nat)
    requires primaryRegCount < SizeTModulus && insSize < SizeTModulus - 2
    ensures 1 <= PrimaryShortfall(primaryRegCount, insSize) <= 2
            <==> insSize + 1 <= primaryRegCount <= insSize + 2
    ensures insSize > primaryRegCount ==> PrimaryShortfall(primaryRegCount, insSize) > 2
  {
    var d := primaryRegCount - insSize;
    if d >= 0 {
      DivModUnique(d, SizeTModulus, 0, d);
    } else {
      DivModUnique(d, SizeTModulus, -1, d + SizeTModulus);
    }
  }

  /** The patch adds, to a non-native-colour fragment program one or two primary
      registers short, one pa0_blend input of twice the shortfall; otherwise nothing. */
  lemma ColorPatchShape(r: Recomp, prog: Program)
    ensures var missing := PrimaryShortfall(prog.primaryRegCount, SumSizes(r.banks.ins));
            var r1 := ColorPatchSpec(r, prog);
            if prog.programType == Fragment && !prog.nativeColor && 1 <= missing <= 2 then
              r1.spv.variables == r.spv.variables + [VarDecl(StorageClassInput, Vector(Float32, missing * 2), "pa0_blend")]
              && r1.banks.ins
                 == r.banks.ins + [SpirvReg(Vector(Float32, missing * 2), |r.spv.variables| + 1, SumSizes(r.banks.ins), missing * 2)]
              && OnlyGroupChanged(r.banks, r1.banks, PrimAttr)
            else
              r1 == r
  {
    var missing := PrimaryShortfall(prog.primaryRegCount, SumSizes(r.banks.ins));
    if prog.programType == Fragment && !prog.nativeColor && 1 <= missing <= 2 {
      var name := "pa0_blend";
      assert NoDoubleUnderscore(name);
      SanitizedFixpoint(name);
      IoVariableStep(r, name, PrimAttr, missing * 2);
      CreateVariableBinds(r, name, PrimAttr, missing * 2, Vector(Float32, missing * 2));
    }
  }

  // ------------------------------------------------------------ end to end

  /** The open struct, if any, lives in the primary-attribute bank. */
  predicate DeclInPrimAttr(d: StructDecl)
  {
    d == EmptyDecl || d.regType == PrimAttr
  }

  /** The scan state leaves the temporaries and the internals as they were. */
  predicate KeepsTempsInternals(before: Recomp, after: Recomp)
  {
    after.banks.temps == before.banks.temps && after.banks.internals == before.banks.internals
  }

  lemma FlushKeepsTempsInternals(s: ScanState)
    requires DeclInvariant(s.decl) && DeclInPrimAttr(s.decl)
    ensures KeepsTempsInternals(s.recomp, FlushSpec(s).recomp)
  {
    if s.decl.name != "" {
      var d := s.decl;
      var ty := Struct(d.name, d.fieldTypes, d.fieldNames, d.isInterfaceBlock);
      CreateVariableKeepsOthers(s.recomp, d.name, PrimAttr, 1, ty, Temp);
      CreateVariableKeepsOthers(s.recomp, d.name, PrimAttr, 1, ty, FpInternal);
    }
  }

  /** An attribute or uniform step either only collects a struct field or adds
      the parameter's elements after the flush. */
  lemma AttributeStepCases(s: ScanState, p: Parameter, pt: ProgramType, bank: RegisterBank)
    requires WellFormedParameter(p) && DeclInvariant(s.decl)
    ensures var s1 := AttributeFlush(s, p);
            var r := AttributeStep(s, p, pt, bank);
            if p.structName != "" && CanBeInterfaceBlock(bank, pt) then
              r.recomp == s1.recomp && r.decl.regType == bank
            else
              r.decl == s1.decl
              && r.recomp == CreateElementsSpec(s1.recomp, VariableBaseName(p, bank), bank, p.componentCount,
                                                GetParamType(p), p.arraySize)
  {
  }

  /** The elements of an attribute or a uniform are bound in its own bank, which
      is neither the temporaries' nor the internals'. */
  lemma ElementsKeepTempsInternals(r: Recomp, base: string, bank: RegisterBank, count: nat, ty: SpvType, arraySize: nat)
    requires bank == SecAttr || bank == PrimAttr
    ensures KeepsTempsInternals(r, CreateElementsSpec(r, base, bank, count, ty, arraySize))
  {
    CreateVariablesKeepsOthers(r, ElementNames(base, arraySize, arraySize), bank, count, ty, arraySize, Temp);
    CreateVariablesKeepsOthers(r, ElementNames(base, arraySize, arraySize), bank, count, ty, arraySize, FpInternal);
  }

  lemma AttributeStepKeepsTempsInternals(s: ScanState, p: Parameter, pt: ProgramType, bank: RegisterBank)
    requires WellFormedParameter(p) && DeclInvariant(s.decl) && DeclInPrimAttr(s.decl)
    requires bank == SecAttr || bank == PrimAttr
    ensures KeepsTempsInternals(s.recomp, AttributeStep(s, p, pt, bank).recomp)
    ensures DeclInPrimAttr(AttributeStep(s, p, pt, bank).decl)
  {
    var s1 := AttributeFlush(s, p);
    var r := AttributeStep(s, p, pt, bank);
    assert KeepsTempsInternals(s.recomp, s1.recomp) && DeclInPrimAttr(s1.decl) by {
      FlushKeepsTempsInternals(s);
    }
    AttributeStepCases(s, p, pt, bank);
    if !(p.structName != "" && CanBeInterfaceBlock(bank, pt)) {
      ElementsKeepTempsInternals(s1.recomp, VariableBaseName(p, bank), bank, p.componentCount, GetParamType(p), p.arraySize);
    }
  }

  lemma ParamStepKeepsTempsInternals(s: ScanState, p: Parameter, pt: ProgramType)
    requires WellFormedParameter(p) && DeclInvariant(s.decl) && DeclInPrimAttr(s.decl)
    ensures KeepsTempsInternals(s.recomp, ParamStep(s, p, pt).recomp)
    ensures DeclInPrimAttr(ParamStep(s, p, pt).decl)
  {
    if p.category == Uniform {
      AttributeStepKeepsTempsInternals(s, p, pt, SecAttr);
    } else if p.category == Attribute {
      AttributeStepKeepsTempsInternals(s, p, pt, PrimAttr);
    } else if p.category == Sampler {
      CreateVariableKeepsOthers(s.recomp, p.rawName, SecAttr, 2, SamplerType, Temp);
      CreateVariableKeepsOthers(s.recomp, p.rawName, SecAttr, 2, SamplerType, FpInternal);
    }
  }

  /** Attributes, uniforms, samplers and structs never touch the temporaries or the internals. */
  lemma {:induction false} ScanKeepsTempsInternals(s: ScanState, ps: seq<Parameter>, pt: ProgramType)
    requires DeclInvariant(s.decl) && DeclInPrimAttr(s.decl)
    requires forall i :: 0 <= i < |ps| ==> WellFormedParameter(ps[i])
    ensures KeepsTempsInternals(s.recomp, Scan(s, ps, pt).recomp)
    ensures DeclInPrimAttr(Scan(s, ps, pt).decl)
  {
    if ps != [] {
      ScanKeepsTempsInternals(s, ps[..|ps| - 1], pt);
      ParamStepKeepsTempsInternals(Scan(s, ps[..|ps| - 1], pt), ps[|ps| - 1], pt);
    }
  }

  /** The vertex outputs are bound in the outputs only. */
  lemma VertexOutputsKeepTempsInternals(r: Recomp, mask: bv32)
    ensures KeepsTempsInternals(r, VertexOutputsSpec(r, mask, |VertexOutputTable|))
  {
    var r1 := VertexOutputsSpec(r, mask, |VertexOutputTable|);
    assert OnlyGroupChanged(r.banks, r1.banks, Output) by {
      VertexOutputsShape(r, mask, |VertexOutputTable|);
    }
    assert OtherGroup(Temp, Output) && OtherGroup(FpInternal, Output);
  }

  /** The fragment inputs are bound in the primary attributes only. */
  lemma FragmentInputsKeepTempsInternals(r: Recomp, mask: bv32)
    ensures KeepsTempsInternals(r, FragmentInputsSpec(r, mask, |FragmentInputTable|))
  {
    var r1 := FragmentInputsSpec(r, mask, |FragmentInputTable|);
    assert OnlyGroupChanged(r.banks, r1.banks, PrimAttr) by {
      FragmentInputsShape(r, mask, |FragmentInputTable|);
    }
    assert OtherGroup(Temp, PrimAttr) && OtherGroup(FpInternal, PrimAttr);
  }

  /** The fragment colour output is bound in the outputs only. */
  lemma FragmentOutputKeepsTempsInternals(r: Recomp)
    ensures KeepsTempsInternals(r, FragmentOutputSpec(r))
  {
    assert OnlyGroupChanged(r.banks, FragmentOutputSpec(r).banks, Output) by {
      FragmentOutputBinds(r, |r.spv.variables| + 1, SumSizes(r.banks.outs));
    }
    assert OtherGroup(Temp, Output) && OtherGroup(FpInternal, Output);
  }

  /** Neither do the stage-fixed inputs and outputs. */
  lemma StageIoKeepsTempsInternals(r: Recomp, prog: Program)
    ensures KeepsTempsInternals(r, StageIoSpec(r, prog))
  {
    match prog.programType
    case Vertex =>
      VertexOutputsKeepTempsInternals(r, prog.vertexOutputs);
    case Fragment =>
      FragmentInputsKeepTempsInternals(r, prog.fragmentInputs);
      FragmentOutputKeepsTempsInternals(FragmentInputsSpec(r, prog.fragmentInputs, |FragmentInputTable|));
  }

  /** What create_parameters has built when it reaches the temporaries. */
  function BeforeTemps(m: Module, prog: Program): Recomp
    requires WellFormedProgram(prog)
  {
    var scanned := Scan(ScanState(Recomp(m, EmptyBanks), EmptyDecl), prog.parameters, prog.programType);
    StageIoSpec(FlushSpec(scanned).recomp, prog)
  }

  /** No temporary or internal is bound before the temporaries are made. */
  lemma BeforeTempsEmpty(m: Module, prog: Program)
    requires WellFormedProgram(prog)
    ensures BeforeTemps(m, prog).banks.temps == [] && BeforeTemps(m, prog).banks.internals == []
  {
    var start := ScanState(Recomp(m, EmptyBanks), EmptyDecl);
    var scanned := Scan(start, prog.parameters, prog.programType);
    ScanKeepsTempsInternals(start, prog.parameters, prog.programType);
    FlushKeepsTempsInternals(scanned);
    StageIoKeepsTempsInternals(FlushSpec(scanned).recomp, prog);
  }

  /** Starting from no temporaries, temporary j is bound to components [4j, 4j + 4). */
  lemma TempsFromEmpty(r: Recomp, k: nat, firstId: nat)
    requires r.banks.temps == [] && firstId == |r.spv.variables| + 1
    ensures TempsSpec(r, k).banks.temps == ElementRegs(Vec4, firstId, 0, 4, k)
    ensures TempsSpec(r, k).banks.internals == r.banks.internals
    ensures |TempsSpec(r, k).spv.variables| + 1 == firstId + k
  {
    assert TempsSpec(r, k).banks.temps == ElementRegs(Vec4, firstId, 0, 4, k) by {
      TempsBindings(r, k);
      assert [] + ElementRegs(Vec4, firstId, 0, 4, k) == ElementRegs(Vec4, firstId, 0, 4, k);
    }
    assert TempsSpec(r, k).banks.internals == r.banks.internals by {
      TempsKeepOthers(r, k, FpInternal);
    }
    TempsCount(r, k);
  }

  /** The colour patch binds neither temporaries nor internals. */
  lemma ColorPatchKeepsTempsInternals(r: Recomp, prog: Program)
    ensures KeepsTempsInternals(r, ColorPatchSpec(r, prog))
  {
    ColorPatchShape(r, prog);
    assert OtherGroup(Temp, PrimAttr) && OtherGroup(FpInternal, PrimAttr);
  }

  /** From no temporaries and no internals, making the temporaries and then the
      internals binds temporary j to [4j, 4j + 4) and internal j to [16j, 16j + 16),
      the temporaries numbered from firstTemp and the internals right after them. */
  lemma TailLayout(r: Recomp, k: nat, internalCount: nat, firstTemp: nat, firstInternal: nat)
    requires r.banks.temps == [] && r.banks.internals == []
    requires firstTemp == |r.spv.variables| + 1 && firstInternal == firstTemp + k
    ensures InternalsSpec(TempsSpec(r, k), internalCount).banks.temps == ElementRegs(Vec4, firstTemp, 0, 4, k)
    ensures InternalsSpec(TempsSpec(r, k), internalCount).banks.internals
            == ElementRegs(Vec4, firstInternal, 0, 16, internalCount)
  {
    TempsFromEmpty(r, k, firstTemp);
    InternalsFromEmpty(TempsSpec(r, k), internalCount, firstInternal);
  }

  /** After create_parameters, temporary j is variable firstTemp + j, right after
      the variables declared before the temporaries, bound to components
      [4j, 4j + 4) of the temporaries bank; internal j is variable firstInternal + j,
      right after the temporaries, bound to components [16j, 16j + 16) of the
      internals bank; no other binding is in those banks. */
  lemma CreateParametersLayout(m: Module, prog: Program, firstTemp: nat, firstInternal: nat)
    requires WellFormedProgram(prog)
    requires firstTemp == |BeforeTemps(m, prog).spv.variables| + 1
    requires firstInternal == firstTemp + prog.tempRegCount1
    ensures CreateParametersSpec(m, prog).banks.temps == ElementRegs(Vec4, firstTemp, 0, 4, prog.tempRegCount1)
    ensures CreateParametersSpec(m, prog).banks.internals == ElementRegs(Vec4, firstInternal, 0, 16, InternalRegCount)
  {
    var r := BeforeTemps(m, prog);
    var tail := InternalsSpec(TempsSpec(r, prog.tempRegCount1), InternalRegCount);
    assert CreateParametersSpec(m, prog) == ColorPatchSpec(tail, prog);
    assert KeepsTempsInternals(tail, ColorPatchSpec(tail, prog)) by {
      ColorPatchKeepsTempsInternals(tail, prog);
    }
    BeforeTempsEmpty(m, prog);
    TailLayout(r, prog.tempRegCount1, InternalRegCount, firstTemp, firstInternal);
  }
}
