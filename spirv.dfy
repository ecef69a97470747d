/**
  An abstract view of the SPIR-V module builder that the recompiler drives.
  Types are values rather than ids, every created variable gets a fresh id
  (its position in the declaration list plus one, so that 0 stays free for
  spv::NoResult) and decorations on variables are recorded in order.
*/
module Spirv {
  import opened Optional

  /** A result id; 0 is spv::NoResult. */
  type SpvId = nat

  const NoResult: SpvId := 0

  /** The types the recompiler asks the builder for. A struct carries its member
      names (addMemberName) and whether it was decorated as a Block. */
  datatype SpvType =
    | Float(width: nat)
    | UInt(width: nat)
    | Int(width: nat)
    | Vector(component: SpvType, count: nat)
    | Matrix(component: SpvType, columns: nat, rows: nat)
    | Struct(name: string, members: seq<SpvType>, memberNames: seq<string>, block: bool)
    | SampledImage2D(sampled: SpvType)

  datatype StorageClass =
    | StorageClassFunction
    | StorageClassInput
    | StorageClassOutput
    | StorageClassUniformConstant
    | StorageClassPrivate
    | StorageClassMax

  datatype Decoration = BuiltInPosition(target: SpvId) | Location(target: SpvId, location: nat)

  datatype VarDecl = VarDecl(storage: StorageClass, ty: SpvType, name: string)

  /** What the builder has accumulated: the variables and their decorations. */
  datatype Module = Module(variables: seq<VarDecl>, decorations: seq<Decoration>)

  const EmptyModule := Module([], [])

  /** The declaration behind a result id, if there is one. */
  function VariableOf(m: Module, id: SpvId): Option<VarDecl>
  {
    if 1 <= id <= |m.variables| then Some(m.variables[id - 1]) else None
  }

  /** createVariable: a new variable with a fresh id. */
  function DeclareVariable(m: Module, storage: StorageClass, ty: SpvType, name: string): (r: (Module, SpvId))
  {
    (Module(m.variables + [VarDecl(storage, ty, name)], m.decorations), |m.variables| + 1)
  }

  /** The new id was unused, now names the new declaration, and every id in use
      keeps its declaration; decorations are untouched. */
  lemma DeclareVariableFresh(m: Module, storage: StorageClass, ty: SpvType, name: string, id: SpvId)
    ensures var (m1, newId) := DeclareVariable(m, storage, ty, name);
            newId != NoResult && VariableOf(m, newId) == None
            && VariableOf(m1, newId) == Some(VarDecl(storage, ty, name))
            && (VariableOf(m, id).Some? ==> VariableOf(m1, id) == VariableOf(m, id))
            && m1.decorations == m.decorations
  {
  }

  /** addDecoration on a variable. */
  function Decorate(m: Module, d: Decoration): (r: Module)
    ensures r.variables == m.variables
    ensures r.decorations == m.decorations + [d]
  {
    Module(m.variables, m.decorations + [d])
  }

  /** The builder object; only the calls the recompiler makes on variables are kept. */
  class Builder {
    var variables: seq<VarDecl>
    var decorations: seq<Decoration>

    function Value(): Module
      reads this
    {
      Module(variables, decorations)
    }

    constructor ()
      ensures Value() == EmptyModule
    {
      variables, decorations := [], [];
    }

    method CreateVariable(storage: StorageClass, ty: SpvType, name: string) returns (id: SpvId)
      modifies this
      ensures (Value(), id) == DeclareVariable(old(Value()), storage, ty, name)
    {
      id := |variables| + 1;
      variables := variables + [VarDecl(storage, ty, name)];
    }

    method AddDecoration(d: Decoration)
      modifies this
      ensures Value() == Decorate(old(Value()), d)
    {
      decorations := decorations + [d];
    }
  }
}
