# Vita3K shader recompiler: parameter reconstruction, register banks and disassembly text

This project models the part of Vita3K's shader recompiler that turns a GXM program's parameter table into SPIR-V variables. It also models the register-bank bookkeeping that later maps USSE register indices onto those variables, and the text fragments the USSE disassembler prints.

- **`types.dfy`** (module `Types`) models `types.h`.
  - The USSE vocabulary: predicates, swizzles, register banks and operands.
  - `SpirvVarRegBank`, a class whose bindings (`vars`) and `nextOffset` are updated in place by `Push`. Each binding pairs a SPIR-V variable with a register range `[offset, offset + size)`. `FindRegAt` does the linear lookup and `Size` sums the binding sizes.
  - `ShaderParameters`, six such banks: `ins` ('pa'), `uniforms` ('sa'), `temps` ('r'), `internals` ('i'), `outs` ('o') and the unused `structs`.
- **`spirv.dfy`** (module `Spirv`) is an abstract SPIR-V builder.
  - Types are values, not ids.
  - A created variable gets id "its position in the declaration list plus one", so that 0 stays `spv::NoResult`.
  - Decorations on variables are kept in order.
- **`recompiler.dfy`** (module `Recompiler`) models `create_parameters` and the helpers it calls as methods on the builder, on the banks and on the `StructDeclContext` accumulator. The parameter loop, the vertex-output and fragment-input loops over the flag bits, the temporaries, the three internals and the colour patch are loops, as in the code.
  - Each method is proved to change the builder and the banks exactly as its step function in **`recompiler_spec.dfy`** (module `RecompilerSpec`) says.
  - **`recompiler_props.dfy`** (module `RecompilerProps`) proves what those step functions build.
- **`recompiler_helpers.dfy`** holds the pure pieces: type selection, name sanitising and the storage-class mapping.
- **`usse_disasm.dfy`** holds the predicate, data-type and operand printers, with a reader for the operand text that they are proved to round-trip with.
- **`decimal.dfy`** renders a natural number in decimal, as `std::to_string` and fmt's `"{}"` do for these values, and reads it back.
- **`optional.dfy`** provides `Option`.

Three behaviours of the code are modelled as written.

- `create_fragment_output` pushes `out_color` onto the output bank twice: once inside `create_variable`, once directly. The output bank therefore holds two 4-component bindings for one variable (`FragmentOutputBinds`).
- `operand_to_str` appends `"."` and the swizzle text whenever the write mask is non-zero, including for the identity swizzle. A rendering with no suffix for `{X,Y,Z,W}` under a full mask is not what this code does. Whether the suffix is empty is up to `swizzle_to_str`, which is a parameter here.
- `SpirvVarRegBank::find_reg_at` returns `false` when no binding covers the index. A failed lookup is reported only through that flag.

## Model

| member | source | states |
|---|---|---|
| Types.ExtPredicateOfCode | src/emulator/shader/include/shader/types.h:28-37 | a byte names an extended predicate exactly when it is below 8, and that predicate's underlying value is the byte |
| Types.ShortPredicateOfCode | src/emulator/shader/include/shader/types.h:39-44 | a byte names a short predicate exactly when it is below 4, and it names it by its underlying value |
| Types.MoveDataTypeOfCode | src/emulator/shader/include/shader/types.h:111-118 | a byte names a move data type exactly when it is below 6, and it names it by its underlying value |
| Types.ToSwizzle4 | src/emulator/shader/include/shader/types.h:79-81 | the widened swizzle keeps the three channels in order and adds X as the fourth |
| Types.IdentityPrefix | src/emulator/shader/include/shader/types.h:87-92 | the fall-through cascade entered at case len holds exactly when channels 0 .. len-1 are X, Y, Z, W |
| Types.IsDefault | src/emulator/shader/include/shader/types.h:83-96 | swLen defaults to 4; for a length of 1 to 4, true exactly when the first swLen channels are the identity prefix; for 0 or more than 4 (no case matches), true |
| Types.DefaultOperand | src/emulator/shader/include/shader/types.h:147-152 | a default operand has register number 0x3F, the invalid bank and four undefined channels |
| Types.SumSizesAppend | src/emulator/shader/include/shader/types.h:215-221 | the size of a bank grows by exactly the size of an appended binding |
| Types.PushRegContiguous | src/emulator/shader/include/shader/types.h:208-213 | a push keeps every binding starting where the earlier ones end, and grows the total by the pushed size |
| Types.ContiguousPrefix | src/emulator/shader/include/shader/types.h:208-213 | the bindings pushed up to any point are themselves contiguous |
| Types.CoveredIffBelowSize | src/emulator/shader/include/shader/types.h:190-198 | in a contiguous bank, some binding covers an index exactly when the index is below the bank's total size |
| Types.BindingWithinTotal | src/emulator/shader/include/shader/types.h:208-221 | every binding in a contiguous bank ends at or before the bank's total size |
| Types.CoverUnique | src/emulator/shader/include/shader/types.h:190-198 | bindings in a contiguous bank never overlap: two bindings covering the same index are the same binding |
| Types.SpirvVarRegBank.constructor | src/emulator/shader/include/shader/types.h:188 | a new bank has no bindings, next offset 0, and satisfies the bank invariant |
| Types.SpirvVarRegBank.FindRegAt | src/emulator/shader/include/shader/types.h:190-199 | found exactly when some binding covers the index; then the result is the FIRST covering binding and the component offset is index - offset, below its size; otherwise the out-parameters come back unchanged; on a valid bank, found exactly when index < next offset |
| Types.SpirvVarRegBank.GetVars | src/emulator/shader/include/shader/types.h:201-206 | on a valid bank the bindings returned are contiguous and add up to the next offset |
| Types.SpirvVarRegBank.Push | src/emulator/shader/include/shader/types.h:208-213 | appends one binding for the variable at the old next offset with the given size, advances the next offset by the size, and keeps the bank valid |
| Types.SpirvVarRegBank.Size | src/emulator/shader/include/shader/types.h:215-221 | returns the sum of the binding sizes, which on a valid bank equals the next offset |
| Types.ShaderParameters.constructor | src/emulator/shader/include/shader/types.h:228-250 | six fresh, distinct, empty, valid banks |
| Types.ShaderParameters.DistinctBanks | src/emulator/shader/include/shader/types.h:228-250 | the six banks are pairwise different objects, so pushing to one leaves the others alone |
| Types.ShaderParameters.ValueContiguous | src/emulator/shader/include/shader/types.h:228-250 | valid parameters have every bank contiguous |
| Spirv.DeclareVariableFresh | src/emulator/shader/src/spirv_recompiler.cpp:236 | a created variable's id is not NoResult, was unused, and now names the new declaration; every id already in use keeps its declaration; decorations are unchanged |
| Spirv.Decorate | src/emulator/shader/src/spirv_recompiler.cpp:341 | a decoration is appended after the earlier ones and the variables are unchanged |
| Spirv.Builder.CreateVariable | src/emulator/shader/src/spirv_recompiler.cpp:236 | the builder's state and the returned id are those of declaring one more variable |
| Spirv.Builder.AddDecoration | src/emulator/shader/src/spirv_recompiler.cpp:390 | the builder's state is that of appending the decoration |
| Decimal.DecimalString | src/emulator/shader/src/usse_disasm.cpp:98 | the rendering is non-empty, all digits, with no leading zero |
| Decimal.ParseDecimalString | src/emulator/shader/src/usse_disasm.cpp:98 | reading a number's decimal rendering back gives the number |
| Decimal.DecimalStringInjective | src/emulator/shader/src/spirv_recompiler.cpp:467 | different numbers render differently |
| RecompilerHelpers.GetTypeBasic | src/emulator/shader/src/spirv_recompiler.cpp:117-140 | unsigned and signed integer parameter types give unsigned and signed integers of their width; F16, F32 and unknown types give a 32-bit float |
| RecompilerHelpers.GetTypeMatrix | src/emulator/shader/src/spirv_recompiler.cpp:155-176 | an N x N matrix of the basic type when component count * array size is a multiple of N * N, else an N-vector |
| RecompilerHelpers.MatrixCaseIffArrayMultiple | src/emulator/shader/src/spirv_recompiler.cpp:162-167 | the matrix case happens exactly when the array size is a multiple of the component count, and the matrix count is their quotient |
| RecompilerHelpers.GetParamType | src/emulator/shader/src/spirv_recompiler.cpp:178-192 | scalars get the basic type and vectors an N-vector of it; matrices get an N x N matrix or an N-vector of it; other shapes get a 32-bit float |
| RecompilerHelpers.SanitizeVariableName | src/emulator/shader/src/spirv_recompiler.cpp:194-200 | the loop's result is the collapse of runs of '_' (Sanitized) |
| RecompilerHelpers.SanitizedLast | src/emulator/shader/src/spirv_recompiler.cpp:194-200 | sanitising keeps the name's last character |
| RecompilerHelpers.SanitizedIsDropRepeated | src/emulator/shader/src/spirv_recompiler.cpp:194-200 | comparing each '_' with the last KEPT character, as the unique algorithm does, removes exactly the '_' whose predecessor in the original name is '_' |
| RecompilerHelpers.SanitizedNoDoubleUnderscore | src/emulator/shader/src/spirv_recompiler.cpp:194-200 | a sanitised name has no two adjacent '_' |
| RecompilerHelpers.SanitizedKeepsOtherCharacters | src/emulator/shader/src/spirv_recompiler.cpp:194-200 | only '_' are removed: the other characters stay, in order |
| RecompilerHelpers.SanitizedFixpoint | src/emulator/shader/src/spirv_recompiler.cpp:194-200 | a name is left unchanged exactly when it has no two adjacent '_' |
| RecompilerHelpers.SanitizedIdempotent | src/emulator/shader/src/spirv_recompiler.cpp:194-200 | sanitising twice is sanitising once |
| RecompilerHelpers.SanitizedAppendNoUnderscore | src/emulator/shader/src/spirv_recompiler.cpp:194-200 | a suffix without '_' is kept as it is, after the sanitised prefix |
| RecompilerHelpers.ReplaceDots | src/emulator/shader/src/spirv_recompiler.cpp:459 | same length, each '.' becomes '_' and every other character is kept |
| RecompilerHelpers.RegTypeToStorageClass | src/emulator/shader/src/spirv_recompiler.cpp:202-230 | a bank gets a storage class other than Max exactly when it is one of temp, primary and secondary attribute, output and internal |
| RecompilerHelpers.StorageClassRoundTrip | src/emulator/shader/src/spirv_recompiler.cpp:202-230 | the five backed banks map to five classes that map back to them; the other banks all map to Max, which names no bank |
| RecompilerSpec.WithGroup | src/emulator/shader/src/spirv_recompiler.cpp:238-259 | replacing the group of a bank changes that group only: every other group and the structs keep their bindings |
| RecompilerSpec.ElementNames | src/emulator/shader/src/spirv_recompiler.cpp:462-469 | one name per array element |
| RecompilerSpec.ElementNameAt | src/emulator/shader/src/spirv_recompiler.cpp:462-469 | element j's name is the base name for a non-array, else base_j |
| RecompilerSpec.FlushSpec | src/emulator/shader/src/spirv_recompiler.cpp:266-286 | after a flush no struct is open |
| RecompilerSpec.AttributeFlush | src/emulator/shader/src/spirv_recompiler.cpp:412-417 | the flush keeps field types and names paired |
| RecompilerSpec.AttributeAdd | src/emulator/shader/src/spirv_recompiler.cpp:419-470 | collecting a field or creating elements keeps field types and names paired |
| RecompilerSpec.AttributeStep | src/emulator/shader/src/spirv_recompiler.cpp:411-471 | an attribute or uniform keeps field types and names paired |
| RecompilerSpec.ParamStep | src/emulator/shader/src/spirv_recompiler.cpp:405-491 | every parameter category keeps field types and names paired |
| RecompilerSpec.Scan | src/emulator/shader/src/spirv_recompiler.cpp:400-492 | the whole parameter loop keeps field types and names paired, which create_struct asserts |
| Recompiler.StructDeclContext.constructor | src/emulator/shader/src/spirv_recompiler.cpp:62-71 | a new accumulator is the empty one: no name, invalid bank, no fields, not a block |
| Recompiler.StructDeclContext.Empty | src/emulator/shader/src/spirv_recompiler.cpp:69 | while fields and names stay paired, no name means the context is the cleared one |
| Recompiler.StructDeclContext.Clear | src/emulator/shader/src/spirv_recompiler.cpp:70 | the context becomes the empty one |
| Recompiler.CreateVariable | src/emulator/shader/src/spirv_recompiler.cpp:232-264 | the builder and the banks change exactly as CreateVariableSpec says, and the id is its result; the banks stay valid |
| Recompiler.CreateStruct | src/emulator/shader/src/spirv_recompiler.cpp:266-286 | declares the struct variable (member names in field order) exactly as CreateStructSpec says, then clears the context |
| Recompiler.CreateParamSampler | src/emulator/shader/src/spirv_recompiler.cpp:288-295 | the builder and the banks change exactly as CreateParamSamplerSpec says |
| Recompiler.CreateVertexOutput | src/emulator/shader/src/spirv_recompiler.cpp:333-342 | the builder and the banks change exactly as VertexOutputStep says for flag bit vo |
| Recompiler.CreateVertexOutputIfSet | src/emulator/shader/src/spirv_recompiler.cpp:331-343 | one turn of the flag loop takes the state from the outputs of bits below vo to those below vo + 1 |
| Recompiler.CreateVertexOutputs | src/emulator/shader/src/spirv_recompiler.cpp:297-344 | the builder and the banks change exactly as VertexOutputsSpec says over all 23 flag bits |
| Recompiler.CreateFragmentInputs | src/emulator/shader/src/spirv_recompiler.cpp:346-381 | the builder and the banks change exactly as FragmentInputsSpec says over all 15 flag bits |
| Recompiler.CreateFragmentOutput | src/emulator/shader/src/spirv_recompiler.cpp:383-393 | the builder and the banks change exactly as FragmentOutputSpec says |
| Recompiler.CreateElement | src/emulator/shader/src/spirv_recompiler.cpp:463-468 | creating element p's variable takes the state from the first p elements to the first p + 1 |
| Recompiler.CreateElements | src/emulator/shader/src/spirv_recompiler.cpp:462-469 | the builder and the banks change exactly as CreateElementsSpec says |
| Recompiler.AddAttribute | src/emulator/shader/src/spirv_recompiler.cpp:419-470 | builder, banks and context change exactly as AttributeAdd says, and fields stay paired |
| Recompiler.ScanAttribute | src/emulator/shader/src/spirv_recompiler.cpp:411-471 | builder, banks and context change exactly as AttributeStep says (flush, then add) |
| Recompiler.ScanParameter | src/emulator/shader/src/spirv_recompiler.cpp:405-491 | builder, banks and context change exactly as ParamStep says |
| Recompiler.ScanParameters | src/emulator/shader/src/spirv_recompiler.cpp:400-492 | builder, banks and context change exactly as Scan says over the whole parameter table |
| Recompiler.CreateStageIo | src/emulator/shader/src/spirv_recompiler.cpp:498-503 | vertex outputs for a vertex program, fragment inputs then the colour output for a fragment program, exactly as StageIoSpec says |
| Recompiler.CreateTemps | src/emulator/shader/src/spirv_recompiler.cpp:505-510 | the builder and the banks change exactly as TempsSpec says for count temporaries |
| Recompiler.CreateInternals | src/emulator/shader/src/spirv_recompiler.cpp:512-518 | the builder and the banks change exactly as InternalsSpec says for the three internals |
| Recompiler.PatchColorAttributes | src/emulator/shader/src/spirv_recompiler.cpp:524-534 | the builder and the banks change exactly as ColorPatchSpec says |
| Recompiler.CreateParameters | src/emulator/shader/src/spirv_recompiler.cpp:395-537 | returns fresh valid banks, and the builder and banks are exactly CreateParametersSpec of the builder before the call |
| RecompilerProps.CreateVariableDeclares | src/emulator/shader/src/spirv_recompiler.cpp:233-236 | create_variable declares one variable after the existing ones, with the bank's storage class, the type and the sanitised name, and adds no decoration |
| RecompilerProps.CreateVariableBinds | src/emulator/shader/src/spirv_recompiler.cpp:238-263 | for a backed bank it returns the new variable's id and pushes it to that bank's group at the group's current end |
| RecompilerProps.CreateVariableKeepsOthers | src/emulator/shader/src/spirv_recompiler.cpp:238-261 | every other group, and the struct bindings, are unchanged |
| RecompilerProps.CreateVariableUnbound | src/emulator/shader/src/spirv_recompiler.cpp:256-258 | for an unbacked bank the variable is still declared, but nothing is bound and NoResult is returned |
| RecompilerProps.CreateVariableContiguous | src/emulator/shader/src/spirv_recompiler.cpp:261 | contiguous banks stay contiguous, and the chosen group grows by the size |
| RecompilerProps.ElementNamesDistinct | src/emulator/shader/src/spirv_recompiler.cpp:464-467 | the elements of an array parameter get pairwise different names |
| RecompilerProps.SanitizedElementNamesDistinct | src/emulator/shader/src/spirv_recompiler.cpp:464-467 | the element names stay pairwise different after sanitising, which is what the declared variables are called |
| RecompilerProps.SumSizesConcat | src/emulator/shader/include/shader/types.h:215-221 | the size of two runs of bindings is the sum of their sizes |
| RecompilerProps.ElementRegs | src/emulator/shader/src/spirv_recompiler.cpp:462-469 | one binding per element |
| RecompilerProps.ElementRegsSize | src/emulator/shader/src/spirv_recompiler.cpp:462-469 | k elements of count components take k * count register components |
| RecompilerProps.ElementRegAt | src/emulator/shader/src/spirv_recompiler.cpp:462-469 | element j is variable firstId + j, bound to components [offset + j*count, offset + (j+1)*count) |
| RecompilerProps.PushedRegsLayout | src/emulator/shader/include/shader/types.h:208-213 | k successive pushes append their bindings packed one after the other from the old total |
| RecompilerProps.PushNextVariable | src/emulator/shader/src/spirv_recompiler.cpp:261 | one more variable, whatever its name, pushes one more binding, numbered next |
| RecompilerProps.CreateVariablesPushes | src/emulator/shader/src/spirv_recompiler.cpp:462-469 | variables for k names declare k variables and push them in name order, numbered from the first unused id |
| RecompilerProps.CreateVariablesBindings | src/emulator/shader/src/spirv_recompiler.cpp:462-469 | those variables are bound right after the bank's bindings, packed in name order |
| RecompilerProps.CreateVariablesKeepsOthers | src/emulator/shader/src/spirv_recompiler.cpp:462-469 | creating them leaves other groups and the structs unchanged |
| RecompilerProps.VariableDecls | src/emulator/shader/src/spirv_recompiler.cpp:462-469 | one declaration per name |
| RecompilerProps.VariableDeclAt | src/emulator/shader/src/spirv_recompiler.cpp:462-469 | declaration j is of the bank's storage class, the type and the sanitised name j |
| RecompilerProps.CreateVariablesDeclares | src/emulator/shader/src/spirv_recompiler.cpp:462-469 | the variables are declared in name order after the existing ones, and no decoration is added |
| RecompilerProps.CreateVariablesUnbound | src/emulator/shader/src/spirv_recompiler.cpp:256-258 | for an unbacked bank, variables are declared but no bank changes |
| RecompilerProps.CreateElementsLayout | src/emulator/shader/src/spirv_recompiler.cpp:462-469 | an array parameter declares one variable per element in element order; these are bound after the bank's bindings with count components each, the other groups unchanged |
| RecompilerProps.SamplerBinding | src/emulator/shader/src/spirv_recompiler.cpp:288-295 | a sampler declares one uniform-constant sampled-image variable under its sanitised raw name and binds it with size 2 at the end of the uniforms, whatever its array size; nothing else changes |
| RecompilerProps.SkippedCategories | src/emulator/shader/src/spirv_recompiler.cpp:477-490 | auxiliary surfaces, uniform buffers and unknown categories change nothing |
| RecompilerProps.FlushBeforeClosingParameter | src/emulator/shader/src/spirv_recompiler.cpp:414-417 | a parameter that ends the open struct is processed as if the struct had been flushed first |
| RecompilerProps.FlushDeclaresStruct | src/emulator/shader/src/spirv_recompiler.cpp:266-286 | with no open struct a flush does nothing; otherwise it declares one variable of the struct type (fields, member names, block flag), named after the struct, bound with size 1 at the end of the struct's bank |
| RecompilerProps.FieldTypes | src/emulator/shader/src/spirv_recompiler.cpp:438 | one field type per parameter |
| RecompilerProps.FieldNames | src/emulator/shader/src/spirv_recompiler.cpp:439 | one field name per parameter |
| RecompilerProps.StructFieldStep | src/emulator/shader/src/spirv_recompiler.cpp:434-441 | in a fragment program, an attribute of the struct being collected adds its type and name and declares nothing |
| RecompilerProps.StructRunCollects | src/emulator/shader/src/spirv_recompiler.cpp:400-441 | a sequence of attributes of one struct in a fragment program declares nothing and collects their types and names, in order, into a primary-attribute interface block |
| RecompilerProps.VertexScanNeverCollects | src/emulator/shader/src/spirv_recompiler.cpp:421-434 | in a vertex program (parameters are only attributes and uniforms) no struct is ever opened |
| RecompilerProps.UniformNeverCollected | src/emulator/shader/src/spirv_recompiler.cpp:430-434 | a uniform never adds a field: the struct afterwards is the flushed one or unchanged |
| RecompilerProps.OnlyGroupChangedTrans | src/emulator/shader/src/spirv_recompiler.cpp:238-261 | "only this group changed" composes over successive steps |
| RecompilerProps.IoVariableStep | src/emulator/shader/src/spirv_recompiler.cpp:336-337 | a stage-fixed variable is a float vector of count components, declared next; its bank gains exactly one binding, of that vector and variable, at the bank's next offset with size count; no other bank changes |
| RecompilerProps.Selected | src/emulator/shader/src/spirv_recompiler.cpp:331-332 | at most one entry per flag bit examined |
| RecompilerProps.IoDecls | src/emulator/shader/src/spirv_recompiler.cpp:336-337 | one declaration per selected entry |
| RecompilerProps.SelectedStep | src/emulator/shader/src/spirv_recompiler.cpp:331-332 | one more flag bit appends that bit's entry exactly when the bit is set |
| RecompilerProps.IoRegs | src/emulator/shader/src/spirv_recompiler.cpp:336-337 | one binding per selected entry |
| RecompilerProps.IoRegsSnoc | src/emulator/shader/include/shader/types.h:215-221 | one more entry appends the binding of the next variable id at the offset right after the earlier bindings, of that entry's size |
| RecompilerProps.IoRegsSize | src/emulator/shader/include/shader/types.h:215-221 | the bindings of the selected entries take exactly their total component count |
| RecompilerProps.IoRegsExtend | src/emulator/shader/include/shader/types.h:215-221 | pushing the next variable onto a bank laid out by IoRegs gives the IoRegs layout of one more entry |
| RecompilerProps.SelectedSnoc | src/emulator/shader/src/spirv_recompiler.cpp:336-337 | one more entry adds one declaration and that entry's component count |
| RecompilerProps.VertexOutputStepShape | src/emulator/shader/src/spirv_recompiler.cpp:333-342 | a set flag bit declares its output vector and appends exactly its binding (that variable, at the outputs' next offset, of the bit's component count) to the outputs only; only bit 0 adds the BuiltIn Position decoration, on that variable |
| RecompilerProps.FragmentInputStepShape | src/emulator/shader/src/spirv_recompiler.cpp:374-378 | a set flag bit declares its input vector undecorated and appends exactly its binding (that variable, at the primary attributes' next offset, of the bit's component count) to the primary attributes only |
| RecompilerProps.VertexOutputsShape | src/emulator/shader/src/spirv_recompiler.cpp:297-344 | the vertex outputs declare one output vector per set bit in table order; the outputs gain exactly the bindings IoRegs lays out for them (consecutive variables, packed one after the other from the old next offset), as many as set bits with their total component count; nothing else is bound |
| RecompilerProps.VertexOutputStepBinding | src/emulator/shader/src/spirv_recompiler.cpp:333-342 | after outputs laid out by IoRegs, the next set bit's output extends that layout by its own entry |
| RecompilerProps.VertexOutputsBindingsStep | src/emulator/shader/src/spirv_recompiler.cpp:331-342 | one more flag bit keeps the outputs laid out by IoRegs for the selected entries |
| RecompilerProps.VertexOutputsBindings | src/emulator/shader/src/spirv_recompiler.cpp:297-344 | the outputs afterwards are the old ones followed by IoRegs of the selected entries, numbered from the next variable id and placed from the old next offset |
| RecompilerProps.VertexOutputsDecorations | src/emulator/shader/src/spirv_recompiler.cpp:340-341 | the only decoration added is BuiltIn Position, present exactly when bit 0 is set, on the first variable created |
| RecompilerProps.FragmentInputsShape | src/emulator/shader/src/spirv_recompiler.cpp:346-381 | the fragment inputs declare one undecorated input vector per set bit in table order; the primary attributes gain exactly the bindings IoRegs lays out for them (consecutive variables, packed from the old next offset), as many as set bits with their total component count; nothing else is bound |
| RecompilerProps.FragmentInputStepBinding | src/emulator/shader/src/spirv_recompiler.cpp:374-378 | after inputs laid out by IoRegs, the next set bit's input extends that layout by its own entry |
| RecompilerProps.FragmentInputsBindingsStep | src/emulator/shader/src/spirv_recompiler.cpp:372-378 | one more flag bit keeps the primary attributes laid out by IoRegs for the selected entries |
| RecompilerProps.FragmentInputsBindings | src/emulator/shader/src/spirv_recompiler.cpp:346-381 | the primary attributes afterwards are the old ones followed by IoRegs of the selected entries, numbered from the next variable id and placed from the old next offset |
| RecompilerProps.FragmentOutputDeclares | src/emulator/shader/src/spirv_recompiler.cpp:386-390 | the colour output is declared as output variable "out_color", decorated with location 0 |
| RecompilerProps.FragmentOutputBinds | src/emulator/shader/src/spirv_recompiler.cpp:388-392 | out_color is bound twice in a row in the outputs, at [at, at+4) and [at+4, at+8); no other group changes |
| RecompilerProps.FragmentOutputShape | src/emulator/shader/src/spirv_recompiler.cpp:383-393 | the declaration, the location decoration and the double binding together; the outputs grow by 8 components |
| RecompilerProps.TempsCount | src/emulator/shader/src/spirv_recompiler.cpp:505-510 | k temporaries declare k variables and no decoration |
| RecompilerProps.TempsPushes | src/emulator/shader/src/spirv_recompiler.cpp:505-510 | the temporaries are pushed in order as consecutive variables of 4 components |
| RecompilerProps.TempsBindings | src/emulator/shader/src/spirv_recompiler.cpp:505-510 | temporary j is bound to [4j, 4j+4) past the existing temporaries |
| RecompilerProps.TempsKeepOthers | src/emulator/shader/src/spirv_recompiler.cpp:505-510 | the temporaries change no other group |
| RecompilerProps.InternalsCount | src/emulator/shader/src/spirv_recompiler.cpp:512-518 | k internals declare k variables and no decoration |
| RecompilerProps.InternalsPushes | src/emulator/shader/src/spirv_recompiler.cpp:512-518 | the internals are pushed in order as consecutive variables of 16 components, though typed as 4-vectors |
| RecompilerProps.InternalsBindings | src/emulator/shader/src/spirv_recompiler.cpp:512-518 | internal j is bound to [16j, 16j+16) past the existing internals |
| RecompilerProps.InternalsFromEmpty | src/emulator/shader/src/spirv_recompiler.cpp:512-518 | from no internals, internal j is bound to [16j, 16j+16), and the temporaries are untouched |
| RecompilerProps.InternalsKeepOthers | src/emulator/shader/src/spirv_recompiler.cpp:512-518 | the internals change no other group |
| RecompilerProps.ShortfallSmallIff | src/emulator/shader/src/spirv_recompiler.cpp:525-529 | with the size_t subtraction, the shortfall is 1 or 2 exactly when the program has 1 or 2 more primary registers than the inputs use; when the inputs use more, the subtraction wraps to more than 2 |
| RecompilerProps.ColorPatchShape | src/emulator/shader/src/spirv_recompiler.cpp:524-534 | a non-native-colour fragment program with a shortfall of 1 or 2 gets one "pa0_blend" input of twice the shortfall, bound at the end of the primary attributes; otherwise nothing changes |
| RecompilerProps.FlushKeepsTempsInternals | src/emulator/shader/src/spirv_recompiler.cpp:494-496 | flushing a primary-attribute struct touches neither temporaries nor internals |
| RecompilerProps.AttributeStepCases | src/emulator/shader/src/spirv_recompiler.cpp:434-470 | an attribute or uniform either only collects a field in its bank, or only creates its elements under the base name after the flush |
| RecompilerProps.ElementsKeepTempsInternals | src/emulator/shader/src/spirv_recompiler.cpp:462-469 | attribute and uniform elements touch neither temporaries nor internals |
| RecompilerProps.AttributeStepKeepsTempsInternals | src/emulator/shader/src/spirv_recompiler.cpp:411-471 | an attribute or uniform touches neither, and any open struct stays in the primary attributes |
| RecompilerProps.ParamStepKeepsTempsInternals | src/emulator/shader/src/spirv_recompiler.cpp:405-491 | no parameter category touches temporaries or internals |
| RecompilerProps.ScanKeepsTempsInternals | src/emulator/shader/src/spirv_recompiler.cpp:400-492 | the whole parameter loop touches neither |
| RecompilerProps.VertexOutputsKeepTempsInternals | src/emulator/shader/src/spirv_recompiler.cpp:297-344 | the vertex outputs touch neither |
| RecompilerProps.FragmentInputsKeepTempsInternals | src/emulator/shader/src/spirv_recompiler.cpp:346-381 | the fragment inputs touch neither |
| RecompilerProps.FragmentOutputKeepsTempsInternals | src/emulator/shader/src/spirv_recompiler.cpp:383-393 | the colour output touches neither |
| RecompilerProps.StageIoKeepsTempsInternals | src/emulator/shader/src/spirv_recompiler.cpp:498-503 | stage-fixed I/O touches neither |
| RecompilerProps.BeforeTempsEmpty | src/emulator/shader/src/spirv_recompiler.cpp:395-503 | when create_parameters reaches the temporaries, no temporary or internal is bound yet |
| RecompilerProps.TempsFromEmpty | src/emulator/shader/src/spirv_recompiler.cpp:505-510 | from no temporaries, temporary j is variable firstId + j bound to [4j, 4j+4); the internals are untouched |
| RecompilerProps.ColorPatchKeepsTempsInternals | src/emulator/shader/src/spirv_recompiler.cpp:524-534 | the colour patch touches neither |
| RecompilerProps.TailLayout | src/emulator/shader/src/spirv_recompiler.cpp:505-518 | temporaries then internals from empty banks: temporary j at [4j, 4j+4), internal j at [16j, 16j+16), the internals numbered right after the temporaries |
| RecompilerProps.CreateParametersLayout | src/emulator/shader/src/spirv_recompiler.cpp:395-537 | after create_parameters the temporaries bank holds exactly temporary j, bound to [4j, 4j+4), and the internals bank exactly internal j, bound to [16j, 16j+16), numbered consecutively after what came before |
| UsseDisasm.EPredicateStr | src/emulator/shader/src/usse_disasm.cpp:28-40 | empty exactly for no predicate; otherwise the text ends in a space; never "invalid" |
| UsseDisasm.EPredicateCodeStr | src/emulator/shader/src/usse_disasm.cpp:28-40 | "invalid" exactly for raw values 8 and up; below that, the predicate's text |
| UsseDisasm.EPredicateStrInjective | src/emulator/shader/src/usse_disasm.cpp:28-40 | different extended predicates print differently |
| UsseDisasm.SPredicateStr | src/emulator/shader/src/usse_disasm.cpp:41-49 | empty exactly for no predicate; never "invalid" |
| UsseDisasm.SPredicateCodeStr | src/emulator/shader/src/usse_disasm.cpp:41-49 | "invalid" exactly for raw values 4 and up; below that, the predicate's text |
| UsseDisasm.SPredicateStrAgrees | src/emulator/shader/src/usse_disasm.cpp:28-49 | a short predicate prints exactly as the extended predicate with the same meaning |
| UsseDisasm.SPredicateStrInjective | src/emulator/shader/src/usse_disasm.cpp:41-49 | different short predicates print differently |
| UsseDisasm.MoveDataTypeStr | src/emulator/shader/src/usse_disasm.cpp:51-61 | 2 to 3 characters starting with i, c or f; starting with i exactly for the integer types; never "invalid" |
| UsseDisasm.MoveDataTypeCodeStr | src/emulator/shader/src/usse_disasm.cpp:51-61 | "invalid" exactly for raw values 6 and up; below that, the type's text |
| UsseDisasm.MoveDataTypeStrInjective | src/emulator/shader/src/usse_disasm.cpp:51-61 | different data types print differently |
| UsseDisasm.BankPrefix | src/emulator/shader/src/usse_disasm.cpp:66-96 | one or two lower-case letters for the five printable banks; empty for any other bank |
| UsseDisasm.OperandToStr | src/emulator/shader/src/usse_disasm.cpp:63-105 | the text starts with the bank prefix and has more after it; without a prefix it starts with a digit; it contains a '.' exactly when the write mask is non-zero |
| UsseDisasm.BankPrefixRoundTrip | src/emulator/shader/src/usse_disasm.cpp:66-96 | a printable bank is read back from the front of its prefix, whatever follows |
| UsseDisasm.ParseOperandTextOf | src/emulator/shader/src/usse_disasm.cpp:66-104 | prefix, decimal number and optional ".swizzle" read back as that bank, that number and that swizzle text |
| UsseDisasm.OperandToStrRoundTrip | src/emulator/shader/src/usse_disasm.cpp:63-105 | an operand in a printable bank reads back as its bank and register number; the swizzle text is read back exactly when the write mask is non-zero |
| UsseDisasm.OperandToStrUnprintable | src/emulator/shader/src/usse_disasm.cpp:92-98 | the text of an operand in any other bank is only a number and does not read back as an operand |
| UsseDisasm.OperandToStrInjective | src/emulator/shader/src/usse_disasm.cpp:63-105 | two operands in printable banks with equal text have the same bank and the same number |

## Left out

- Types.SpirvVarRegBank.Push: `next_offset` is a `uint32_t`, but the model uses an unbounded `nat`. The 32-bit wrap after 2^32 register components is not modelled, because no shader comes near it.
- Types.SpirvVarRegBank.FindRegAt: the `uint32_t` sum `offset + size` is computed without wrap-around, for the same reason.
- RecompilerHelpers.GetTypeMatrix: requires a non-zero component count. In the source a zero count divides by zero, which is undefined behaviour; the same requirement reaches the scan through `WellFormedParameter`.
- The SPIR-V builder is abstract.
  - Type ids, `makeStructType`, `addMemberName` and the image and sampler types are values in `SpvType`.
  - Decorations other than those on variables are not kept; the `Block` decoration of an interface block is recorded as the struct type's `block` flag.
  - The builder's internals are not part of this model.
- `create_array_if_needed` returns its argument unchanged in the code (its body after the early return is dead), so the model leaves the type unchanged too.
- Half-float parameters are widened to 32-bit floats, as the code does. Floating-point values themselves are not modelled.
- The metadata accessors are not modelled; their results are fields of `Parameter` and `Program`. These include `parameter_name`, `parameter_name_raw`, `parameter_struct_name`, `parameter_generic_type`, `parameter_type`, `get_vertex_outputs`, `get_fragment_inputs`, `program_parameters` and `is_native_color`.
- The bit order of the vertex-output and fragment-input masks is taken to follow the order of the property tables: position is bit 0 and each later entry is the next bit. The SDK's flag values are not part of this model.
- `create_struct`'s `program_type` argument is unused by the code and is not passed. Its debug assertion that field ids and names have equal length is a precondition, which the scan's invariant `DeclInvariant` always meets.
- The debug assertions on auxiliary-surface and uniform-buffer parameters, and every `LOG_*` call, are left out; they do not change the result.
- UsseDisasm.OperandToStr: the debug-build `assert(false)` for a bank with no letter (usse_disasm.cpp:92-95) is not modelled; the model gives the release-build text, the register number with no prefix.
- `swizzle_to_str` is a function parameter of `OperandToStr`, because its definition is not part of this model. `opcode_str` is not modelled, because its table comes from a generated include.
- The following are not part of this model:
  - `convert_gxp_usse_to_spirv`, the instruction translator and decoder;
  - `generate_shader_body`, `convert_spirv_to_glsl` and `dump_spirv_disasm`
    and the file-based entry points;
  - shader-debug logging.
- Some helper methods stand for inline code of the source: `CreateElement`, `CreateElements`, `AddAttribute`, `ScanAttribute`, `ScanParameter`, `ScanParameters`, `CreateVertexOutput`, `CreateVertexOutputIfSet`, `CreateStageIo`, `CreateTemps`, `CreateInternals` and `PatchColorAttributes`. Together they perform the statements of `create_parameters`, in its order.
- Memory layout, references into the parameter blob and concurrency are not modelled; the recompiler works sequentially on values it owns.
