# Compiler backend and build driver, in Dafny

A model of the parts of the C_modern bootstrap compiler where a mistake would be silent, with proofs.

**Enum code generation.** Tagged unions lower to a tag and a byte array (`Layout`); `Representation` says, without the
lowering, which LLVM type every source type should become. `Ir` is the LLVM subset the enum
emitters write, with an interpreter over byte memory in which loads of undefined bytes and of odd bools give poison and
any access out of bounds or under-aligned, and any address of a struct member that is not there, is stuck. `EnumCode`
and `VariantCode` describe the emitted code, `EnumEmitter` holds the emitters as methods that append lines. `Frames`,
`EnumLoads`, `EnumRuns`, `EnumLoops` and `EnumTop` run the comparison code on arbitrary bytes, `EnumMeaning` says what
it computes, `EnumOrder`, `EnumCompare` and `EnumTotalOrder` what that amounts to on real values. `VariantRuns` and
`VariantCompare` do the same for building, matching and taking apart values, `AggregateEquality` for comparing structs
and arrays in chunks, with `Padding` saying which of their bytes carry the value. `Slices` and `Arena` cover checked
slicing and the arena allocator on 64-bit words.

**Build driver.** `Discovery` is the depth-first search over imports, `Targets` the resolution of linked libraries,
`TargetOrder` and `SharedEntry` what the two mean for the order assertion. `Incremental` says what one build does to the
build directory and what a build without the cache would do, and proves that the two agree after every history;
`Scratch` says what that build is in terms of the interfaces each import names, with no directory and no loading, and
what every record and object left behind then is; `EarlyCutoff` says which modules are recompiled and where the cache's
assumptions matter; `BuildDirectory` is the compile loop. `Namespacing` and `Namespacer` rename an imported module's
symbols, `NamespacedTexts` says which names and printed texts the renamed module has, `Externs` declares imported
symbols, `Merge` and `Merger` merge modules, `MergeOrder` shows that discovery order keeps the merge free of duplicates,
`MergedProgram` what the driver's merge of a discovered program holds, and `Pipeline` connects discovery to both.
`ProjectText` reads `build.toml` down to logical lines and arrays of strings, `ProjectScan` says which texts each of its
scanners accepts, `ProjectArrays` and `ProjectFile` that written files are read back; `BuildState` is the module state
file. `Arith` and `Wrappers` are shared.

Where code and intent part ways the code is followed and the difference is proved:

- `==` and `!=` on enums combine the tag and payload results with `and` and `or`, not `select`, so a bool misread from
  another variant's byte makes the answer poison even when the tags differ (`EnumOddBool.OddBoolPoisonsEquality`,
  `EnumCompare.EqualityIffClean`). The orderings use `select` throughout and are right on all bytes.
- An enum whose fields all have size 0 gets no payload member, yet building or taking apart a variant with fields
  addresses one, so that code is malformed (`VariantRuns.InitRuns` and `ExtractRuns` state exactly when it runs,
  `VariantRuns.EmptyFieldHasNoAddress` gives an enum).
- Aggregate equality reads padding, so for a type with any it is poison on every pair of values
  (`AggregateEquality.EqualityIffGapless`; a byte before a doubleword is `ByteBeforeWordIsPoison`).
- The arena's size check wraps, so requests whose end wraps to within the capacity are granted
  (`Arena.AllocateIff` states exactly which). The slice helper's signed test refuses bounds from 2^63 on
  (`Slices.ChainIsComposition`). The state file's format number wraps too (`BuildState.FormatAcceptedIff`).
- A module's leftover interface file is validated before it is replaced, so a build can fail where a build from scratch
  succeeds (`Incremental.IncrementalMatchesClean` states exactly when).
- An object written without its state record, or a build directory shared by targets that namespace a module
  differently, can serve a stale object (`EarlyCutoff`).
- The debug assertion on node order can fire after a successful target resolution (`SharedEntry.ResolveApp`): a target
  takes as entry a file that a library it links owns under another package. It cannot while the targets of a tree read
  the modules they share alike (`TargetOrder.AgreementKeepsOrder`); `Discovery.AssertionFiresIff` has the exact condition
  for one target.

- Two strings of an array in `build.toml` need no comma between them (`ProjectScan.ArrayTextsAre` has exactly the texts
  that are arrays, `MissingCommaIsRead` the missing comma).
- Module names that differ in slashes and underscores only share a qualifier (`NamespacedTexts.QualifiersCollideIff`);
  what is proved of namespacing and merging asks for qualifiers that differ.

Dotted names are paths of components in `Ir`, hashing and the front end (parsing, analysis, lowering to MIR, code
generation) are parameters, and the disk is a map per kind of artifact.

## Model

| member | source | states |
|---|---|---|
| `Arith.AlignToIsLeastMultiple` | compiler/codegen_llvm/backend_types.cpp:41-48 | AlignTo gives the smallest multiple of the alignment that is not below the value |
| `Arith.LeastMultipleUnique` | compiler/codegen_llvm/backend_types.cpp:41-48 | being that smallest multiple leaves one possible answer |
| `Arith.ProductStaysAligned` | compiler/codegen_llvm/backend_types.cpp:192-204 | an array of aligned elements has an aligned size |
| `Layout.LowerType` | compiler/codegen_llvm/backend_types.cpp:101-233 | the recursive lowering, with its loops, computes the lowering function, whose representation, size and alignment `Representation.LoweringStands` and `Layout.LoweringMatchesLlvm` fix |
| `Layout.LowerStruct` | compiler/codegen_llvm/backend_types.cpp:50-99 | the struct loop accumulates exactly the placement of its fields, packed as the type says: without gaps and with alignment 1 if packed |
| `Layout.LowerTuple` | compiler/codegen_llvm/backend_types.cpp:205-225 | the tuple loop accumulates exactly the placement of its fields |
| `Layout.LowerEnumLayout` | compiler/codegen_llvm/backend_types.cpp:287-346 | the enum loop computes payload size and alignment, the field offsets of every variant and the `{i64, [N x i8]}` aggregate |
| `Layout.LowerVariant` | compiler/codegen_llvm/backend_types.cpp:298-327 | the inner loop over one variant's fields places them at aligned offsets in order |
| `Layout.PlaceSeparated` | compiler/codegen_llvm/backend_types.cpp:67-96 | for every list of fields the placement keeps them aligned, in order, disjoint and inside the whole, with an alignment of 1, 2, 4 or 8 |
| `Layout.LoweringMatchesLlvm` | compiler/codegen_llvm/backend_types.cpp:101-233 | for every type, of any depth, the computed size and alignment are those of an independently stated LLVM layout of the emitted representation, and the alignment divides the size |
| `Layout.LaysUnique` | compiler/codegen_llvm/backend_types.cpp:101-233 | the LLVM layout relation is a function, so agreeing with it fixes size and alignment |
| `Layout.EnumMatchesLlvm` | compiler/codegen_llvm/backend_types.cpp:329-345 | the enum aggregate's size and alignment are those LLVM gives `{i64}` or `{i64, [N x i8]}` |
| `Layout.PayloadFieldFits` | compiler/codegen_llvm/backend_types.cpp:298-327 | every field of every variant lies inside the payload, at an offset its load may claim to be aligned to |
| `Layout.PayloadFieldsDisjoint` | compiler/codegen_llvm/backend_types.cpp:298-327 | fields of one variant never overlap |
| `Layout.EnumAlignment` | compiler/codegen_llvm/backend_types.cpp:329-345 | an enum is always aligned to 8 and its size is the least multiple of 8 holding tag and payload |
| `Layout.NoPayloadIffNoBytes` | compiler/codegen_llvm/backend_types.cpp:298-346 | an enum has no payload exactly when every field of every variant has size 0 |
| `Representation.LoweringStands` | compiler/codegen_llvm/backend_types.cpp:101-233 | for every type, of any depth, the emitted representation is the one an independent relation allows: one form per scalar, string and buffer, bools a byte wide inside structs, a packed flag equal to the type's, members the fields' own representations in order, and as enum payload the bytes of the largest variant |
| `Representation.StandsUnique` | compiler/codegen_llvm/backend_types.cpp:101-233 | that relation allows one representation per type |
| `Representation.PackedIsDense` | compiler/codegen_llvm/backend_types.cpp:62-97 | a packed struct has alignment 1 and the sum of its fields' sizes |
| `Representation.PayloadIsLargest` | compiler/codegen_llvm/backend_types.cpp:298-346 | the payload is as large as the largest variant, a variant taking what LLVM gives the struct of its fields |
| `Representation.PayloadOffsetsFirstFit` | compiler/codegen_llvm/backend_types.cpp:298-327 | every payload field starts at the first offset its alignment allows behind the fields before it |
| `Representation.PayloadAlignmentIsLargest` | compiler/codegen_llvm/backend_types.cpp:298-346 | the payload's alignment is the largest of any field of any variant |
| `Padding.LoweringCovered` | compiler/codegen_llvm/backend_types.cpp:101-233 | for every type the mask of value and padding bytes, laid out member by member from the emitted representation, has exactly the computed size and alignment |
| `Padding.MemberAtOffset` | compiler/codegen_llvm/backend_types.cpp:50-99 | in the bytes of a struct each member's own value and padding bytes stand at that member's offset |
| `Padding.EnumValueMask` | compiler/codegen_llvm/backend_types.cpp:329-345 | an enum's tag and payload carry its value and only the bytes that round its size up are padding |
| `Padding.MaskCountsData` | compiler/codegen_llvm/backend_types.cpp:50-99 | the mask marks as many bytes as the scalars of the representation take |
| `Padding.NoPaddingIffSizesAdd` | compiler/codegen_llvm/backend_types.cpp:50-99 | a type has no padding exactly when its size is the sum of the sizes of its scalars |
| `Ir.StoreThenLoad` | compiler/codegen_llvm/backend_executable_aggregate.cpp:242-281 | what is stored through a type is what a load through the same type returns, poison included |
| `Ir.LoadFits` | compiler/codegen_llvm/backend_executable_aggregate.cpp:242-281 | whatever bytes are loaded, the result is a value of the type, without padding |
| `Ir.RunsIsSingleAssignment` | compiler/codegen_llvm/backend_executable_numeric.cpp:591-737 | code that runs assigns every temporary once and uses only literals, inputs and earlier temporaries |
| `EnumEmitter.Emitter.EmitFieldPointer` | compiler/codegen_llvm/backend_executable_aggregate.cpp:62-80 | appends the payload address and, for a non-zero offset, the field address, and returns the right one of the two |
| `EnumEmitter.Emitter.EmitScalarComparison` | compiler/codegen_llvm/backend_executable_numeric.cpp:273-332 | appends one comparison, unsigned for bool and unsigned integers, signed otherwise; `EnumOrder.IntReadsIff` ties that choice to the range of each integer type |
| `EnumEmitter.Emitter.EmitNestedEnum` | compiler/codegen_llvm/backend_executable_numeric.cpp:354-483 | the recursive nested comparison appends exactly the specified code and returns eq, lt and gt |
| `EnumEmitter.Emitter.EmitOrdered` | compiler/codegen_llvm/backend_executable_numeric.cpp:334-508 | a field of any comparable type appends exactly the specified code |
| `EnumEmitter.Emitter.EmitVariants` | compiler/codegen_llvm/backend_executable_numeric.cpp:397-483 | the descending loop over variants appends exactly the specified code and returns the name of the selected result |
| `EnumEmitter.Emitter.EmitFields` | compiler/codegen_llvm/backend_executable_numeric.cpp:403-466 | the descending loop over one variant's fields does likewise |
| `EnumEmitter.Emitter.EmitEnumCompare` | compiler/codegen_llvm/backend_executable_numeric.cpp:591-737 | the comparison of two enum values appends exactly the specified code, in each of its equality, ordering and tag-only forms |
| `EnumEmitter.Emitter.EmitVariantInit` | compiler/codegen_llvm/backend_executable_aggregate.cpp:215-281 | appends the code that builds a value, or nothing when the number of operands is wrong |
| `EnumEmitter.Emitter.EmitVariantMatch` | compiler/codegen_llvm/backend_executable_aggregate.cpp:283-337 | appends the tag test |
| `EnumEmitter.Emitter.EmitVariantExtract` | compiler/codegen_llvm/backend_executable_aggregate.cpp:339-425 | appends the code that takes a payload field out, or nothing when the variant has no such field |
| `EnumEmitter.Emitter.EmitAggregateEquality` | compiler/codegen_llvm/backend_executable_numeric.cpp:123-179 | the chunk loop terminates and appends exactly the specified code |
| `EnumLoads.LoadPairRuns` | compiler/codegen_llvm/backend_executable_numeric.cpp:403-430 | loading a field of any variant from both operands, whatever they hold, addresses an existing member, is in bounds and aligned and gives the reading of those bytes |
| `EnumLoops.VariantsRun` | compiler/codegen_llvm/backend_executable_numeric.cpp:397-483 | the code of the two loops runs on any bytes and leaves the nested selection over variants and fields |
| `EnumLoops.OrderRuns` | compiler/codegen_llvm/backend_executable_numeric.cpp:334-508 | the code comparing one field, nested to any depth, runs on any bytes and leaves its eq, lt and gt |
| `EnumTop.CompareRuns` | compiler/codegen_llvm/backend_executable_numeric.cpp:591-737 | the whole comparison runs on any two byte images, disturbs nothing outside its own names and slots, and leaves its meaning |
| `EnumOrder.DenoteIsOrder` | compiler/codegen_llvm/backend_executable_numeric.cpp:334-508 | on bytes of real values the eq, lt and gt of a field are equality and the lexicographic order, nested to any depth |
| `EnumOrder.IntReadsIff` | compiler/codegen_llvm/backend_executable_support.cpp:490-502 | bytes read by the comparison's signedness give exactly the number that lies in the type's range, stated per type in figures, and is congruent to them |
| `EnumOrder.IntMeaning` | compiler/codegen_llvm/backend_executable_numeric.cpp:310-325 | comparing two integer fields, signed or unsigned as emitted, compares the numbers they stand for |
| `EnumOrder.DenoteSameVariant` | compiler/codegen_llvm/backend_executable_numeric.cpp:456-474 | the selects keyed on the tag pick exactly the fields of the values' own variant; everything misread as other variants is dropped |
| `EnumMeaning.NoPayloadNoFields` | compiler/codegen_llvm/backend_executable_numeric.cpp:374-379 | an empty payload means no variant has fields, so comparing tags alone is right |
| `EnumTotalOrder.LessIsTrichotomous` | compiler/codegen_llvm/backend_executable_numeric.cpp:591-737 | of two values of one type exactly one is less, or they are equal |
| `EnumTotalOrder.LessIsTransitive` | compiler/codegen_llvm/backend_executable_numeric.cpp:591-737 | the order is transitive |
| `EnumTotalOrder.RepresentedHasType` | compiler/codegen_llvm/backend_executable_numeric.cpp:591-737 | bytes that represent a value at a type represent a value of that type |
| `EnumCompare.CompareIsOrder` | compiler/codegen_llvm/backend_executable_numeric.cpp:591-737 | each ordering operator's meaning is the lexicographic comparison on (variant, field 0, field 1, ...), for all values and whatever padding and unused bytes hold; so is equality of two values of one variant |
| `EnumCompare.EqualityIffClean` | compiler/codegen_llvm/backend_executable_numeric.cpp:510-589 | == and != are right exactly when the tags agree or the right operand reads clean as the left one's variant; otherwise the answer is poison |
| `EnumCompare.KnownPayloadReadsClean` | compiler/codegen_llvm/backend_executable_numeric.cpp:510-589 | fully defined bytes read clean for payloads without bools, or where odd bools keep their low bit |
| `EnumTop.ComparisonIsLexicographic` | compiler/codegen_llvm/backend_executable_numeric.cpp:591-737 | running the emitted ordering code gives the lexicographic answer for every enum type, all values and every operator, in bounds, aligned and in single-assignment form |
| `EnumTop.EqualityIsExactlyClean` | compiler/codegen_llvm/backend_executable_numeric.cpp:656-690 | running the emitted equality code always finishes in single-assignment form, disturbs nothing, and its answer is right if and only if the bytes read clean, poison otherwise |
| `EnumTop.DefinedBytesCompareRight` | compiler/codegen_llvm/backend_executable_numeric.cpp:591-737 | all six operators are right on defined bytes without bools, in single-assignment form and without disturbing anything |
| `EnumOddBool.OddBoolPoisonsEquality` | compiler/codegen_llvm/backend_executable_numeric.cpp:560-585 | for `A(bool) | B(u8)`, every B whose byte is neither 0 nor 1 makes A == B poison |
| `VariantRuns.FilledIsBuilt` | compiler/codegen_llvm/backend_executable_aggregate.cpp:248-281 | storing the arguments in turn over zeros leaves the tag, each argument at its own offset, and zeros elsewhere |
| `VariantRuns.InitRuns` | compiler/codegen_llvm/backend_executable_aggregate.cpp:215-281 | for any argument types variant_init runs if and only if the enum has a payload or the variant no fields, and then leaves that value, touching nothing else |
| `VariantRuns.MatchRuns` | compiler/codegen_llvm/backend_executable_aggregate.cpp:283-337 | variant_match of any value with a known tag answers whether the tags are equal |
| `VariantRuns.ExtractRuns` | compiler/codegen_llvm/backend_executable_aggregate.cpp:339-425 | variant_extract runs if and only if the enum has a payload; then it never leaves it, whatever variant the value really is, and reads the bytes of that field |
| `VariantRuns.MatchBuilt` | compiler/codegen_llvm/backend_executable_aggregate.cpp:215-337 | building and matching runs if and only if the enum has a payload or the variant no fields, and then matches exactly the value's own variant |
| `VariantRuns.ExtractBuilt` | compiler/codegen_llvm/backend_executable_aggregate.cpp:215-425 | building and extracting field k runs if and only if the enum has a payload, and then returns argument k unchanged |
| `VariantRuns.EmptyFieldHasNoAddress` | compiler/codegen_llvm/backend_executable_aggregate.cpp:62-80 | the code that would build a variant whose only field is a struct without fields cannot run |
| `VariantRuns.InstructionsApart` | compiler/codegen_llvm/backend_executable_aggregate.cpp:215-281 | the temporaries of different instructions of a function never clash |
| `VariantCompare.BuiltRepresents` | compiler/codegen_llvm/backend_executable_aggregate.cpp:215-281 | a value built from arguments represents the enum value with those arguments |
| `VariantCompare.BuiltValuesCompare` | compiler/codegen_llvm/backend_executable_aggregate.cpp:215-281 | building two values and comparing them in one run gives the lexicographic answer, in single-assignment form |
| `VariantCompare.InstructionsCompare` | compiler/codegen_llvm/backend_executable_aggregate.cpp:215-281 | the same for any three different instructions of a function, whose temporaries need not be assumed apart |
| `AggregateEquality.ChunksRun` | compiler/codegen_llvm/backend_executable_numeric.cpp:146-175 | the chunks taken by the loop cover exactly the bytes from the current offset to the end |
| `AggregateEquality.ChunksTaken` | compiler/codegen_llvm/backend_executable_numeric.cpp:123-179 | eight bytes are taken as long as there are eight, then the rest at once if 1, 2 or 4 bytes are left, else single bytes until that is so |
| `AggregateEquality.WordsEqual` | compiler/codegen_llvm/backend_executable_numeric.cpp:168-171 | comparing two loaded chunks compares their bytes, and is poison if one is undefined |
| `AggregateEquality.EqualityComparesAllBytes` | compiler/codegen_llvm/backend_executable_numeric.cpp:123-179 | == and != of two aggregates answer whether all bytes agree when all are defined, and are poison otherwise |
| `AggregateEquality.EqualityIffGapless` | compiler/codegen_llvm/backend_executable_numeric.cpp:123-179 | the answer is right exactly for types whose size is the sum of their scalars' sizes and values without undefined bytes, and poison for every other type or value |
| `AggregateEquality.ByteBeforeWordIsPoison` | compiler/codegen_llvm/backend_executable_numeric.cpp:123-179 | for a struct of a byte and a doubleword == and != are poison on every pair of values |
| `Slices.ChainIsComposition` | compiler/codegen_llvm/backend_executable_aggregate.cpp:584-658 | any chain of slices, of any length, traps exactly when some step's bounds are out of range as numbers or at least 2^63, and otherwise denotes the composed range, inside the original |
| `Slices.ShortChainTrapsIff` | compiler/codegen_llvm/backend_executable_aggregate.cpp:584-658 | below a length of 2^63 a chain traps exactly when some step's bounds are out of range as numbers |
| `Slices.HugeLengthsTrap` | compiler/codegen_llvm/backend.cpp:1098-1117 | with a length of 2^63 or more the helper refuses upper bounds that are in range |
| `Arena.MaskRoundsDown` | compiler/codegen_llvm/backend_executable_aggregate.cpp:484-491 | anding with minus a power of two rounds down to a multiple of it |
| `Arena.AlignedIsAlignTo` | compiler/codegen_llvm/backend_executable_aggregate.cpp:484-491 | for every used and every power of two the emitted mask form is rounding up to the alignment, modulo 2^64 |
| `Arena.AllocateIff` | compiler/codegen_llvm/backend_executable_aggregate.cpp:475-505 | the emitted arithmetic does what unbounded integers would if and only if the end of the block stays below 2^64 or wraps to more than the capacity |
| `Arena.StrayIsGranted` | compiler/codegen_llvm/backend_executable_aggregate.cpp:498-505 | every other request is granted although the arena has no room for it |
| `Arena.AllocateKeeps` | compiler/codegen_llvm/backend_executable_aggregate.cpp:475-505 | under that condition a block lies in the arena, aligned, above all earlier ones, and is given exactly when it fits; null changes nothing |
| `Arena.Allocator.New` | compiler/codegen_llvm/backend_executable_aggregate.cpp:475-505 | over any run of requests used never decreases or exceeds the capacity and the blocks handed out are aligned, disjoint and inside |
| `Arena.WrappedRequestIsGranted` | compiler/codegen_llvm/backend_executable_aggregate.cpp:498-505 | a request of 2^64 - 1 bytes is granted and moves used back |
| `Discovery.Search.Visit` | compiler/driver/build_graph.cpp:501-597 | the recursive search keeps visited modules complete and ordered, adds only modules reachable from the one visited, and fails only with a walk to the reason |
| `Discovery.Search.Discover` | compiler/driver/build_graph.cpp:641-708 | discovery terminates and succeeds exactly when everything reachable can be read and no reachable module is on a cycle; then the nodes are exactly the reachable modules, once each, after their imports, the entry last |
| `Discovery.SaneIffNoBadWalk` | compiler/driver/build_graph.cpp:501-597 | an import graph has an unreadable or cyclic reachable module exactly when some walk from the entry ends in one or returns to itself |
| `Discovery.RefusedAtEntry` | compiler/driver/build_graph.cpp:501-597 | an entry that does not parse, is internal without an identity or imports itself is refused |
| `Discovery.OrderedNoBadWalk` | compiler/driver/build_graph.cpp:593-596 | nodes ordered behind their imports rule out every such walk |
| `Discovery.ReachedNotExternal` | compiler/driver/build_graph.cpp:575-578 | no module but the entry is both discovered and owned by a linked library |
| `Discovery.TopologicalOrderHolds` | compiler/driver/build_graph.cpp:710-731 | the debug assertion holds exactly if every import that has a node has it earlier |
| `Discovery.AssertionFiresIff` | compiler/driver/build_graph.cpp:710-731 | after a successful discovery the assertion fires exactly when a library owns the entry too and some module imports it back |
| `Targets.Resolver.Resolve` | compiler/driver/build_graph.cpp:733-838 | target resolution terminates; what it returns unfolds the link declarations, is sound at every level and holds at every level exactly what discovery finds there, and what it refuses has a reason: an unknown, unsupported or non-library target, a cycle, shared modules or a failed discovery |
| `Targets.Resolver.CollectAll` | compiler/driver/build_graph.cpp:793-806 | collecting owners reports an error exactly when two different linked libraries share a module, and otherwise yields all their paths |
| `Targets.Resolver.CollectOwned` | compiler/driver/build_graph.cpp:423-455 | collecting one library reports an error exactly when one of its transitive modules has another owner |
| `Targets.CyclesAreRefused` | compiler/driver/build_graph.cpp:743-751 | cyclic link declarations have no resolution |
| `Targets.OwnModulesFound` | compiler/driver/build_graph.cpp:575-578 | a target's own modules, its entry aside, belong to no linked library |
| `TargetOrder.AgreementKeepsOrder` | compiler/driver/build_graph.cpp:710-838 | while the targets of a resolved tree read the modules they share alike, the order assertion holds for every target of the tree |
| `TargetOrder.OwnerHasImports` | compiler/driver/build_graph.cpp:575-578 | where paths identify modules, whatever a target's own module imports belongs to the target or to a library it links, and is another file |
| `TargetOrder.LoneEntry` | compiler/driver/build_graph.cpp:575-578 | an entry all of whose imports belong to linked libraries is its target's only node |
| `SharedEntry.ResolveApp` | compiler/driver/build_graph.cpp:733-838 | on a project of a library and a target that share the entry file under different packages resolution succeeds and the order assertion fails |
| `SharedEntry.ResolvedOutOfOrder` | compiler/driver/build_graph.cpp:457-499 | it fails however that target is resolved |
| `Incremental.CompiledMatchesClean` | compiler/driver/builder.cpp:94-240 | compiling one module with the cache succeeds exactly when it does without it and no leftover interface is refused, and leaves the same interface, record and object |
| `Incremental.LoadedIff` | compiler/driver/builder_merge.cpp:518-544 | loading succeeds exactly when every import's interface is there and validates, and then gives exactly the imported names, each the interface at the key of the first import of that name |
| `Incremental.LoadedAreGenuine` | compiler/mci/mci.cpp:1460-1511 | every loaded interface was made for this target and for the package, module, kind and file its import expects |
| `Incremental.RecordDetermines` | compiler/driver/build_support.cpp:432-446 | with injective hashes a matching state record leaves one possible object |
| `Incremental.CompiledKeepsFaithful` | compiler/driver/builder.cpp:146-214 | compiling a module keeps every object what its state record says, whether the compilation succeeds or fails |
| `Incremental.IncrementalMatchesClean` | compiler/driver/builder.cpp:86-240 | from any faithful directory a build succeeds exactly when a build from scratch does and no leftover interface is refused, and ends with the same interfaces, records and objects |
| `Incremental.HistoriesStayFaithful` | compiler/driver/builder.cpp:86-240 | every history of builds that finish, fail or are killed, merges, lost files and foreign interfaces keeps the directory faithful |
| `Incremental.EveryHistoryBuildsClean` | compiler/driver/builder.cpp:86-240 | after every such history a successful build leaves every module, entries of executables aside, with the object of a build from scratch |
| `Incremental.EmptyDirectoryBuildsClean` | compiler/driver/builder.cpp:86-240 | in an empty directory the build succeeds exactly when the build from scratch does |
| `Scratch.CleanHasRun` | compiler/driver/builder.cpp:86-240 | the cache-free build yields a run in which every module was checked, lowered and emitted against exactly the interfaces its imports name |
| `Scratch.RunIsClean` | compiler/driver/builder.cpp:86-240 | every such run is the cache-free build: same interfaces, same objects |
| `Scratch.EveryHistoryBuildsFromScratch` | compiler/driver/builder.cpp:86-240 | after every history a build succeeds exactly when such a run exists and no leftover interface is refused, and leaves every module, entries of executables aside, with the object of that run |
| `Scratch.CompiledLeaves` | compiler/driver/builder.cpp:94-240 | a module that checks leaves its interface even if lowering or emission fails then, one that does not leaves the directory untouched; objects and records change only together |
| `Scratch.ReusedIff` | compiler/driver/build_support.cpp:432-446 | an object is kept exactly when object, interface and record are there and the record tells every setting, the text and the interface of each imported name; otherwise object and record are written and the new record tells them |
| `Scratch.MismatchIsRefused` | compiler/mci/mci.cpp:1460-1511 | a missing or mismatched interface, imported or left over, fails the module and nothing is written |
| `Scratch.OwnInterfacesLoad` | compiler/driver/builder_merge.cpp:518-544 | an import of an earlier module of the same build is never refused |
| `Scratch.RebuildIsNotRefused` | compiler/driver/builder.cpp:150-167 | after a successful build the next one, whatever the texts, is not refused for a leftover interface |
| `EarlyCutoff.RecompiledIff` | compiler/driver/builder.cpp:129-148 | right after a complete build a module is recompiled exactly when its own text or settings changed or some name it imports got another interface, was added or was dropped, imports taken by name and key from the builds' interfaces |
| `EarlyCutoff.DirectImportsDecide` | compiler/driver/builder.cpp:129-148 | with the same distinct imports a module is recompiled exactly when it changed itself or the interface at the key of one of its direct imports did |
| `EarlyCutoff.EditRecompilesOnlyItself` | compiler/driver/builder.cpp:168-214 | an edit that leaves its module's interface as it was recompiles that module and no other |
| `EarlyCutoff.TornWriteServesStaleObject` | compiler/driver/builder.cpp:190-206 | writing the object but not the record, then undoing the edit, makes the next build reuse the object of the undone edit |
| `EarlyCutoff.NamespacingIsNotRecorded` | compiler/driver/builder.cpp:183-186 | the record does not say whether symbols were namespaced, so two targets that share a directory and disagree reuse the wrong object |
| `BuildDirectory.Builder.LoadImportedInterfaces` | compiler/driver/builder_merge.cpp:518-544 | the import loop succeeds exactly when every import's interface validates and then holds exactly the imported names, each with the interface at the key of its first import |
| `BuildDirectory.Builder.CompileModule` | compiler/driver/builder.cpp:94-240 | one iteration of the compile loop changes the directory exactly as specified, on every path; what that leaves is `Scratch.CompiledLeaves` and `Scratch.ReusedIff` |
| `BuildDirectory.Builder.CompileModuleGraph` | compiler/driver/builder.cpp:86-240 | the loop compiles modules in order and stops at the first failure, keeping what was written |
| `BuildDirectory.Builder.BuildTarget` | compiler/driver/builder.cpp:342-345 | a build of a target on a faithful directory ends faithful, succeeds exactly when the clean build does and nothing left over is refused, then matches it module by module and leaves the objects of a from-scratch run |
| `Namespacing.QualifyInjective` | compiler/driver/builder_merge.cpp:225-230 | different symbols of a module get different qualified names |
| `Namespacing.OthersNotOwn` | compiler/driver/builder_merge.cpp:225-230 | dot-free names and other modules' qualified symbols never look like the module's own qualified symbols when qualifiers are dot-free and distinct |
| `Namespacing.ClearIffMentions` | compiler/driver/builder_merge.cpp:546-610 | a module meets the condition for renaming exactly when its externs are named apart from its definitions and none of the names it declares, refers to by type or looks up is one of its own symbols, qualified |
| `Namespacing.DistinctQualifiersKeepMeaning` | compiler/driver/builder_merge.cpp:546-610 | namespacing keeps the meaning of every module that mentions only undotted names and symbols qualified by other, dot-free qualifiers, enums named like the module included |
| `Namespacing.TyKeeps` | compiler/driver/builder_merge.cpp:268-283 | every named type, nested anywhere in a type, resolves as before |
| `Namespacing.ConstKeeps` | compiler/driver/builder_merge.cpp:298-314 | procedures and enum types inside constants, nested anywhere, resolve as before |
| `Namespacing.InstrKeeps` | compiler/driver/builder_merge.cpp:403-421 | types and function or global targets of an instruction resolve as before; texts derived from types need no condition |
| `Namespacing.NamespacingPreservesMeaning` | compiler/driver/builder_merge.cpp:546-610 | replacing every reference of the module by the declaration it resolves to gives the same result before and after namespacing |
| `Namespacing.ExternalsStayFixed` | compiler/driver/builder_merge.cpp:546-610 | references to externs, and to types and globals under already qualified names, stay as they are |
| `NamespacedTexts.QualifiersCollideIff` | compiler/driver/builder_merge.cpp:225-230 | two module names have one qualifier exactly when they differ in slashes and underscores only, and no qualifier has a slash |
| `NamespacedTexts.DeclaredNamesQualified` | compiler/driver/builder_merge.cpp:546-598 | definitions and undotted types and globals are declared as qualifier, dot, old name; externs and dotted names as before |
| `NamespacedTexts.DefinitionsOfModulesApart` | compiler/driver/builder_merge.cpp:565-578 | definitions of modules with different dot-free qualifiers get different names |
| `NamespacedTexts.NamespacedTextsAgree` | compiler/driver/builder_merge.cpp:403-421 | an instruction without a looked-up symbol shows its types as renamed: a type instruction prints its own renamed type, a variant instruction the renamed enum, a dot and the variant; other texts stay |
| `NamespacedTexts.VariantOfOwnEnum` | compiler/driver/builder_merge.cpp:403-421 | a variant instruction on an enum of the module reads qualifier, enum and variant |
| `Namespacer.Unit.Namespace` | compiler/driver/builder_merge.cpp:546-610 | the five passes over a module in place compute the namespaced module, whose names and texts are those of `NamespacedTexts.DeclaredNamesQualified` and `NamespacedTextsAgree` |
| `Namespacer.Unit.NameFunctions` | compiler/driver/builder_merge.cpp:565-578 | definitions are renamed and externs are not, with signatures rewritten along the way |
| `Namespacer.Unit.NameGlobals` | compiler/driver/builder_merge.cpp:580-598 | names of globals without a dot are qualified and their types and constants rewritten |
| `Merge.OnceIffDefinitionsFirst` | compiler/driver/builder_merge.cpp:704-729 | without clashing definitions every function name ends up exactly once if and only if no extern precedes the definition of its name, and the definition is what is kept |
| `Merge.CountMerged` | compiler/driver/builder_merge.cpp:704-729 | a name occurs in the merge once per definition, plus once if an extern came first |
| `Merge.MergedFnsAre` | compiler/driver/builder_merge.cpp:704-729 | functions are kept unchanged: every definition, every extern that nothing of its name precedes, and nothing else |
| `Merge.MergesGrow` | compiler/driver/builder_merge.cpp:693-795 | what is kept of a list's beginning stays in front |
| `Merge.GlobalsOnce` | compiler/driver/builder_merge.cpp:746-758 | merged globals declare every name once, in order of first declaration |
| `Merge.MergedTypesAre` | compiler/driver/builder_merge.cpp:741-746 | types are kept unchanged, the first of each name and nothing else |
| `Merge.MergedGlobalsAre` | compiler/driver/builder_merge.cpp:746-758 | a merged global's name keeps the contents it was first declared with |
| `Merger.Merging.AppendFunction` | compiler/driver/builder_merge.cpp:704-729 | appending a function fails exactly on a second definition and otherwise keeps list and seen-sets those of the merge |
| `Merger.MergeBuildUnits` | compiler/driver/builder_merge.cpp:693-795 | merging fails exactly when two definitions share a name and otherwise returns the merge of the other units followed by the entry; `MergedProgram.MergeProgram` says what that holds for a discovered program |
| `MergedProgram.MergeProgram` | compiler/driver/builder_merge.cpp:693-795 | merging the units of a discovered program, the entry last, always succeeds: every function name occurs exactly once, as the definition where a module has one, nothing else occurs, and imports, types and globals are each there once, as the first module that has them declares them |
| `MergedProgram.SequenceIsOrder` | compiler/driver/builder_merge.cpp:735-793 | with distinct paths and the entry last the merge takes the modules in the order of the units |
| `MergedProgram.MergeGathers` | compiler/driver/builder_merge.cpp:735-793 | imports, type names and global names of all modules occur once each, with the contents of the first declaration |
| `MergedProgram.AllInOrder` | compiler/driver/builder_merge.cpp:735-793 | what a module contributes follows what the modules before it contribute |
| `MergedProgram.NamespacedAlike` | compiler/driver/builder_merge.cpp:565-578 | the function names merging relies on are those namespacing gives |
| `Externs.Extended.AddImportedExternDeclarations` | compiler/driver/builder_merge.cpp:612-691 | the loops over imports extend types, functions and globals exactly as specified, keeping the sets of existing names in step |
| `Externs.Extended.AddGlobals` | compiler/driver/builder_merge.cpp:673-689 | a global declaration is added with those of its qualified names that are new, and dropped when none is |
| `Externs.TypesDeclaredOnce` | compiler/driver/builder_merge.cpp:644-649 | what the module had stays in front, exactly the imported types are declared next to it, and no name twice unless it was before |
| `Externs.FunctionsDeclaredOnce` | compiler/driver/builder_merge.cpp:651-671 | what the module had stays in front, and a name occurs as often as before, or once if only an import exports a function under that qualified name |
| `Externs.GlobalsDeclaredOnce` | compiler/driver/builder_merge.cpp:673-689 | what the module had stays in front, exactly the qualified names of imported globals are declared next to it, and no name twice unless it was before |
| `Externs.FunctionsDeclaredFrom` | compiler/driver/builder_merge.cpp:651-671 | every function added is an extern with the qualified name and the signature of an exported function of an import |
| `Externs.TypesDeclaredFrom` | compiler/driver/builder_merge.cpp:644-649 | every type added is a type exported by an import, unchanged |
| `Externs.GlobalsDeclaredFrom` | compiler/driver/builder_merge.cpp:673-689 | every global added has the contents of an exported global of an import and only names of it, qualified |
| `Externs.ExternsGrow` | compiler/driver/builder_merge.cpp:612-691 | what earlier imports add stays in front of what later ones add |
| `MergeOrder.PreparedShape` | compiler/driver/builder_merge.cpp:546-691 | after externs and namespacing a definition is a plain or qualified symbol of its module and an extern is foreign or qualified by an import |
| `MergeOrder.ExternsBehind` | compiler/driver/builder.cpp:181-187 | an extern never has the name of something its own or a later module defines |
| `MergeOrder.DiscoveryOrderMergesOnce` | compiler/driver/builder_merge.cpp:693-795 | the merge of a program in discovery order never fails and holds every function name exactly once, as the definition if any module defines it |
| `Pipeline.DiscoveredIsTopological` | compiler/driver/build_graph.cpp:593-596 | what discovery returns is in the order incremental compilation relies on |
| `Pipeline.DiscoveredImportsEarlier` | compiler/driver/build_graph.cpp:593-596 | what discovery returns is in the order merging relies on |
| `ProjectText.Trim` | compiler/driver/project.cpp:163-175 | the two scans strip whitespace from both ends |
| `ProjectText.StripComment` | compiler/driver/project.cpp:214-247 | the character loop keeps everything before the first hash outside a string |
| `ProjectText.CountBracketDelta` | compiler/driver/project.cpp:76-111 | the character loop counts brackets outside strings |
| `ProjectText.ReadLogicalProjectLines` | compiler/driver/project.cpp:113-161 | the line loop joins lines of an array until its brackets close and reports an array that never does |
| `ProjectText.ParseStringArray` | compiler/driver/project.cpp:356-428 | the character loop parses an array of strings or fails |
| `ProjectScan.SpaceIs` | compiler/driver/project.cpp:163-175 | whitespace is the space and the characters 9 to 13 |
| `ProjectScan.StrippedAt` | compiler/driver/project.cpp:214-247 | what is kept of a line ends at its first hash outside strings that no backslash protects |
| `ProjectScan.CommentSomewhere` | compiler/driver/project.cpp:214-247 | every line has such an end |
| `ProjectScan.DeltaCounts` | compiler/driver/project.cpp:76-111 | the count is opening minus closing brackets outside strings that no backslash protects |
| `ProjectScan.ArrayTextsAre` | compiler/driver/project.cpp:356-428 | a text parses to a list of strings exactly when it is brackets around whitespace, strings with the four escapes that read as the list, and commas that each follow a string |
| `ProjectScan.MissingCommaIsRead` | compiler/driver/project.cpp:356-428 | two strings without a comma between them are read as two strings |
| `ProjectArrays.DepthPieces` | compiler/driver/project.cpp:76-111 | strings never change the bracket depth, whatever brackets, quotes or backslashes they contain |
| `ProjectArrays.StrippedLine` | compiler/driver/project.cpp:214-247 | stripping a line removes its comment and nothing else, whatever hashes its strings contain |
| `ProjectArrays.ReadLayout` | compiler/driver/project.cpp:113-161 | however an array is laid out over lines it becomes one logical line |
| `ProjectFile.FileRead` | compiler/driver/project.cpp:113-161 | a file of headers, single values, arrays in any layout, blank lines and comments, in any order, is read to one logical line per item |
| `ProjectFile.EntryJoined` | compiler/driver/project.cpp:113-161 | an entry whose brackets stay open becomes one line, contents joined by spaces, at the first line after which none is open |
| `ProjectFile.LineAlone` | compiler/driver/project.cpp:113-161 | every other line with content is a logical line of its own |
| `ProjectFile.UnclosedArray` | compiler/driver/project.cpp:113-161 | an array that is never closed is reported, and what preceded it is read |
| `ProjectArrays.EntryParses` | compiler/driver/project.cpp:356-428 | the joined line parses back to the list of strings |
| `ProjectArrays.ArrayRoundTrip` | compiler/driver/project.cpp:76-161 | every list of strings, escaped and broken over lines at any element boundaries, with blank lines, indentation, comments and an optional trailing comma, is read back exactly |
| `BuildState.WriteModuleBuildState` | compiler/driver/build_support.cpp:403-430 | the writer produces the state text for any number of imports |
| `BuildState.LoadModuleBuildState` | compiler/driver/build_support.cpp:296-401 | the loader, with its import loop, accepts and reads exactly what the format function does |
| `BuildState.LoadReads` | compiler/driver/build_support.cpp:296-401 | a file in the written form is loaded exactly when its format number is 2 modulo 2^32, value by value; only the text 1 sets the flag |
| `BuildState.LoadedOnlyIf` | compiler/driver/build_support.cpp:296-401 | nothing but such files is loaded, a missing last newline aside |
| `BuildState.ParseArrayLength` | compiler/support/diagnostics.cpp:74-87 | the digit loop, wrapping at every step, gives the number modulo 2^64 |
| `BuildState.FormatAcceptedIff` | compiler/driver/build_support.cpp:323-337 | a format number is accepted exactly when it is 2 modulo 2^32 |
| `BuildState.WrappedFormatAccepted` | compiler/driver/build_support.cpp:323-337 | 4294967298 is accepted |
| `BuildState.LoadedClean` | compiler/driver/build_support.cpp:296-401 | no loaded field holds a newline and no loaded import name an equals sign |
| `BuildState.RoundTripIffClean` | compiler/driver/build_support.cpp:296-430 | a written state loads back to itself exactly when no field has a newline and no import name an equals sign |

## Left out

- EnumTop.ComparisonIsLexicographic: payload fields are builtin integers, bools and nested enums; float fields (ordered `fcmp` and NaN), pointer fields (ordering refused), string and struct fields, and distinct or alias integers, whose signedness is taken from the printed type name, are not modelled.
- EnumTop.EqualityIsExactlyClean: undefined and poison bytes are one kind of byte that makes a load poison, the strongest reading; an undefined byte that a machine happens to fix would be more forgiving.
- Layout.LoweringMatchesLlvm: does not model 64-bit wrap-around of sizes, looking type names up, substituting type parameters, `const`, aliases and distinct types, or the refusal of types the backend cannot lower.
- Ir.RunsIsSingleAssignment: single assignment is shown for one instruction's code; the bounds-check emitter numbers its temporaries with the instruction index plus the operand index, so uniqueness over a whole function is not claimed.
- VariantRuns.ExtractBuilt: looking up the variant by its name and the payload index by its text are left out; the instruction's type is the field's type.
- AggregateEquality.EqualityIffGapless: a value is its bytes, each defined or not; that one undefined byte makes a whole scalar poison when an aggregate is loaded is not followed. Packed structs, whose comparison the emitter does not send here, are excluded.
- Slices.ChainIsComposition: pointers are offsets in elements from the start of the base; element sizes and the insertion of pointer and length into the result are not modelled.
- Slices and Arena: what the emitted lines compute is stated on 64-bit words; the lines themselves are not written out as `Ir` code.
- EnumEmitter.Emitter.EmitOrdered: fields the comparison is not defined for, and the error the emitter reports for them, are excluded.
- Arena.Allocator.New: requests must land, which `Arena.AllocateIff` shows to be exact; the arena's four-word record in memory is a field of the allocator.
- Discovery.Search.Discover: how an import name is looked up in search roots and known modules, including ambiguity and access to internal modules, is a parameter; artifact keys are assumed to name one module each.
- Targets.Resolver.Resolve: the choice of mode and environment passed down to linked targets and the target triple are left out; a clash or failed discovery is stated for some sound, discovered resolution of the linked libraries.
- Incremental.EveryHistoryBuildsClean: import names of a module are taken to be distinct, as merging parsed sources leaves them, so the sorted hash list is a map; unreadable or malformed artifact files, and sources that change while a build runs, are not modelled.
- Scratch.MismatchIsRefused: paths are taken to be in the normal form the source brings them to before comparing them.
- Incremental.EmptyDirectoryBuildsClean: relinking and archiving decided by file times are left out, and with them the final executable; entries of executables keep only their record.
- Namespacing.NamespacingPreservesMeaning: the names of field-address bases in globals, which the renamer leaves alone, the rendered text of constants and initialisers kept as text are not part of the model.
- Merge.GlobalsOnce: initialisers of a global declared with several names, some of them dropped, are not followed.
- MergeOrder.DiscoveryOrderMergesOnce: functions only; names are dot-free, qualifiers distinct, and no foreign function has the name of one of the entry's own definitions.
- ProjectArrays.ArrayRoundTrip: the meaning of sections, keys and values other than arrays of strings is left out; characters are code units and whitespace is that of the C locale.
- BuildState.RoundTripIffClean: failing writes and the creation of directories are left out.
- Diagnostics: only success or failure is kept, not the text or the order of messages.
- Front end: lexer, parser, semantic analysis, MIR lowering, generic specialisation and the serialisation of interface files are parameters of the model.
- Host tools, processes, command lines, dumps and test selection: not modelled.
- Names: replacing unusual characters in emitted symbol names is not modelled; it is not injective in general.
