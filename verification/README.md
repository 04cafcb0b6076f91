# Verified model of the binding generator and its runtimes

The repository generates Go code that binds JSON, CBOR, SQL rows, configuration, cache keys and
cloud datastore records to structs, and ships small runtimes the generated code calls. This project
models its hardest parts in Dafny and proves what they promise.

- **Emitted-code compilers.** `KeyTree` turns a set of member names into nested byte switches;
  `MemberWalk` dispatches one JSON member through that tree or through the unescaping route;
  `JsonEncode` settles at generation time which commas are static; `SqlGroup` turns a tree of struct
  plans into an indexed row grouper, and `SqlGroupClash` runs the one plan shape it groups wrongly. Each is a plan-to-statements emitter with an evaluator, and the
  evaluation is proved against a declarative specification.
- **CBOR codecs.** `CborWire` has the item heads and the skip of RFC 8949, `CborItems` its well-formed items as a
  grammar, `CborMeaning` what an item denotes under a plan, `CborOrder` the key order,
  `CborCodec` the two container shapes as functions, `CborEncoder` and `CborDecoder` the emitted loops,
  the latter over a reader that advances and with the compiled key tree, and `CborEnds` when a decoder stops
  short of its item.
- **Graph algorithms.** `UsageCollector` propagates usage bits over a possibly cyclic type graph;
  `DependsOn` walks dependency chains with a path-local visited set.
- **Batching.** `CommitChunks` cuts mutations greedily by size; `DynamoBatch` maps declined writes back
  to their values.
- **Single flight.** `SingleFlight` is the conversion memo over its disk cache as a machine of
  interleaved steps.
- **Cache keys.** `CacheKey` is the framing of typed nested keys, and the emitter that writes it.
- **Configuration and flags.** `Interpolate` expands references, `ConfigOverlay`, `ConfigLoad`,
  `Provenance` and `Redaction` load, list and redact the layered configuration, `ArgvParser` parses
  flags.

`ByteStrings` holds the byte strings and the option type they share. The whole project is checked with
`dafny verify dfyconfig.toml`.

## What the proofs turned up

- `omitempty` together with `omitzero` on a string, any or pointer field makes `omitCondition`
  (generator/emit.go:1099-1101) return one test spelled twice over, which is no Go expression:
  `JsonEncode.OmitConditionMeaning` says exactly when, `JsonEncode.BothOptionsOnAString` is an instance.
- A slice reached only through a nested struct field gets statements that use an index map and no
  declaration of it, because `emitSQLIndexDecls` does not descend where `emitSQLChildren` does:
  `SqlGroup.UsesDeclared` says exactly when uses and declarations agree.
- A slice named `Composite` directly in a slice gets a key variable of the same name as the composite key of
  the slice it is in, in the same block (generator/emit.go:403-406), so that `:=` assigns it: the child is
  looked up under its own key twice over, and an element of a second parent is not appended.
  `SqlGroup.ParentsKept` says exactly which plans keep every parent's key in every run,
  `SqlGroup.ClashJoins` what the others look up, and `SqlGroupClash.CompositeSlice` is a scan of two rows that
  is not their group-by.
- Where a CBOR field expects an array or a map and meets one of indefinite length, or expects an int or
  uint and meets a number the platform cannot hold, the emitted decoder returns the error it holds, which is
  none (generator/cborhttp_emit.go:228, 259, 271, 303 and 342): the struct ends there without an error.
  `CborEnds.EndsExactly` says exactly when decoding is free of it, `CborEnds.IndefiniteCuts`,
  `CborEnds.TooWideCuts`, `CborEnds.ArrayShapeEnds` and `CborEnds.MapShapeEnds` show it, and
  `CborEnds.DefiniteConsumed` is what a caller can check beforehand.
- Two members of one struct under one name make the map shape lose the first of them: the compares of equal
  literals run in turn and the last one answers (`KeyTree.CompileNames`, `CborDecoder.Dispatch`).
  `CborCodec.RoundTripExactly` is the exact condition; `CborCodec.SharedNameNoRoundTrip` says which values fail.
- A name of 65536 bytes or more sorts by its length modulo 65536: `CborOrder.LengthFirstExactly` says between
  which lengths the order still holds.
- A commit envelope that shrinks as mutations are added lets a split beat the greedy one
  (`CommitChunks.ShrinkingEnvelope`): the greedy cut is optimal for every list and limit exactly when the envelope
  does not shrink from two mutations on (`CommitChunks.OptimalExactly`).
- An attribute with no variant set equals nothing, itself included, so a declined item that holds one is
  never matched: `DynamoBatch.EqualItemIsEquality` says equality on exactly the well-formed values.
- A NUL in a text can make keys collide. Composite grouping keys are injective exactly where one column of a
  key chain at most may hold one (`SqlGroup.CompositeExactly`), memo keys where hooks or values are free of it
  (`SingleFlight.MemoKeyExactly`), and digested texts only where every part is (`SingleFlight.PreimageExactly`).
- A cached conversion goes through JSON (generator/hooks.go:207-228), which replaces bytes that are not UTF-8. The
  disk changes what a later build is told exactly when some outcome does not read back as it was:
  `SingleFlight.StoreSound`, `SingleFlight.SurvivesExactly`.
- The process key is deleted ahead of the falsy fill, so a target that knows it and has a falsy choice for it
  brings it back: `ConfigLoad.LaterLayerWins`.
- A dependon condition that reads a secret shows it in the listing: `Redaction.SecretConditionShows` is two loads
  that differ in one secret alone and are listed differently.

## Model

| member | source | states |
|---|---|---|
| KeyTree.EmitKeyTree | generator/emit.go:743-820 | on every admissible input the emitted nested switches settle the candidate the input matches, the last of several, and leave the state alone otherwise, every byte access in bounds; one literal compare at most where no two candidates can match one input, unless some differ nowhere |
| KeyTree.EmitCases | generator/emit.go:759-816 | the cases of a switch over lengths or over a byte cover every candidate, each case deciding among its own group |
| KeyTree.GroupBy | generator/emit.go:751-758 | the groups are the candidates by key, each key once in first-appearance order, none empty |
| KeyTree.BestSplit | generator/emit.go:775-788 | the chosen position tells apart as many candidates as any, and -1 means that every position leaves one byte |
| KeyTree.SplitExists | generator/emit.go:738-741 | two or more distinct literals always differ at some position under the shortest length, so the recursion ends |
| KeyTree.NeverStuck | generator/emit.go:738-742 | the sequential fallback is never needed for candidates that cannot match one input |
| KeyTree.QuotedPrefix | generator/emit.go:696-699 | a quoted tree-safe name begins an input only when the input's own name is that name |
| KeyTree.CandidatesUnambiguous | generator/emit.go:721-732 | distinct tree-safe names give literals no input can match two of, as prefixes or exactly |
| KeyTree.ChosenUnique | generator/emit.go:738-741 | one index answers to an input: the last of the names it matches, which are all one name |
| KeyTree.CompileNames | generator/emit.go:721-835 | for every list of names the compiled tree reports the tree-safe name the input carries, the last member under it, or none; with at most one literal compare when the names are distinct |
| KeyTree.TracedExactly | generator/emit.go:743-820 | a run that counts its literal compares as it makes them gives the same result and makes exactly those counted for it |
| MemberWalk.UnescapeRender | jsonbind/parser.go:1087-1157 | unescaping any spelling of a name, in every mix of raw bytes, short escapes and \u escapes with their surrogate pairs, gives the text it denotes under section 7 of RFC 8259, and that text alone |
| MemberWalk.DenotesExactly | jsonbind/parser.go:1087-1157 | the text a spelling denotes, said with the digits' places, the table of short escapes, the surrogates of RFC 2781 and the byte sequences of RFC 3629, is one text: the one put together |
| MemberWalk.Hex4Reads | jsonbind/parser.go:1138-1157 | four hexadecimal digits of either case, most significant first, are read as the code unit they spell |
| MemberWalk.ShortEscapes | jsonbind/parser.go:1100-1117 | the escapes of two characters and what they stand for are those of section 7 of RFC 8259 |
| MemberWalk.Combines | jsonbind/parser.go:1118-1127 | a pair of surrogates gives the one code point it encodes |
| MemberWalk.Utf8Reads | jsonbind/parser.go:1123-1129 | a code point is written in UTF-8 that reads back as it, a surrogate alone as the replacement character |
| MemberWalk.Utf8Only | jsonbind/parser.go:1123-1129 | no other bytes read as that code point |
| MemberWalk.ScanRender | jsonbind/parser.go:487-551 | scanning any spelling stops at its closing quote and reports whether something was escaped |
| MemberWalk.ScannedIsSpelled | jsonbind/parser.go:487-551 | conversely, whatever the scan accepts is a spelling in those terms |
| MemberWalk.ColonExactly | jsonbind/parser.go:105-134 | the colon found is the next character that is no white space of section 2 of RFC 8259 |
| MemberWalk.TreeSafeExactly | generator/emit.go:694-709 | a name fits the tree exactly when it is not empty and each of its bytes is ASCII below DEL that spells itself |
| MemberWalk.FastAgrees | generator/emit.go:643-667 | where a quoted name begins the unread input, the slow route would scan and look up that same name |
| MemberWalk.TreeAgrees | generator/emit.go:643-667 | the arm and the position the tree settles are those of the slow route |
| MemberWalk.WalkMember | generator/emit.go:629-688 | the tree first and the unescaping switch on a miss take, for every name escaped or not, the arm of the slow route, with the same errors |
| MemberWalk.Dispatch | generator/emit.go:620-688 | the same of the tree the emitter itself compiles |
| MemberWalk.ArmOfDenotedName | generator/emit.go:669-686 | the arm chosen for a spelled name is the arm of the name it denotes: a field, a consumed-only name or an unknown one |
| MemberWalk.ArmExactly | generator/emit.go:669-686 | a name leads to the first field of that name, else to a member that is read over, else nowhere |
| JsonEncode.OmitConditionMeaning | generator/emit.go:1090-1156 | the emitted condition is ill-formed exactly when both options fall on a string, any or pointer; otherwise the member is dropped exactly when its value is empty under omitempty or zero under omitzero |
| JsonEncode.BothOptionsOnAString | generator/emit.go:1099-1101 | a string with both options gets its test twice over |
| JsonEncode.NeedsWroteFlag | generator/emit.go:1058-1069 | the flag is needed exactly when some member or the rest map follows nothing but omittable members |
| JsonEncode.EmitMember | generator/emit.go:989-1022 | behind the code of the members before it, the member's code leaves the document of one more member in every run |
| JsonEncode.EmitTail | generator/emit.go:1024-1028 | the rest loop and the closing brace complete the document in every run |
| JsonEncode.EmitEncode | generator/emit.go:971-1038 | for every member list, omission pattern and rest map the emitted encoder writes the present members in declaration order and then the rest entries by sorted key, joined by single commas inside braces; the flag is declared exactly when some statement reads it |
| JsonEncode.WrittenFields | generator/emit.go:971-1038 | the members written are the fields that neither of their options drops |
| JsonEncode.LoopWrites | generator/emit.go:1357-1378 | the rest loop's comma is right before every entry, whatever was written ahead of it |
| ByteStrings.SortedUnique | jsonbind/append.go:268-282 | keys in bytewise order are the only arrangement of their kind, so the order of the rest map is settled |
| SqlGroup.EmitIndexDecls | generator/emit.go:336-355 | the declarations are the index maps of the slices directly in a plan, or a missing group key is refused |
| SqlGroup.EmitSQLChildren | generator/emit.go:381-416 | the statements emitted are those of the plan, each with its key variable, its parent's key variable and the block it opens, or some reached slice has no single group key |
| SqlGroup.EmitScanRows | generator/emit.go:298-334 | a scanner is emitted exactly when the root and every reached slice have one group key |
| SqlGroup.HasKeyExactly | generator/emit.go:321-334 | a plan has a group key exactly when one scalar of it and no other is marked, and the key is that scalar's column |
| SqlGroup.FillReads | generator/emit.go:357-379 | a struct is filled exactly when the row has the column of each of its scalars, those of nested structs included, and each one's reader takes it; each scalar then holds what its reader made of its column |
| SqlGroup.CompositeInjective | generator/emit.go:406 | where at most one column of a key chain may hold a NUL, at as many levels as it stands for, composite keys are equal exactly when the key paths are |
| SqlGroup.CompositeExactly | generator/emit.go:406 | composite keys of a chain, columns repeated or not, are injective if and only if at most one of its columns may hold a NUL |
| SqlGroup.CompositeCollides | generator/emit.go:406 | an instance: two key paths with a NUL at different levels share a composite key |
| SqlGroup.ExpectedIs | generator/emit.go:406-409 | where at most one column of the chain may hold a NUL, an index map holds exactly the key paths seen, each at its key's place in first-appearance order under its parent |
| SqlGroup.KeysInOrder | generator/emit.go:309-313 | the keys of a level are listed by the row they first appear in, and exactly those that appear |
| SqlGroup.KeysAreOf | generator/emit.go:309-313 | each key of a level is listed once, and a key is listed exactly when some row has it |
| SqlGroup.GroupStep | generator/emit.go:309-314 | one more row changes one element: its slices gain the row, its scalars stay those of its first row, its neighbours do not change |
| SqlGroup.GroupSkips | generator/emit.go:405 | a NULL key adds nothing to its level |
| SqlGroup.NullStep | generator/emit.go:405-413 | the statements of a slice whose key is NULL empty its key variable and change nothing else, at that level or below |
| SqlGroup.LocateStep | generator/emit.go:406-409 | looking the composite key up finds the element of the row's key path or appends it, filled from the row |
| SqlGroup.ChildStep | generator/emit.go:402-413 | where its key variable does not take its parent's name, one slice's statements turn its group-by into the group-by with the row, here and below, and leave the variables of the block but its own, or fail exactly when the row cannot be read |
| SqlGroup.FieldsStep | generator/emit.go:381-416 | the same of all the slices of an element, in order, sharing the variables of one block |
| SqlGroup.RowStep | generator/emit.go:308-317 | one row keeps the result the group-by of the rows so far and every index map exact, and fails just when its root key is NULL or missing or it cannot be read |
| SqlGroup.ScanIsGroupBy | generator/emit.go:298-319 | where no slice directly in a slice is named Composite and one column of each root-to-slice key chain at most may hold a NUL, the emitted scanner returns the nested group-by at any depth, every element filled by the readers from the first row with its key path, fails exactly when some row cannot be read, and never meets an undeclared variable or map or a missing element |
| SqlGroup.ScanRows | generator/emit.go:304-318 | the loop over the rows returns, of the same plans, that group-by with its elements so filled, or the error |
| SqlGroup.GroupOfRows | generator/emit.go:306-318 | at every level the elements are those some row opens, being the first with its key path, in the order of those rows, and each holds what the readers make of the row that opens it |
| SqlGroup.OpenersAre | generator/emit.go:308-314 | the keys of a level are those its opening rows bring, one each, in their order |
| SqlGroup.KeepsParentExactly | generator/emit.go:402-408 | a slice's statements leave its parent's key as it was, in every run, if and only if its own key variable has another name |
| SqlGroup.ChildScopes | generator/emit.go:404-413 | whatever a slice's statements do below, the variables they leave are those they found and the slice's key |
| SqlGroup.ValueInExactly | generator/emit.go:404-409 | a variable is the one of the innermost block that declares its name |
| SqlGroup.NamedComposite | generator/emit.go:402-403 | a slice's key variable is its parent's composite key variable if and only if the slice's name is Composite to its letters and digits |
| SqlGroup.IdentRunes | generator/emit.go:418-426 | an identifier keeps exactly the letters and digits of ASCII, and every character beyond it |
| SqlGroup.ParentsKept | generator/emit.go:381-416 | of a plan whose slices are declared, every statement of the scanner keeps its parent's key in every run if and only if no slice directly in a slice is named Composite and no slice of the root has the identifier root |
| SqlGroup.ClashJoins | generator/emit.go:404-409 | a slice whose key variable takes its parent's name is looked up under its own key twice over, whatever the parent's was |
| SqlGroupClash.CompositeSlice | generator/emit.go:402-413 | the instance: two rows under one root, two parents and one child key, of a plan that meets every other condition, leave the second parent's slice empty where the group-by has an element |
| SqlGroup.UsesDeclared | generator/emit.go:336-416 | the index maps used are those declared exactly when no slice is reached only through a struct field |
| SqlGroup.SliceUnderStruct | generator/emit.go:336-416 | the smallest failing plan: a struct field that holds one slice has its index map used and none declared |
| SqlGroup.DeclaredOnce | generator/emit.go:305-349 | no index map is declared twice, the root's included, exactly when the identifiers are distinct and none is root |
| CborWire.HeadRoundTrip | generator/cborhttp_emit.go:116-157 | reading a head written with the shortest argument gives its major type and argument and leaves what follows (section 3.1 of RFC 8949) |
| CborWire.HeadBytes | generator/cborhttp_emit.go:116-157 | a head is three bits of major type, five of information and the shortest argument in network order (section 3 of RFC 8949) |
| CborWire.HeadReads | generator/cborhttp_emit.go:220-245 | a head is read exactly when its information is not reserved and its argument is all there, in network order |
| CborWire.NetworkOrder | generator/cborhttp_emit.go:220-245 | an argument's bytes are read as the number they write in base 256, most significant first |
| CborWire.SkipExtends | generator/cborbind_emit.go:189-191 | a well-formed item, of definite or indefinite length, ends at the same place whatever follows it |
| CborItems.SkipExactly | generator/cborbind_emit.go:189-191 | what a skip leaves is what follows a well-formed data item of section 3 of RFC 8949, with a head of any width, at any nesting and of definite or indefinite length, and there is nothing else it skips |
| CborOrder.KeyIsEncoding | generator/cborhttp_emit.go:80-95 | under 65536 bytes the generator's sort key is the key's CBOR encoding |
| CborOrder.KeyOrder | generator/cborhttp_emit.go:80-95 | comparing sort keys of names under 65536 bytes is length first, then bytes (section 4.2.1 of RFC 8949) |
| CborOrder.KeyInjective | generator/cborhttp_emit.go:83-95 | different names of any length have different sort keys |
| ByteStrings.LessTotal | generator/cborbind_emit.go:102-105 | the comparison is a strict total order |
| CborOrder.LengthFirstExactly | generator/cborhttp_emit.go:83-95 | between names of two lengths the generator's order is length first if and only if the lengths are equal or the shorter one is under 256 or counts less modulo 65536 |
| CborOrder.SortPermutes | generator/cborbind_emit.go:102-106 | sorting keeps the members |
| CborOrder.SortOrders | generator/cborbind_emit.go:102-106 | members with distinct names come out strictly ordered |
| CborOrder.SortIgnoresOrder | generator/cborbind_emit.go:90-108 | members with distinct names sort to one list, however declared |
| CborCodec.RoundTrip | generator/cborbind_emit.go:131-206 | in both shapes, decoding the encoding of any in-range struct value followed by any bytes gives the value and leaves exactly those bytes; in the map shape for structs whose members have distinct names |
| CborCodec.KindRoundTrip | generator/cborhttp_emit.go:116-332 | the same of every field kind: scalars of every width, slices, fixed arrays, byte fields and string-keyed maps |
| CborCodec.ElemRoundTrip | generator/cborhttp_emit.go:336-364 | the same of every element kind, nested structs included |
| CborMeaning.ScalarHeads | generator/cborhttp_emit.go:116-135 | a boolean is written as simple value 20 or 21, a number under major type 0 or 1, a text under 3, a float as its eight bytes under 7 and 27 |
| CborMeaning.EncodesDocument | generator/cborbind_emit.go:100-148 | in both shapes the encoding of a struct's value is one well-formed data item, and the item denotes the value |
| CborMeaning.DecodesDocument | generator/cborbind_emit.go:150-206 | a data item without containers of indefinite length or numbers too wide for the platform decodes exactly when it denotes a value of the struct, gives that value and leaves what follows, whatever the widths of its heads, the order of its pairs and its unknown keys |
| CborMeaning.UnnamedStays | generator/cborbind_emit.go:154-191 | a field no pair names keeps what it held |
| CborMeaning.ZeroFieldsBlank | generator/cborbind_emit.go:150-154 | what the fields of a struct hold first is Go's zero value, at every depth |
| CborMeaning.PaddedExactly | generator/cborhttp_emit.go:272-296 | a fixed array holds the elements read in their order and zero values behind them, fixed bytes the bytes and zeroes |
| CborMeaning.KeepExactly | generator/cborbind_emit.go:154-206 | a cut leaves every field but the one it was in as it was |
| CborMeaning.PutReplaces | generator/cborhttp_emit.go:297-310 | an entry read into a map replaces the one under its key and no other, and the keys stay in order |
| CborCodec.MapStructSpells | generator/cborbind_emit.go:154-191 | a map whose pairs spell the members in any order, at any depth, with any well-formed items under unknown keys among them, reads as the struct and is consumed exactly |
| CborCodec.AnyArrangement | generator/cborbind_emit.go:154-191 | any arrangement of a value's own pairs among unknown ones decodes as its canonical encoding does |
| CborCodec.ArrayStructSpells | generator/cborbind_emit.go:193-206 | an array of the members' spellings in declaration order reads as the struct |
| CborCodec.SliceSpells | generator/cborhttp_emit.go:253-282 | a counted list of spelled elements reads as the slice, and as a fixed array at least as long, the rest of it zero |
| CborCodec.LongArrayRefused | generator/cborhttp_emit.go:272-276 | a list longer than the fixed array is refused as over the limit |
| CborCodec.MapSpells | generator/cborhttp_emit.go:297-310 | a counted list of spelled pairs reads as the map they assign in document order |
| CborCodec.PutAscending | generator/cborhttp_emit.go:148-154 | entries written under sorted keys read back as the same map |
| CborCodec.DeclarationOrder | generator/cborbind_emit.go:90-108 | two structs whose fields have the same names and encodings encode alike in the map shape, however declared |
| CborCodec.SharedNameLost | generator/cborbind_emit.go:163-188 | of two members under one name one is never assigned, whatever the document |
| CborCodec.SharedNameNoRoundTrip | generator/cborbind_emit.go:163-188 | no value that holds something there survives the map shape |
| CborCodec.RoundTripExactly | generator/cborbind_emit.go:131-206 | where the other structs give no name twice and every member can hold more than its zero value, every value of a struct round-trips in the map shape if and only if its own names are distinct |
| CborEnds.EndsExactly | generator/cborhttp_emit.go:220-364 | a struct decoded without an error is what its document means and ends where its item ends if and only if no field on the way, at any depth and in either shape, met a container of indefinite length or a number the platform's int cannot hold; with 64-bit ints it ends there if and only if no such container was met |
| CborEnds.ReadIntExactly | generator/cborhttp_emit.go:324-332 | an integer of a width is read exactly when the head is of a number that so many bits hold, signed or not |
| CborEnds.ReadBoolExactly | generator/cborhttp_emit.go:234-237 | a boolean is read exactly from simple value 20, as false, and 21, as true |
| CborEnds.ReadFloatExactly | generator/cborhttp_emit.go:238-241 | a float is read exactly from major type 7 with eight bytes, as those bytes |
| CborEnds.ReadScalarExactly | generator/cborhttp_emit.go:220-251 | a scalar field is read exactly when the head at the front gives one of its type, and then is that |
| CborEnds.ReadsMeaning | generator/cborbind_emit.go:150-206 | where no field meets either, decoding gives the document's meaning and refuses exactly what has none |
| CborEnds.DefiniteConsumed | generator/cborhttp_emit.go:220-310 | at every platform width, an item that holds no array or map of indefinite length, and no number 64 bits hold and the platform's word does not, decodes exactly when it has a meaning, is consumed exactly and read as it means |
| CborEnds.IndefiniteCuts | generator/cborhttp_emit.go:253-303 | a slice, fixed-array or map field is cut by a head of indefinite length, with nothing stored and no error |
| CborEnds.TooWideCuts | generator/cborhttp_emit.go:226-229 | an int or uint field is cut by a number the platform cannot hold, once it is read |
| CborEnds.ArrayShapeEnds | generator/cborbind_emit.go:199-205 | in the array shape a cut at any member ends the struct after the members before it, with no error |
| CborEnds.MapShapeEnds | generator/cborbind_emit.go:158-191 | in the map shape a cut at any member ends the struct after the pairs before it, with no error |
| CborEncoder.AppendStructTo | generator/cborbind_emit.go:131-146 | the emitted encoder extends its slice by the encoding of the struct |
| CborEncoder.AppendKindTo | generator/cborhttp_emit.go:116-157 | the same of a field value |
| CborDecoder.Dispatch | generator/cborbind_emit.go:163-183 | the compiled tree and then the switch settle a key as the last member under it, whichever names the tree can hold |
| CborDecoder.CompileTrees | generator/cborbind_emit.go:165-182 | every struct's tree, compiled from its member names, is what the decoders ask for, and is refused exactly where a name the tree cannot hold is given twice |
| CborDecoder.DecodePairs | generator/cborbind_emit.go:158-191 | the loop over the pairs answers and leaves what the specification of the map shape says |
| CborDecoder.DecodeInOrder | generator/cborbind_emit.go:200-204 | the same of the array shape |
| CborDecoder.DecodeStruct | generator/cborbind_emit.go:150-206 | the emitted decoder is the specification, on every input, errors included |
| CborDecoder.DecodeKind | generator/cborhttp_emit.go:220-332 | the same of every field arm |
| CborDecoder.Reader.Text | generator/cborbind_emit.go:159-160 | a string read moves the reader by exactly the string |
| UsageCollector.Collector.Collect | generator/dynamobind.go:365-390 | one visit keeps what is recorded justified, leaves everything it touched closed, and lists each planned type once |
| UsageCollector.Collector.Recurse | generator/dynamobind.go:394-409 | the non-key bits of a type reach every type its fields contain |
| UsageCollector.Collector.Pass | generator/firestorebind.go:368-387 | passing bits to one field's types keeps the same, and marks them as nested |
| UsageCollector.Collector.CollectAll | generator/dynamobind.go:232-236 | over all roots, on any finite type graph, each type ends with exactly the union of its own root usage and the non-key usage of the roots that reach it, in any root order; it fails exactly when some such type cannot be planned |
| UsageCollector.LeastFixpoint | generator/dynamobind.go:365-409 | recorded usage that is justified, closed and holds the roots is exactly the union each root brings, and so is the set of nested types |
| UsageCollector.EdgeExactly | generator/dynamobind.go:399-406 | one struct contains another exactly when some field of it is that struct or wraps it at some depth |
| DependsOn.Walk.DependencyHidden | configbind/provenance.go:294-314 | the walk that remembers only its own path decides, on cyclic parent maps too, whether a failing condition can be reached off that path |
| DependsOn.Walk.HiddenKeys | configbind/provenance.go:128-154 | the hidden keys are exactly those from which some failing condition is reachable |
| DependsOn.HiddenRule | configbind/provenance.go:292-293 | one failed condition or one hidden parent hides a key, and nothing else does |
| DependsOn.HiddenCut | configbind/provenance.go:294-314 | a reachable failing condition is reachable through some parent without coming back to the key |
| CommitChunks.ChunksByCommitSize | firestorebind/batch.go:274-290 | the chunks are non-empty, concatenate to the input, each of several elements fits, none could take the next element, and they are the greedy cut |
| CommitChunks.GreedyIsOptimal | firestorebind/batch.go:264-290 | when sizes are non-negative and the envelope does not shrink from two elements on, no split into runs a commit carries has fewer chunks than the greedy cut |
| CommitChunks.OptimalExactly | firestorebind/batch.go:264-290 | the greedy cut is optimal for every list, sizes and limit if and only if the envelope does not shrink from two elements on |
| CommitChunks.GreedyShape | firestorebind/batch.go:274-290 | the greedy cut concatenates to the input, is of runs a commit carries, and none could have taken one more |
| CommitChunks.StaysAhead | firestorebind/batch.go:264-290 | a greedy cut that has come at least as far needs no more chunks for the remainder |
| CommitChunks.ShrinkingEnvelope | firestorebind/batch.go:274-290 | wherever one element more shrinks the envelope, from two on, there are elements and a limit of which the greedy cut needs several commits and one would do |
| CommitChunks.MeasureAll | firestorebind/batch.go:218-231 | the first value that cannot be sized or does not fit alone is the one refused |
| CommitChunks.MeasuredExactly | firestorebind/batch.go:218-231 | a value passes exactly when it can be sized and a commit of it alone is within the limit |
| CommitChunks.MutateAll | firestorebind/batch.go:197-243 | the first value that cannot be sent is refused with nothing committed; otherwise requests within the limit go out, cut greedily, up to the first one rejected, and when none is every value is committed once, in order, and the keys are those of the answers in order |
| DynamoBatch.EqualItemIsEquality | dynamobind/batch.go:150-161 | the item comparison is equality, on exactly the items that hold no invalid attribute |
| DynamoBatch.EqualAttributeIsEquality | dynamobind/batch.go:163-219 | the same of attributes at any nesting |
| DynamoBatch.MatchDeclined | dynamobind/batch.go:71-84 | the values taken are among the chunk and encode to exactly the declined puts the chunk holds, duplicates counted |
| DynamoBatch.StoreAll | dynamobind/batch.go:40-87 | over all chunks, the unprocessed values encode to the declined puts of the answered chunks |
| DynamoBatch.NothingLost | dynamobind/batch.go:40-87 | the encodings of the unprocessed values are the declined multiset exactly when each response declines only what its chunk sent |
| DynamoBatch.WrittenPlusUnprocessed | dynamobind/batch.go:40-87 | when each response declines only what its request carried, the values are those written and those that come back, duplicates counted: the latter encode to the declined puts and the former to all the others |
| CacheKey.KeyArray | cachekeybind/cachekeybind.go:109-117 | the key of a slice is its count and its framed element keys |
| CacheKey.AppendKeyArray | cachekeybind/cachekeybind.go:195-202 | the appending form extends its buffer by the slice's key, for any closure that appends element keys |
| CacheKey.OptionalAppends | cachekeybind/cachekeybind.go:185-191 | the same of an optional |
| CacheKey.KeyUnique | cachekeybind/cachekeybind.go:56-117 | two keys of one type followed by any bytes are equal only for equal values and equal remainders, at any nesting |
| CacheKey.FieldListUnique | generator/cachekeybind_emit.go:95-127 | the same of whole field lists |
| CacheKey.IdentityUnique | generator/cachekeybind.go:70-83 | for type names without a dot, equal identities come only from equal package paths and names |
| CacheKey.KeysOfTypesNeverMeet | generator/cachekeybind.go:70-83 | keys under different identities never coincide |
| CacheKey.ScalarAppendsKey | cachekeybind/cachekeybind.go:126-181 | each scalar AppendKey form extends its buffer by the matching Key form |
| CacheKey.OtherHelperFails | generator/cachekeybind_emit.go:132-155 | the helper of another kind never writes the value's key, so the one emitted is that of the field's type |
| CacheKey.PlannableExactly | generator/cachekeybind_emit.go:132-155 | a type is planned exactly when it and every type it wraps has a helper, and wraps something where it must |
| ByteStrings.DecimalReads | cachekeybind/cachekeybind.go:67-69 | numbers and lengths are written in base ten, most significant digit first, with no zero ahead |
| CacheKey.FramedAppends | cachekeybind/cachekeybind.go:126-137 | length-prefixed framing in place equals the framed string |
| CacheKey.Emitter.EmitFrame | generator/cachekeybind_emit.go:132-155 | the call emitted for a type writes that type's key of the value |
| CacheKey.Emitter.EmitWrap | generator/cachekeybind_emit.go:159-173 | the closure emitted for an element uses a parameter of its own and restores the depth |
| CacheKey.Emitter.EmitKey | generator/cachekeybind_emit.go:95-127 | the emitted method writes the identity and then every field's key in order |
| CacheKey.EqualKeysEqualFields | generator/cachekeybind_emit.go:95-173 | equal keys of the emitted method come only from equal fields |
| Interpolate.TokenizationExists | configbind/interpolate.go:28-70 | every string has a tokenization into text, escapes, lone dollars and references, with an unterminated tail at most |
| Interpolate.TokenizationUnique | configbind/interpolate.go:28-70 | it has only one |
| Interpolate.TokensSpell | configbind/interpolate.go:28-70 | the tokens render back to the string |
| Interpolate.CheckName | configbind/interpolate.go:75-89 | a name is accepted exactly in the shape of a letter or underscore followed by letters, digits and underscores |
| Interpolate.NameExactly | configbind/interpolate.go:72-89 | a name is a letter or an underscore and then letters, underscores and digits, those of ASCII |
| Interpolate.TokenText | configbind/interpolate.go:8-19 | an escape is two dollars, a reference a name between ${ and } |
| Interpolate.ExpandEnvRefs | configbind/interpolate.go:28-70 | the byte loop is the substitution over that tokenization, the leftmost error first, the secret mark set exactly when a reference names a secret-origin variable |
| Interpolate.NoDollarMeaning | configbind/interpolate.go:29-31 | the shortcut for a string with no dollar agrees |
| Interpolate.DoublingEscapes | configbind/interpolate.go:8-12 | doubling every dollar and expanding gives the string back, unmarked |
| ArgvParser.BuildTables | cliparser/parse.go:37-66 | the tables exist exactly when every definition is keyed and named and no flag name is given twice, and each name leads to its definition |
| ArgvParser.ParseTokens | cliparser/parse.go:68-142 | the index loop is the token-by-token meaning of the arguments |
| ArgvParser.ClassifyExactly | cliparser/parse.go:69-141 | what the first token does, exactly: the terminator and the first positional end the parse, or a positional is taken where flags may follow it; a flag, long or short, with its value inline, beside it or none, assigns what it is written to, and is refused exactly when it is written in no such way |
| ArgvParser.FlagTokenExactly | cliparser/parse.go:169-187 | a token is a flag exactly when it begins with a dash, is no dash alone and does not begin as a negative number |
| ArgvParser.BoolExactly | cliparser/parse.go:189-198 | four words stand for true and four for false, in any case and with space around them, and nothing else is taken |
| ArgvParser.TrimExactly | cliparser/parse.go:189-190 | trimming takes the white space off both ends and nothing else |
| ByteStrings.LowerExactly | cliparser/parse.go:189-190 | lower case turns each capital of ASCII into the small letter in its place and leaves the rest |
| ArgvParser.Parse | cliparser/parse.go:32-143 | ill-formed definitions are refused; otherwise the outcome is that meaning under their tables |
| ArgvParser.ParsePrinted | cliparser/parse.go:68-142 | printed assignments and positionals, then the terminator and a tail, parse to their effects and the tail |
| ArgvParser.EffectsMean | cliparser/parse.go:210-222 | a scalar holds its last value, an array every value and their comma join, a key nothing sets is absent, the positionals are all there in order |
| ArgvParser.RoundTrip | cliparser/parse.go:32-222 | printing and parsing back gives each key the values assigned to it and the positionals ahead of the tail |
| SingleFlight.MemoKeyUnique | generator/hooks.go:47-56 | one memo entry serves one hook and value where only one of the two may hold a NUL |
| SingleFlight.MemoKeyExactly | generator/hooks.go:53 | memo keys tell requests apart if and only if NULs are kept out of hooks, or out of values |
| SingleFlight.PreimageUnique | generator/hooks.go:186-199 | the digested text of NUL-free parts determines the hook, the value, the parameters and every source with its hash |
| SingleFlight.PreimageExactly | generator/hooks.go:186-199 | the digested text tells inputs apart if and only if none of their parts may hold a NUL |
| SingleFlight.StepKeeps | generator/hooks.go:80-92 | every step of every interleaving keeps lock, entries, onces and logs consistent, whatever the transforms return |
| SingleFlight.AtMostOnce | generator/hooks.go:80-92 | in every run of any number of goroutines each key is converted at most once |
| SingleFlight.SameAnswer | generator/hooks.go:80-92 | in every run all calls on one key return one result or error |
| SingleFlight.NeverStuck | generator/hooks.go:80-92 | in every reachable state with a call left some goroutine can move |
| SingleFlight.MoveProgresses | generator/hooks.go:80-92 | every move brings the end of the calls nearer |
| SingleFlight.StoreSound | generator/hooks.go:207-253 | storing an outcome under the digest of its inputs keeps every readable disk entry the transform of the inputs its key digests, if and only if the outcome reads back as it was |
| SingleFlight.StepTrue | generator/hooks.go:135-157 | where outcomes survive the disk, every step keeps it sound and the memo's answers those of converting directly |
| SingleFlight.EveryRunDirect | generator/hooks.go:40-92 | where outcomes survive the disk, in every run each call returns what converting with no memo and no cache would, in program order |
| SingleFlight.SurvivesExactly | generator/hooks.go:135-253 | of any two builds in turn over one disk the second is told the direct answer to every request if and only if every outcome a transform gives reads back from the disk as it was |
| SingleFlight.ChangedOnDisk | generator/hooks.go:135-253 | a request whose outcome does not read back as it was has two builds of which the second is told something else |
| SingleFlight.PrewarmInvisible | generator/hooks.go:282-354 | where outcomes survive the disk, after any prewarm, by any number of workers and failing or not, a compile that asks by what it was told, and stops where it likes, makes the calls and is told the answers it would have without one |
| SingleFlight.Claims | generator/hooks.go:296-319 | the queue holds each hook and value once, where it is first found, in that order |
| SingleFlight.ConversionCache.Key | generator/hooks.go:169-200 | the key is the one of the declaration, whose exact contents are those of KeyOfExactly, and every named source is recorded, cacheable or not |
| SingleFlight.KeyOfExactly | generator/hooks.go:169-200 | a conversion can be cached exactly when its hook declares a key, there is a cache directory and every source can be read; its key then holds the hook, the value, the parameters and each source with the hash of its content |
| SingleFlight.DigestsShared | generator/hooks.go:186-200 | two conversions share a disk entry exactly when they are one hook's of one value, with the same parameters and the same sources of the same contents |
| SingleFlight.ParamsReachDisk | generator/hooks.go:135-200 | a build whose hook declares other parameters for a request finds nothing under its key in what an earlier build stored |
| ConfigOverlay.Overlay.Set | configbind/overlay.go:60-65 | a write replaces the entry and its mark, and no other key notices |
| ConfigOverlay.Overlay.SetMulti | configbind/overlay.go:77-88 | the same of a list, with its comma join |
| ConfigOverlay.Overlay.SetTables | configbind/overlay.go:91-101 | the same of an array of tables |
| ConfigOverlay.Overlay.MarkSecret | configbind/overlay.go:69-74 | a present entry is marked, an absent key stays absent |
| ConfigOverlay.Overlay.Delete | configbind/overlay.go:219-224 | the key is gone, no other notices, and the keys stay in order |
| ConfigOverlay.FindPut | configbind/overlay.go:60-107 | a write is read back under its key and under no other |
| ConfigOverlay.PutAscends | configbind/overlay.go:160-186 | the keys stay strictly ordered |
| ConfigOverlay.Forms | configbind/overlay.go:60-102 | an entry is written as a scalar, as a list with its comma join or as an array of tables, and unmarked |
| ConfigLoad.ComposedWins | configbind/env.go:124-171 | the process wins over every source and a later source over an earlier one; the file and the secret mark are those of the winner, and a name the process supplied is never marked |
| ConfigLoad.ComposeEnviron | configbind/env.go:124-171 | the layered loops compose that environment, in whatever order a map is walked |
| ConfigLoad.MergeDocument | configbind/load.go:336-403 | the document's values land in order, strings and string elements expanded, an entry marked when a reference in it was secret, arrays of tables as overlays of their own |
| ConfigLoad.ExpandAllExactly | configbind/load.go:349-370 | a list is taken exactly when each of its strings expands; it holds one text an element in their order, other elements as they stand, and is secret exactly when some string is |
| ConfigLoad.ItemEntryExactly | configbind/load.go:347-400 | a value is refused exactly when it has no form or a text in it does not expand; otherwise it is an entry of the file, marked exactly when a secret was expanded into it |
| ConfigLoad.TableSlotsExactly | configbind/load.go:374-385 | an array of tables is taken exactly when each table is, each as a document of its own |
| ConfigLoad.MergeEnviron | configbind/env.go:241-260 | each flag's variable sets its key with its place and its mark |
| ConfigLoad.EnvEntryExactly | configbind/env.go:247-259 | a variable's entry has its value, the place of the file it came from or of the process, and the mark of a secret source |
| ConfigLoad.FillFalsy | configbind/load.go:202-221 | under every key: a blank one some target has a choice for takes the first choice that is not empty, at the place it had, and every other keeps what it has |
| ConfigLoad.Load | configbind/load.go:156-221 | the layers in order: defaults, document, environment, command line, falsy fill |
| ConfigLoad.LoadedExactly | configbind/load.go:156-221 | a load fails exactly when some value of its document is refused |
| ConfigLoad.LaterLayerWins | configbind/load.go:156-221 | a load holds under each key what the last layer says, filled by a falsy choice where that is blank; the process key is absent unless a target offers such a choice for it |
| ConfigLoad.LoadedAscends | configbind/load.go:156-221 | a load's keys are in order, each there once |
| Provenance.HiddenKeys | configbind/provenance.go:128-154 | the hidden keys are those a failing condition of the loaded values reaches |
| Provenance.ConditionExactly | configbind/provenance.go:323-368 | a condition rules its dependent out exactly when, without an operator, the parent is not set; under !=, it has one of the values; under any other, it has none of them |
| Provenance.SameExactly | configbind/provenance.go:372-390 | values are the same as durations, as signed or unsigned 64-bit numbers, or as texts, by the parent's kind |
| Provenance.ParseIntExactly | configbind/provenance.go:378-382 | a signed number is read exactly when it is digits under a sign or none and 64 bits hold it |
| Provenance.ParseUintExactly | configbind/provenance.go:383-386 | an unsigned one exactly when it is digits alone and 64 bits hold it |
| Provenance.ParentsExactly | configbind/provenance.go:129-135 | the keys with conditions are those some definition lists, and a key's conditions are those any definition gives it |
| Provenance.KindsExactly | configbind/provenance.go:139-146 | the kind of a key is what the last definition that has a leaf there says |
| Provenance.FieldKindsExactly | configbind/provenance.go:279-290 | a definition's leaves stand under its prefix, a dot and their key; arrays of tables have no kind |
| Provenance.FalsyExactly | configbind/provenance.go:141-144 | a key's falsy choice is that of the last definition that has one |
| Provenance.ExpandTables | configbind/provenance.go:190-235 | an array of tables expands to the lines of its elements, inner arrays in place |
| Provenance.ArraysExactly | configbind/provenance.go:160-166 | the element fields of an array of tables are those of the last definition that has one under the path |
| Provenance.ArrayFieldsExactly | configbind/provenance.go:168-182 | arrays of tables are found under their paths without indices, inner ones included, with their own fields |
| Provenance.ElementsInOrder | configbind/provenance.go:190-235 | lines of later elements come after those of earlier ones, each under its own element's place in the array |
| Provenance.KeyShows | configbind/provenance.go:79-126 | the lines of a key show, one by one, the entries under it at any nesting, each under its key and at its place, with its value or the mask, and the mask exactly when the value is not empty and is of secret origin, or tagged so, or untagged under a key with a sensitive word in it |
| Provenance.SensitiveExactly | configbind/provenance.go:429-434 | a key is sensitive exactly when one of the words stands somewhere in it, in letters of either case |
| Provenance.ModesExactly | configbind/provenance.go:254-262 | a key's tag is that of the last definition that tags it |
| Provenance.OmittedExactly | configbind/provenance.go:249-273 | a key is rated as omittable when some definition rates it so |
| Provenance.ListingOrder | configbind/provenance.go:115-125 | the listing is one segment for each key, no key twice: the known keys as they first come up, then the stray ones in sorted order |
| Provenance.KnownKeysExactly | configbind/provenance.go:115-119 | the known keys are those of the definitions in registration order, each in its own order |
| Provenance.ListingShows | configbind/provenance.go:79-126 | line by line the listing shows the entries of distinct keys, masked exactly where they are to be, and every line comes from a key that is not hidden |
| Provenance.ListProvenance | configbind/provenance.go:79-126 | the listing of those segments, its hidden keys exactly those a failing condition reaches, no line from one of them and every line masked exactly where it is to be |
| Redaction.ComposedAlike | configbind/env.go:124-171 | sources that differ only in secret values compose to environments that do |
| Redaction.MeaningAlike | configbind/interpolate.go:28-70 | under such environments a string fails alike, is marked alike, and without a mark expands to one text |
| Redaction.LoadedAlike | configbind/load.go:156-221 | two loads succeed together and their overlays differ only in marked entries, at every nesting of tables |
| Redaction.ListingAlike | configbind/provenance.go:79-126 | overlays that differ only in marked entries are listed alike when no condition reads a marked entry |
| Redaction.RedactionHolds | configbind/provenance.go:62-126 | two successful loads under environments that differ only in non-empty values of secret origin give equal listings, through scalars, lists and nested tables |
| Redaction.SecretConditionShows | configbind/provenance.go:323-368 | two loads under environments composed alike but for one secret value, read by a dependon condition, are listed differently |

## Left out

- CborCodec.RoundTrip: in the map shape it asks for distinct member names, because the property is false
  without them (`CborCodec.RoundTripExactly`).
- CborDecoder.DecodeStruct: the driver's own limits (nesting depth, UTF-8 validity, half and single
  precision floats, indefinite-length text) are not modelled, because the driver is not part of this model;
  a float64 is written and read as its eight bytes.
- SqlGroup.ScanIsGroupBy: asks that one column of each key chain at most may hold a NUL, because composite keys
  collide otherwise (`SqlGroup.CompositeExactly`), that slices are declared, and once (`SqlGroup.UsesDeclared`,
  `SqlGroup.DeclaredOnce`), and that no slice's key takes its parent's name (`SqlGroup.ParentsKept`).
- SingleFlight.EveryRunDirect: takes SHA-256 as injective and a transform as a function of what its key
  declares, and asks that keys do not collide (`SingleFlight.MemoKeyExactly`, `SingleFlight.PreimageExactly`);
  corrupt and outdated disk entries read as absent. It asks that outcomes survive the disk, because the JSON
  between is an abstract encoding, and it fails otherwise (`SingleFlight.SurvivesExactly`).
- SingleFlight.PrewarmInvisible: the queue's hand-out of claims is any assignment of claims to workers.
- Redaction.RedactionHolds: asks that no dependon condition reads a secret, because the listing differs
  otherwise (`Redaction.SecretConditionShows`).
- CommitChunks.GreedyIsOptimal: asks for an envelope that does not shrink from two elements on, because the cut is
  not always optimal otherwise (`CommitChunks.OptimalExactly`).
- ArgvParser.RoundTrip: trimming and case folding are those of ASCII.
- SingleFlight.ConversionCache.Key: a declaration gives its sources in sorted order.
- SqlGroup.IdentRunes: beyond ASCII every character is taken for a letter.
- Emitted text: emitters produce statements of a small language, not Go source; formatting, imports and file
  writes are not modelled.
- A type that contains itself makes the SQL emitters run on; plans here are finite trees.
- Float and time texts in cache keys are abstract texts, equal exactly when the values are taken as equal.
- The word-at-a-time string scan of the JSON parser is modelled as the byte loop it stands for, and text that
  is not UTF-8 is not coerced.
- `LoadAll`, `chunksOf`, `SizeHint`, transactions, paging and context lookup: wrappers over remote clients or
  single-branch helpers.
- Reading files and directories, the command line library's flag building, usage texts, the conversion of a
  long option to a variable name, and the Apply functions: parsed values are taken as inputs.
- Subcommands, their positionals and help, and the separate merge of nested overlays: thin layers over the
  parser and the overlay.
- The fasthttp packages, the HTTP CBOR payload walk and OpenAPI assembly: the same shapes over other transports.
- Filtering of the JSON member set (skipped fields, uploaded files, rest maps): a codec starts from its members.
