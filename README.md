# bridge: a verified model of the Go-to-REST client generator's core

bridge reads Go source files and builds a type model of the declarations it finds. From that model it generates a REST client: a client class, one call method per service operation, and writers and readers for every type those operations reach. The generated code calls a small hand-written runtime (`gen/restclient`). That runtime writes primitive values to an `io.Writer` and moves a cursor over a `bufio.Reader`.

This project models, in Dafny, the parts of that pipeline whose behaviour can be stated, and proves properties about them:

- **Types** (`types.dfy`): the type model (Null, Lazy/Unresolved, Basic/Named, Alias, Reference, Tuple, Record, Function, List, Map) and the canonical signature text of a type.
  - A registered `*Type` is a slot of an arena, and `Slot(h)` is a pointer to one.
  - Anonymous reference, list, map, function and struct nodes are inline values.
- **TypeLib** (`typelib.dfy`, `text.dfy`): the type library. It covers the registry `pkg + "." + name`, with first-wins registration and lookup that falls back through the short package alias. It also covers the package-alias tables, the 17 built-in basic types, `ForEach`, and the library's own signature function. The pure operations are functions over a `Registry` value. The `TypeLibrary` class keeps the same state in fields, and its methods are proved to change that state exactly as the functions say.
- **TypeSys** (`typesys.dfy`): the simpler `TypeSystem` registry.
- **Utils** (`utils.dfy`): conversion of a parsed Go file into library entries.
  - An identifier that is not yet defined becomes a Lazy placeholder.
  - A later `type` declaration overwrites that same slot in place.
  - The module also covers `ProcessNode`, `FindDecl` and `PackagePathForFile`.
- **Closure** (`closure.dfy`): the type marker used while generating a client. It has a visited set by identity, a visited set by signature, and a list of unique types in first-discovery order. The wave loop marks what each emitted type reaches, until a wave finds nothing new.
- **Generator** (`generator.dfy`): the naming function `IOMethodForType`, the kind-to-template dispatch, and the `Generator` object's field updates.
- **Driver** (`driver.dfy`): `ParseFiles`, `CreateClientForType` and `EmitFileHeader` of the two command-line drivers (`gen/main.go`, `main/main.go`).
- **Wire** (`wire.dfy`): the runtime's writers (`Write_string`, `Write_bool`, `Write_int`, `Write_int64`) and its cursor reader (`NextIf`, `SkipWhile`, `SkipTill`, `SkipSpaces`, the `Ensure*` helpers, `Read_string`).

The source uses two names for two of its kinds, and the model maps them onto one set:
- `LazyType` and `UnresolvedType` are the one kind `Lazy`.
- `BasicType` and `NamedType` are the one kind `Basic`, with a name and a package.

Functions the source calls but does not define are parameters of the model. These are `LeafType`, `ShortNameForPackage`, the `ExistingWriters` table, and the text `fmt.Sprintf(argfmt, index)` produces.

## Model

| member | source | states |
|---|---|---|
| Types.NestedCollectionSignature | types.go:130-134 | a list of maps from int to string signs as `[]map[int]string` |
| Types.RecordSignatureIsName | types.go:108-109 | a record signs as its name only, so two records with one name and different fields sign alike |
| Types.TupleSignatureCollision | types.go:110-118 | a tuple signature opens with `(`, joins with `, ` and never closes, so two different nested tuples share the signature `((a, b` |
| Types.FunctionOutputsNilVersusEmpty | types.go:119-129 | a function signs as `func` plus its inputs' list; a nil output list adds nothing while an empty one adds ` ()`; a non-nil exception list adds ` throws` and its list |
| Types.TypeListSignatureDecodes | types.go:139-151 | a type list signs as ` (`, the signatures joined by `,`, then `)`; splitting the inside on `,` gives back each element's signature when none contains a comma |
| Types.JoinSignaturesIsJoin | types.go:139-151 | the loop that joins element signatures equals joining the list of signatures with the separator |
| Types.SplitJoin | types.go:139-151 | splitting a comma-joined list of comma-free texts gives back the list (the decoding used for the list signature) |
| Types.SignatureStable | types.go:96-137 | a type's signature does not change when slots are appended to the arena after it was built |
| Types.JoinSignaturesStable | types.go:139-151 | the same stability for a joined list of signatures |
| Types.Signatures | types.go:139-151 | the list of signatures has one entry per type, each that type's signature |
| Types.ClosedInGrows | types.go:96-137 | a type whose pointers are all below n keeps that property for any larger arena |
| Types.AllClosedInGrows | types.go:139-151 | the same for a list of types |
| Types.SplitNoSeparator | types.go:139-151 | a text without the separator splits into itself alone |
| Types.SplitAppend | types.go:139-151 | appending a separator and a separator-free piece appends that piece to the split |
| Text.BaseOfPath | typelib.go:120 | `filepath.Base` of `dir/elem` is `elem`, and of a bare `elem` is `elem` |
| Text.LastElementOf | typelib.go:120 | the last path element after the final slash is the appended element |
| Text.TrimTrailingSlashes | typelib.go:120 | the result is a prefix of the path that does not end in a slash, and every byte removed is a slash |
| Text.NatToString | typelib.go:130 | the decimal text of a number is non-empty, made of digits, and has no leading zero unless it is `0` |
| Text.NatToStringValue | typelib.go:130 | the decimal text of a number reads back as that number |
| Text.NatToStringInjective | typelib.go:128-131 | two counters give the same decimal text only if they are equal, so generated `pkgN` aliases differ |
| TypeLib.AddPackageTo | typelib.go:110-134 | a known path returns its stored alias and changes nothing; a new path gets the last path element as alias, or `pkg` and the counter for the empty path, maps to it in the forward table and the alias maps back to the path; types are untouched |
| TypeLib.AddPackageIdempotent | typelib.go:110-113 | adding the same package a second time returns the same alias and changes nothing |
| TypeLib.SharedLastElementSharesAlias | typelib.go:117-126 | two distinct paths with one last element both get that element as alias, and the inverse table keeps only the later path |
| TypeLib.AddTypeTo | typelib.go:88-97 | first wins: an existing key returns its slot with slots, map and counter unchanged; a new key appends a slot, maps the key to it and bumps the counter by one; the package is added first either way; afterwards lookup finds the returned slot |
| TypeLib.AddTypeKeepsValid | typelib.go:88-97 | registration keeps every key pointing at an existing slot and every slot closed |
| TypeLib.Lookup | typelib.go:99-108 | an exact key wins; otherwise, when the package is a known alias, the key made from the alias's path is tried and found or not; an unknown alias falls back to the global `"." + name` |
| TypeLib.NewPackageAlias | typelib.go:115-126 | a new path `dir/elem` gets the alias `elem`, and the inverse table maps `elem` back to the path |
| TypeLib.AddThenGetByAlias | typelib.go:88-108 | after registering a type under a new path `dir/elem`, looking it up under the short alias `elem` finds the registered slot |
| TypeLib.GetShortPackageName | typelib.go:143-148 | the stored alias of a known path, `""` for an unknown one |
| TypeLib.ShortNameAfterAddPackage | typelib.go:110-148 | after AddPackage, GetShortPackageName of that path is the alias AddPackage returned, every other path keeps its alias, and a newly added path's alias leads back to it through the inverse table |
| TypeLib.AddBasicStep | typelib.go:75-77 | registering one more basic type extends the filled prefix of the library by that name |
| TypeLib.FilledWithExtends | typelib.go:75-77 | the filled-prefix property carries over to a registry grown by exactly one basic slot |
| TypeLib.KeyInjective | typelib.go:90 | within one package, equal keys mean equal names |
| TypeLib.DistinctFront | typelib.go:43-60 | a list of distinct names splits into a distinct front and a last name not in it |
| TypeLib.AddBasicsContents | typelib.go:43-60 | registering distinct names in order gives slot i the basic type named by the i-th name, reachable by its global key |
| TypeLib.FilledLookup | typelib.go:99-108 | in a registry filled with basic names, looking up each name under package `""` finds its own slot |
| TypeLib.NewRegistryHasBasics | typelib.go:34-62 | a new library has exactly the 17 listed basic types in slots 0..16, each found under package `""`, and adding the package `""` names it `pkg0` |
| TypeLib.LibSignatureAgrees | typelib.go:150-191 | the library's signature equals the type's own signature for every type that does not contain a function |
| TypeLib.LibJoinAgrees | typelib.go:164-172 | the library's tuple join equals the type model's join with `, ` |
| TypeLib.LibSignatureAgreesWhenFunctionFree | typelib.go:150-191 | for a type containing no function the library's signature is the type model's signature |
| TypeLib.TypeLibrary.constructor | typelib.go:34-62 | a new library holds the state of the new registry |
| TypeLib.TypeLibrary.AddPackage | typelib.go:110-134 | updates the two alias tables as the registry function does and returns its alias |
| TypeLib.TypeLibrary.AddType | typelib.go:88-97 | updates the fields as the registry function does and returns a pointer to the winning slot |
| TypeLib.TypeLibrary.AddBasicType | typelib.go:75-77 | registers the basic type `name` under package `""` |
| TypeLib.TypeLibrary.GetType | typelib.go:99-108 | finds a pointer exactly when the registry lookup does, to the same slot |
| TypeLib.TypeLibrary.GetBasicType | typelib.go:79-81 | is the lookup under package `""` |
| TypeLib.TypeLibrary.Signature | typelib.go:150-191 | the library's signature of a type without a function inside is the type model's signature |
| TypeLib.TypeLibrary.ForEach | typelib.go:67-73 | visits keys in iteration order, calls the callback on each, and stops right after the first call that returns true; every earlier call returned false |
| TypeSys.TypeSystem.constructor | typesys.go:13-17 | a new type system is empty with counter 0 |
| TypeSys.TypeSystem.AddType | typesys.go:24-32 | an existing key returns the stored type with map and counter unchanged; a new key stores `t`, bumps the counter by one and returns `t`; afterwards the key finds the returned type |
| TypeSys.TypeSystem.GetType | typesys.go:34-37 | finds a type exactly when its exact key is present, with no short-name fallback |
| TypeSys.TypeSystem.FindType | typesys.go:39-41 | always returns `""` |
| TypeSys.FirstRegistrationWins | typesys.go:24-32 | registering two types under one key returns the first both times and counts one registration |
| Utils.IdentResolvesOnce | utils.go:156-162 | an unknown identifier registers one Lazy placeholder named after it; resolving it again returns that same slot and changes nothing; a known identifier changes nothing |
| Utils.UnimportedSelectorIsGlobal | utils.go:163-170 | a qualified identifier whose alias is not imported resolves like an identifier in package `""` |
| Utils.ImportedSelectorResolves | utils.go:163-170 | a qualified identifier whose alias is imported is looked up under the imported path; a found slot is returned unchanged, otherwise one Lazy placeholder named after the selector is registered under that path |
| Utils.ConvertFuncShape | utils.go:129-147 | a function type has one input per parameter and one output per result; no results leave the outputs nil; exceptions stay nil |
| Utils.ConvertListLength | utils.go:136-145 | converting a list of nodes yields one type per node |
| Utils.ConvertFieldsShape | utils.go:171-188 | a struct gets one base per unnamed field and one field per name, in declaration order |
| Utils.NamedFieldsShareType | utils.go:181-184 | all names of one field entry share the one converted type |
| Utils.NamedFields | utils.go:181-184 | one field per name, each carrying that name and the shared type |
| Utils.FindOrRegisterEffect | utils.go:206-215 | a declared name reuses its existing slot; otherwise one new slot is registered under its key; existing keys are kept |
| Utils.BodyKeepsSlots | utils.go:219-230 | converting a declaration's body only appends slots and keys, never rewrites existing ones |
| Utils.FillDeclaredEffect | utils.go:216-230 | the declared slot becomes a record named after the declaration, except that a struct or interface body replaces it with an unnamed record; other slots are untouched |
| Utils.DeclareSpecEffect | utils.go:203-231 | a type declaration returns the existing slot for its name or a new one, overwrites only that slot with a record, and keeps every key |
| Utils.ForwardReferenceResolved | utils.go:156-162 | a use before the declaration creates a Lazy placeholder; the later declaration writes a record into that same slot, so every earlier holder of the pointer sees the record |
| Utils.RedeclarationLastWins | utils.go:209-217 | a second declaration of one name reuses the slot and its body is what remains |
| Utils.DeclaredStructsSignEmpty | utils.go:219-230 | a declared struct or interface signs as `""`, since its record's name is lost |
| Utils.ResolveNameGrows | utils.go:156-170 | resolving a name only extends the registry and yields a type closed in it |
| Utils.ConvertExprGrows | utils.go:122-235 | converting any node only extends the registry and yields a type closed in it |
| Utils.ConvertListGrows | utils.go:136-145 | the same for a list of nodes, with one type per node |
| Utils.ConvertFieldsGrows | utils.go:171-201 | the same for a struct's field list |
| Utils.WriteSlotKeepsValid | utils.go:216-228 | overwriting a slot with a closed record keeps the registry valid |
| Utils.FindOrRegisterKeepsValid | utils.go:206-208 | the reused or added slot exists and the registry stays valid |
| Utils.ExtendsTrans | utils.go:122-235 | registry extension is transitive |
| Utils.ListDoneNext | utils.go:136-139 | one more element of the conversion loop extends its prefix fold |
| Utils.FieldsDoneNext | utils.go:175-186 | one more field entry of the struct loop extends its prefix fold |
| Utils.ListDoneBounds | utils.go:136-139 | the conversion loop starts with the empty fold and ends with the whole conversion |
| Utils.FieldsDoneBounds | utils.go:175-186 | the struct loop starts with the empty fold and ends with the whole conversion |
| Utils.ResolveIdent | utils.go:156-170 | the library's new state and the result are those of resolving the name on the old state |
| Utils.NodeToType | utils.go:122-235 | the library's new state and the result are those of converting the node on the old state |
| Utils.AppendNamedFields | utils.go:181-184 | appends one field per name, in order |
| Utils.FindOrAdd | utils.go:206-215 | the library reuses or registers the declared name's slot as the registry function does |
| Utils.DeclareTypeSpec | utils.go:203-231 | the library's new state and result are those of the declaration on the old state |
| Utils.ProcessNode | utils.go:90-101 | the library ends in the state of processing the file's declarations in order |
| Utils.TypeDecls | utils.go:90-101 | selects only the declarations whose first spec is a type spec |
| Utils.OnlyTypeDeclsMatter | utils.go:90-101 | processing a file equals processing only its declarations whose first spec is a type spec |
| Utils.FindDeclSpec | utils.go:106-117 | no match among well-formed declarations gives nil; a match is the first declaration whose first spec has the name; a first spec that is not a type spec fails the type assertion |
| Utils.SearchFolders | utils.go:43-45 | the search list starts with GOROOT and then the GOPATH entries split on `;` |
| Utils.PackagePathForFileSpec | utils.go:42-52 | the result is `""` when no folder's `src/` prefixes the path; otherwise it is the rest of the path after the first such prefix |
| Utils.PackagePathDocExampleFails | utils.go:23-52 | with the folders of the doc comment, the documented example path yields `""` |
| Utils.SrcRoot | utils.go:46-47 | the corrected root extends the folder by `src/` with exactly one slash between: four more bytes when the folder ends in a slash, five otherwise, always ending in `/src/` |
| Utils.PackagePathForFileJoinedAgrees | utils.go:42-52 | when every folder already ends in a slash, the corrected search agrees with the original |
| Utils.PackagePathDocExampleJoined | utils.go:23-41 | the corrected search returns `github.com/theuser/repo` for the documented example |
| Utils.GorootSkipped | utils.go:46-49 | in the documented example the GOROOT folder does not prefix the path |
| Utils.GopathEntryMatches | utils.go:46-49 | in the documented example the first GOPATH folder's `src/` prefixes the path and leaves the package path |
| Closure.MarkOneFacts | gen/main.go:81-92 | marking one type records it as seen by identity and its signature as seen, and appends it iff neither was seen; the marker invariant is kept |
| Closure.MarkAllFacts | gen/main.go:81-92 | marking a list keeps the invariant (seen signatures are exactly the signatures of seen types; the unique list has distinct signatures), only appends to the unique list, and every appended type's signature was new |
| Closure.SigsOfAppend | gen/main.go:81-92 | the signatures of a concatenation are the union of both parts' signatures |
| Closure.MarkAllSeen | gen/main.go:83 | marking types all seen by identity changes nothing |
| Closure.MarkAllIdempotent | main/main.go:121-132 | marking the same list twice is the same as marking it once |
| Closure.MarkAllAppend | gen/main.go:82 | marking `a + b` is marking `a` then `b` |
| Closure.FreshPass | gen/main.go:76-92 | after a reset, marking a list yields unique types with distinct signatures that cover every signature of the list |
| Closure.TypeMarker.constructor | gen/main.go:73-75 | a new marker is empty |
| Closure.TypeMarker.Reset | gen/main.go:76-80 | reset empties both visited sets and the unique list |
| Closure.TypeMarker.Mark | main/main.go:121-132 | the marker's new state is that of marking the types in order on the old state |
| Closure.Emittable | main/main.go:173-179 | every emitted type comes from the list and has no existing writer's signature |
| Closure.EmittableExactly | main/main.go:173-179 | the emitted types are exactly the types of the list without an existing writer: each kept one comes from the list and is new, and each such type of the list is kept |
| Closure.DiffShrinks | gen/main.go:129 | a strictly larger set of seen signatures leaves strictly fewer unseen ones, the measure that ends the wave loop |
| Closure.SigImageGrows | gen/main.go:129 | more seen types mean at least as many seen signatures |
| Closure.EmittableAppend | main/main.go:173-179 | the emission filter distributes over concatenation |
| Closure.ReachMeans | gen/main.go:129-137 | a type is in the reach of a list exactly when some element of the list marks it |
| Closure.ReachAppend | gen/main.go:129-137 | the reach of a concatenation is the union of both parts' reaches |
| Closure.NewUniquesMarked | gen/main.go:81-92 | every unique type a marking pass adds is one of the types it marked |
| Closure.ReachedFromStep | main/main.go:173-181 | the types found while marking what one more emitted type reaches were reached from the wave so far plus that type |
| Closure.ReachedFromNext | gen/main.go:129-137 | types reached from the earlier waves and types reached from the next wave together are reached from all waves |
| Closure.EmitWave | main/main.go:173-181 | one wave emits the unique types without an existing writer; what they reach is marked, so their signatures are all seen afterwards; every newly found type was reached from a type of the wave |
| Closure.WaveNext | gen/main.go:129-137 | one wave keeps the loop invariant, including that every type found after the first wave was reached from an emitted type, and a non-empty wave strictly shrinks the unseen signatures |
| Closure.Waves | main/main.go:168-181 | the loop ends with an empty unique list; all unique types start with the first wave, have distinct signatures, and their signatures are exactly the seen ones; the emitted types are those without an existing writer; everything an emitted type reaches has a signature in the collected list, and every type found after the first wave was reached from an emitted type |
| Generator.IOMethodOkIff | rest/generator.go:86-120 | naming succeeds exactly for types with no function or tuple inside, which are rejected |
| Generator.AliasesTransparent | rest/generator.go:96-97 | an alias is named as its target |
| Generator.UnaliasedClosed | rest/generator.go:96-97 | removing aliases keeps a type closed |
| Generator.Unaliased | rest/generator.go:96-97 | the result is not an alias |
| Generator.NestedCollectionName | rest/generator.go:105-117 | a list of maps from int to string is `List_Map_int_string`; a pointer to a packaged record is `Ref_` + alias + `_User`; an unnamed record is `interface` |
| Generator.Prefixed | rest/generator.go:99 | prefixing keeps success or failure and puts the prefix before a name |
| Generator.ClassOf | rest/generator.go:192 | the class of a type is never a bare pointer into the arena |
| Generator.RegisteredDispatch | rest/generator.go:192-210 | a registered record dispatches to `record`, a basic type emits nothing, and a placeholder is fatal |
| Generator.WriterReaderAgree | rest/generator.go:189-249 | writer and reader agree on success; the families are list, map, ref, record and alias, with templates `<dir>/writer_<family>.gen` and `<dir>/reader_<family>.gen` between header and footer; a basic type reads nothing |
| Generator.RecordOf | rest/generator.go:127 | a record is found only for a record value or a pointer to a record slot |
| Generator.Generator.constructor | rest/generator.go:63-73 | a new generator has the templates directory given, client package `restclient`, suffix `Client`, transport `*http.Request`, and no marker |
| Generator.Generator.ClientName | rest/generator.go:55-57 | the client name is prefix, service name and suffix, in that order |
| Generator.Generator.MarkType | rest/generator.go:48-53 | passes its types to the marker when one is set, and returns `""` |
| Generator.Generator.MarkTypes | rest/generator.go:41-46 | nil reaches no marker; a list is passed on; the result is `""` |
| Generator.Generator.EmitClientClass | rest/generator.go:126-132 | a non-record service is an error that changes no field; a record sets the service type and name, so the client name becomes prefix + record name + suffix; every other field keeps its value |
| Generator.Generator.EmitServiceCallMethod | rest/generator.go:152-156 | sets the operation's name and type, method `GET` and endpoint `http://hello.world/`; every other field keeps its value |
| Driver.LeafPackages | gen/main.go:176-185 | lists exactly the packages of the types' leaf types |
| Driver.NewPackages | gen/main.go:176-185 | lists each non-empty package not yet visited exactly once |
| Driver.HeaderShape | gen/main.go:159-188 | a header starts with `package <name>`, a blank line and `import (`, and ends with `)` |
| Driver.ExtraVisitedStep | gen/main.go:165-174 | each extra package marks its path as visited, the second word when it has an alias |
| Driver.WriteExtraImports | gen/main.go:165-174 | writes every extra package line unconditionally and returns the visited paths |
| Driver.TypeImportStep | gen/main.go:176-185 | one more type adds its package iff it is non-empty and neither visited nor already written |
| Driver.ImportLinesAppend | main/main.go:218-227 | the import text of one more package is one more line |
| Driver.WriteTypeImports | main/main.go:218-227 | writes one aliased line per new package of the types, in order |
| Driver.EmitFileHeader | gen/main.go:159-188 | the written header is the package line, the extra imports, the new type imports and `)`, and the error is nil |
| Driver.Operations | gen/main.go:110-118 | the operations are exactly the service fields of function type |
| Driver.OperationNames | main/main.go:151-158 | one call method per operation, in field order |
| Driver.OperationMarksWithin | main/main.go:151-158 | what the call methods mark stays inside the universe |
| Driver.FreshMarks | gen/main.go:95 | a reset marker after a marking pass satisfies the invariant the wave loop needs |
| Driver.EmitCallMethods | gen/main.go:108-118 | emits the call methods of the function fields and marks what they use |
| Driver.OperationStep | gen/main.go:110-118 | one more service field extends the operations, their names and their marks by that field's operation when it is a function, and leaves them otherwise |
| Driver.EmittedClosed | main/main.go:173-181 | every emitted type lies in the closed universe, so its pointers are inside the library |
| Driver.DispatchEmitted | rest/generator.go:189-249 | the writer and reader dispatch over the emitted types fails exactly when one of them has a kind the dispatch does not know, and then with `Unknown type` |
| Driver.ClientPass | gen/main.go:94-105 | a non-record service is the error; a record becomes the generator's service data, and the client header imports what the client template marks after a reset; the marker, package name and templates directory are kept |
| Driver.WritersAndReaders | main/main.go:168-195 | runs the waves and returns their types and the emitted ones: the types extend the ops pass's uniques with distinct signatures, the emitted ones are exactly those without an existing writer, are closed, and reach only collected signatures, and every later type was reached from an emitted one; the run succeeds exactly when the dispatch knows every emitted type's kind, failing otherwise with `Unknown type`; on success it gives the writers and readers headers of all the types |
| Driver.CreateClientForType | main/main.go:94-195 | a missing service (GetType's nil at main/main.go:52 and gen/main.go:27) ends in the nil dereference of rest/generator.go:127; a non-record service stops with the error; for a record service the waves' types and emitted types (ghost outputs) extend the ops pass's uniques with distinct signatures, are closed under what emitted types reach, were each reached from an emitted type, and emit exactly the closed types without an existing writer, and the run succeeds exactly when every emitted type has a kind the dispatch knows, otherwise ending in its panic (rest/generator.go:206-210, 238-240) as `Unknown type`; on success the client header imports what the client pass marked, the call methods follow the function fields, the ops header imports what the ops pass marked, and the writers and readers headers import the packages of all the types |
| Driver.ParseFiles | gen/main.go:31-58 | the library is the new library after processing every file, and the reported unresolved names are exactly the keys of Lazy slots (`UnresolvedKeys`) |
| Wire.EscapeIsPerByte | gen/restclient/core_writers.go:11-12 | escaping quotes then backslashes turns each `"` into the three bytes `\\"`, each `\` into `\\`, and keeps every other byte |
| Wire.ReplaceByteAppend | gen/restclient/core_writers.go:11-12 | replacing a byte distributes over concatenation |
| Wire.EscapeLength | gen/restclient/core_writers.go:11-15 | the escaped text is two bytes longer per quote and one per backslash |
| Wire.EscapeEachLength | gen/restclient/core_writers.go:11-15 | the same count for the byte-by-byte escaping |
| Wire.EscapePlain | gen/restclient/write_common.go:9-10 | text with no quote and no backslash is written unchanged |
| Wire.EscapeEachPlain | gen/restclient/write_common.go:9-10 | the byte-by-byte escaping keeps plain text |
| Wire.WriteString | gen/restclient/core_writers.go:10-17 | writes a quote, the escaped argument and a quote, and always returns nil |
| Wire.WriteBool | gen/restclient/core_writers.go:19-27 | writes `true` iff the argument is true, otherwise `false`, and returns the write's error |
| Wire.WriteBoolIgnoringErrors | gen/restclient/write_common.go:17-24 | writes `true` or `false` and returns nil even when the write failed |
| Wire.Digits | gen/restclient/core_writers.go:30 | the decimal digits are a non-empty run of digit bytes |
| Wire.DigitsRoundTrip | gen/restclient/core_writers.go:30 | the digits read back as the number |
| Wire.DecimalRoundTrip | gen/restclient/core_writers.go:29-37 | the text written for an integer, with `-` for negatives, reads back as that integer |
| Wire.DigitsAllDigits | gen/restclient/core_writers.go:30 | the decimal text of a non-negative number does not start with `-` |
| Wire.DecimalText | gen/restclient/core_writers.go:29-37 | the text of an integer is non-empty and starts with `-` exactly when the integer is negative |
| Wire.WriteInt | gen/restclient/core_writers.go:29-37 | writes the decimal text of the argument and returns the write's error |
| Wire.SkipEnd | gen/restclient/core_readers.go:30-46 | the skip stops at the first byte failing the filter, after only bytes that pass it, or at the end |
| Wire.SkipResult | gen/restclient/core_readers.go:30-46 | the skip's cursor stays within the input |
| Wire.TwoSkips | gen/restclient/core_readers.go:68-106 | the cursor after two skips stays within the input |
| Wire.Reader.NextIf | gen/restclient/core_readers.go:18-28 | consumes one byte and returns true iff there is a next byte and it is the value; otherwise consumes nothing |
| Wire.Reader.SkipWhile | gen/restclient/core_readers.go:30-46 | consumes the longest run of bytes passing the filter; running out of input is io.EOF |
| Wire.Reader.SkipTill | gen/restclient/core_readers.go:14-16 | skips the bytes that differ from the value |
| Wire.Reader.SkipSpaces | gen/restclient/core_readers.go:10-12 | skips the bytes that are not whitespace, as written |
| Wire.Reader.EnsureOSq | gen/restclient/core_readers.go:68-76 | runs SkipTill(`[`) then SkipSpaces, the second only if the first succeeded, returning the first error |
| Wire.Reader.EnsureCSq | gen/restclient/core_readers.go:78-86 | runs SkipSpaces then SkipTill(`]`), returning the first error |
| Wire.Reader.EnsureOCurly | gen/restclient/core_readers.go:88-96 | runs SkipTill(`{`) then SkipSpaces, returning the first error |
| Wire.Reader.EnsureCCurly | gen/restclient/core_readers.go:98-106 | runs SkipSpaces then SkipTill(`}`), returning the first error |
| Wire.Reader.ReadString | gen/restclient/core_readers.go:108-119 | the value, cursor and error are those of reading a quoted string at the old cursor |
| Wire.ReadStringResult | gen/restclient/core_readers.go:108-119 | the cursor stays within the input; the `Expected "` error occurs exactly when there is no byte at the cursor or it is not a quote; after an opening quote the read succeeds exactly when a closing quote follows and otherwise reports io.EOF; success means a quote at the old cursor and one just before the new cursor, with the value the bytes between and no quote in it |
| Wire.SkipTillFindsFirst | gen/restclient/core_readers.go:14-16 | SkipTill leaves the cursor on the first occurrence of the value without consuming it, or consumes everything and reports io.EOF when there is none |
| Wire.SkipSpacesStopsAtWhitespace | gen/restclient/core_readers.go:10-12 | SkipSpaces as written consumes only non-whitespace and stops on a space, newline, tab or CR |
| Wire.EnsureOSqConsumesThroughFirstSpace | gen/restclient/core_readers.go:68-76 | on `[1, 2]` EnsureOSq consumes `[1,` and stops on the space |
| Wire.ReadStringNeedsQuote | gen/restclient/core_readers.go:109-111 | without an opening quote the result is the error `Expected "`, nothing is consumed and the variable keeps its value |
| Wire.ReadStringBetweenQuotes | gen/restclient/core_readers.go:108-119 | on success the value is the bytes strictly between the opening quote and the next one, and both are consumed |
| Wire.WriteThenRead | gen/restclient/core_readers.go:108-119 | reading back what Write_string wrote for text with no quote or backslash gives the text, and the cursor passes both quotes |
| Wire.EscapeQuoteDoubled | gen/restclient/core_writers.go:11-12 | a lone quote is written as `\\"`, which unescapes to a backslash and a quote |
| Wire.EscapeIntendedIsPerByte | gen/restclient/core_writers.go:11-12 | escaping backslashes first puts one backslash before each quote and each backslash |
| Wire.UnescapeEachIntended | gen/restclient/core_writers.go:11-12 | the byte-by-byte intended escaping unescapes back to the text |
| Wire.EscapeIntendedRoundTrip | gen/restclient/core_writers.go:11-12 | with backslashes escaped first, every text unescapes back to itself |
| Wire.SkipSpacesSkipsNothingBeforeSpaces | gen/restclient/core_readers.go:10-12 | before `  x` SkipSpaces as written skips nothing |
| Wire.SkipWhitespaceReachesContent | gen/restclient/core_readers.go:10-12 | skipping whitespace consumes only whitespace and stops on the first other byte; before `  x` it lands on the `x` |

## Left out

- I/O is not modelled: files, templates, template rendering and the command line. This covers `OpenFile`, `NewGenerator`'s template loading, `RenderTemplate`, `template.ParseFiles`/`Execute` and `main()`. What the templates mark during rendering is a parameter: `clientMarks`, `opMarks` and `marks`.
- Template paths are not modelled. `client.gen` is opened as `TemplatesDir + "client.gen"`, with no slash (rest/generator.go:134), while the other templates are joined with `/`. With the drivers' directory `../rest/templates/` both forms name files in that directory.
- `NewParsedFile` (go/parser, `filepath.Abs`) is not modelled. A parsed file is given as a small declaration datatype.
- `NewGoTypeLibrary` in `main/main.go` is not modelled. It calls `AddGlobalType`, which the source does not define, and it has no return statement. Both drivers are modelled with `NewTypeLibrary`.
- Map iteration order is a parameter. Go's randomised order appears in three places: the `ForEach` key order, the order in which `ParseFiles` processes files, and `TypeLib.TypeLibrary.ForEach`'s `order`.
- The `ParseFiles` report callback in the drivers takes a third `stop` argument that `ForEach` does not pass. The model reports the unresolved keys as a set.
- `NodeToType` for an AST node kind outside the modelled ones logs and returns nil. That case is not representable in the node datatype.
- A selector whose left side is not an identifier panics in the source. Such a selector is not representable in the node datatype.
- Anonymous reference, list, map, function and struct nodes are inline values. Two structurally equal ones are therefore the same value, where Go has two distinct pointers. The marker's visited-by-identity set then deduplicates them earlier than the source would, which never changes the unique list, because their signatures are equal too.
- TypeLib.TypeLibrary.AddType takes only the kinds the source registers: Null, Lazy, Basic and Record.
- `fmt.Sprintf(argfmt, index)` in `TypeLibrary.TypeListSignature` is the parameter `argText`, because with the empty format it produces Go's `%!(EXTRA ...)` text.
- `LeafType`, `ShortNameForPackage` and the `ExistingWriters` table are parameters (`leafPkg`, `shortName`, the `Variant`'s signature set), since the source does not define them. `ExistingReaders` is never read.
- Closure.Waves: termination is argued through a ghost set of all types reachable by marking (`universe`). The source assumes the set is finite and never states it.
- Types.Signature and TypeLib.LibSignature return an alias type's name. In the source both do `t.TypeData.(string)` (types.go:104-105, typelib.go:158-159), which panics on the `*AliasTypeData` that rest/generator.go:96 reads. No code of the modelled core builds an alias type, so this panic is not modelled.
- `log.Println` diagnostics are left out, including the "Redefinition of type" message.
- The `os.Getenv`/`runtime.GOROOT` inputs of `PackagePathForFile` are parameters.
- `ReadWhile`, `Read_int` and `Read_int64` are left out. `ReadWhile` peeks without ever advancing, so it does not terminate when the first byte matches, and the other two depend on `strconv.ParseInt`.
- `Read_bool`, `Read_time_Time` and `Write_time_Time` are left out: they depend on partial-read behaviour of bufio and on `time.MarshalJSON`.
- Wire.Writer.Write: an `io.Writer` that writes a prefix and then fails is not modelled. A write either succeeds whole or fails whole.
- Wire.WriteInt: Go's `int` is taken as 64 bits, so `Write_int` and `Write_int64` share one model.
- `rest/binder.go`, `protocol.go`, `bindings.go`, `generator.go` and `gen/restclient/out.go` are not part of this model. They hold HTTP plumbing, reflection and interface declarations.
- Three behaviours of the code are modelled as written, although they look unintended:
  - a declared struct loses its name, so all declared structs share the signature `""`;
  - package aliases are not unique across paths with the same last element;
  - the tuple signature never closes its parenthesis.

## Findings

| source | as written | input that shows it | evidently intended | confidence | as-written member | corrected member |
|---|---|---|---|---|---|---|
| utils.go:46-49 | the prefix compared is `folder + "src/"`, with no slash between a GOPATH entry and `src` | the doc comment's own example: GOPATH `/home/user1/a`, path `/home/user1/a/src/github.com/theuser/repo` gives `""` | join the folder and `src/` with one slash, giving `github.com/theuser/repo` | not executed | Utils.PackagePathDocExampleFails | Utils.PackagePathDocExampleJoined |
| gen/restclient/core_writers.go:11-12 | quotes are escaped before backslashes, so the backslash added for a quote is doubled (same in gen/restclient/write_common.go:9-10) | the string `"` is written as `"\\""`, which reads back as a backslash followed by a closing quote | escape backslashes first, so `"` becomes `\"` and every text unescapes to itself | not executed | Wire.EscapeQuoteDoubled | Wire.EscapeIntendedRoundTrip |
| gen/restclient/core_readers.go:10-12 | SkipSpaces's filter holds for the bytes that are not whitespace, so it skips content and stops on whitespace | before `  x` it skips nothing; EnsureOSq on `[1, 2]` consumes `[1,` | skip whitespace and stop on the first other byte | not executed | Wire.SkipSpacesSkipsNothingBeforeSpaces | Wire.SkipWhitespaceReachesContent |
