# TsUML2 core, modelled in Dafny

TsUML2 turns a TypeScript project into a UML class diagram. It reads the
declarations of the project (classes, interfaces, type aliases over type
literals, enums), turns them into a small declaration model, optionally
derives member associations between the declared types, and prints the
model in one of two diagram languages: nomnoml (rendered to SVG, with
type links added to the labels) and Mermaid.

This project models the part of TsUML2 that works on the declaration
model once the TypeScript compiler has produced it:

- `model.dfy` (module `Model`): the declaration records, the class and
  interface constructor, and the link target computed from a type id.
- `parser.dfy` (module `Parser`): the id helpers, the walk over type
  trees that collects referenced type ids, the property, method, class,
  interface, type-alias and enum builders, and the heritage clauses of
  classes and interfaces. The compiler's nodes, symbols and types are
  plain data here.
- `associations.dfy` (module `Associations`): the association pass,
  which covers the type map, the scan of properties into edges with
  reverse-edge merging, the inheritance check that flags edges a base
  type already has, and the final filter. The edge objects the source
  shares and updates in place live in one sequence, and the association
  map and the per-file lists hold indices into it. `scenarios.dfy`
  (module `AssociationScenarios`) proves what the pass yields on two
  concrete projects.
- `template.dfy`, `mermaid.dfy`, `nomnoml.dfy` (modules `Template`,
  `MermaidTemplate`, `NomnomlTemplate`): the notation record and the two
  notations with their escaping and modifier rules.
- `emitter.dfy` (module `Emitter`): the emitter, the document assembly,
  the XML entity encoding and the SVG post-processor that wraps known
  type labels in links.
- `diagramengine.dfy` (module `DiagramEngine`): the project parse with its
  export filter and association gate, the two document headers and
  documents, and the SVG rendering gate.
- `diagnostics.dfy` (module `Diagnostics`): the null, array and console
  diagnostics collectors. The array collector is a class whose methods
  append to its list.
- Helpers for JavaScript built-ins: `wrappers.dfy` (`Option`, `Result`,
  JavaScript truthiness of an optional string), `jsstring.dfy`
  (`join`, `split`, `trim`, `startsWith`, one-character `replace`, the
  capture group of `/o(.*)c/`), `jsarray.dfy` (`flat`) and `jsmap.dfy`
  (an insertion-ordered `Map`).

Several places where the code and its own type declarations or tests
disagree are resolved in favour of the code:

- `src/core/model.ts` declares fewer fields than the code uses. The model
  derives the missing shapes from their use sites: `MemberAssociation`,
  `Enum`, `TypeAlias`, `HeritageClause.clauseTypeId`, and the
  `FileDeclaration` fields `enums`, `types` and `memberAssociations`.
- The `Interface` constructor (model.ts:55-60) copies four fields. The
  parser still passes the heritage clauses, and every reader reads them
  back, so `Interface` keeps them.
- The nomnoml notation is the object literal of
  `src/core/renderer/nomnoml-template.ts`. `src/core/diagram-engine.ts:9`
  constructs it as a class, which that file does not define.
- The settings record carries `exportedTypesOnly` and `mermaid`, which
  diagram-engine.ts reads and `src/core/tsuml2-settings.ts` does not
  declare.

## Model

| member | source | states |
|---|---|---|
| Model.NewInterface | src/core/model.ts:55-60 | the built record has exactly the name, id, properties and methods of its options (and the heritage clauses the parser passes) |
| Model.TargetSourceFileOfQuotedId | src/core/model.ts:63-69 | for an id on one line, a target exists exactly when the id holds a double quote followed by another; it is the text between the first and the last quote with `.ts` appended |
| Model.TargetSourceFile | src/core/model.ts:63-69 | an id without a double quote has no target (the thrown "Could not compute path" error); a target always ends with `.ts` and is at most one character longer than the id |
| Model.QuotedPathTarget | src/core/model.ts:63-69 | an id `"<path>"<rest>` with no other quote points at `<path>.ts` |
| Model.GetRelativeFilePath | src/core/model.ts:62-76 | fails (the "Could not compute path" error) exactly when the id has no quoted segment; otherwise the path from the diagram file to the target source file |
| Parser.GetTypeIdFromTypeName | src/core/parser/parser.ts:353-359 | the id always starts with a double quote; a name starting with a quote is returned unchanged, any other ends with `.` and the name |
| Parser.TypeIdIdempotent | src/core/parser/parser.ts:353-359 | qualifying an id a second time, against any file, changes nothing |
| Parser.TypeIdLeadsToSourceFile | src/core/parser/parser.ts:358 | the link target of a qualified id is `<dir>/<base>.ts` of the declaring file |
| Parser.GetFullyQualifiedNameNormalized | src/core/parser/parser.ts:366-376 | an id exists exactly when a symbol is given; it starts with a quote, and an already quoted name is kept |
| Parser.IdOf | src/core/parser/parser.ts:278-299 | a symbol contributes exactly its normalized fully qualified name, a missing symbol nothing (the final filter) |
| Parser.GetTypeIdsFromType | src/core/parser/parser.ts:270-300 | every collected id starts with a quote; a missing type gives none; a present type gives the ids of its case (`Parser.TypeIds`) |
| Parser.TypeIds | src/core/parser/parser.ts:277-297 | case by case: a class, interface, enum or other type gives its symbol's id, an anonymous type its alias symbol's, a type parameter none, a union or intersection its union members' ids then its intersection members' ids, an array its element type's ids (none without one); every id starts with a quote |
| Parser.IdsOfAll | src/core/parser/parser.ts:282 | every id of the member types of a union or intersection starts with a quote |
| Parser.IdsOfAllIsFlatMap | src/core/parser/parser.ts:282 | the ids of a union or intersection are the members' ids, member by member, in order |
| Parser.ArraysAreTransparent | src/core/parser/parser.ts:284-285 | an array of any depth refers to exactly what its element type refers to |
| Parser.StripOptionalEnding | src/core/parser/parser.ts:99-115 | for an optional property whose type ends with ` \| undefined`, the result plus that ending is the type; any other type is unchanged |
| Parser.StripOnlyOnce | src/core/parser/parser.ts:112-115 | the ending is removed once: a doubled ending keeps its first copy |
| Parser.ParseProperty | src/core/parser/parser.ts:100-119 | a property exists exactly when the node has a symbol; name, flags and optionality come from the node, the type is the stripped type text, and the type ids are exactly those of the value declaration's type (`Parser.GetTypeIdsFromType`), each quoted |
| Parser.ParseMethod | src/core/parser/parser.ts:121-130 | a method exists exactly when the node has a symbol; it carries the name, flags and return type text, and no return type ids |
| Parser.Present | src/core/parser/parser.ts:29 | the values of the present entries: every kept value is held by an entry, every present entry's value is kept, a list of present entries is kept whole and in order, and a list of missing entries vanishes |
| Parser.PresentCons | src/core/parser/parser.ts:29 | the first entry is kept exactly when it is present, ahead of the filtered rest; with `PresentAppend`, the result is exactly the present values in order |
| Parser.PresentAppend | src/core/parser/parser.ts:29 | filtering two lists one after the other is filtering their concatenation |
| Parser.ParsePropertyEach | src/core/parser/parser.ts:29 | one result per declared property, in order; a property yields a result exactly when it has a symbol, and the result carries the symbol's name; when every property has a symbol, the filter drops none |
| Parser.ParseParameterEach | src/core/parser/parser.ts:33-39 | one result per parameter; a parameter yields a property exactly when it carries a modifier keyword and has a symbol; without modifier keywords the filtered list is empty |
| Parser.ParseMethodEach | src/core/parser/parser.ts:43 | one result per declared method, in order; a method yields a result exactly when it has a symbol, and the result carries the symbol's name; when every method has a symbol, the filter drops none |
| Parser.WithGenerics | src/core/parser/parser.ts:327-337 | the name is kept as a prefix; without type parameters it is the name alone; with them it continues with `<`, ends with `>`, and between them holds exactly the parameter names joined by `,` |
| Parser.GenericsSplitOff | src/core/parser/parser.ts:333-335 | for a name without `<`, everything before the first `<` of the result is the name |
| Parser.NameOrUndefined | src/core/parser/parser.ts:17 | the name when it is non-empty, otherwise `undefined` |
| Parser.FirstTypeId | src/core/parser/parser.ts:185 | the first referenced id exists exactly when the type refers to some id, and it is quoted |
| Parser.OwnTypeId | src/core/parser/parser.ts:151 | the empty string without a symbol, otherwise a quoted id |
| Parser.ExtendsClause | src/core/parser/parser.ts:162-173 | one clause exactly when the base class has a non-empty name; it is `Extends`, names the base and the base's normalised id, and carries the class name and id |
| Parser.ImplementsFrom | src/core/parser/parser.ts:176-192 | the clauses from an entry on are exactly the present per-entry clauses (`Parser.ImplementsEach`, `Parser.ImplementsClause`), in order: at most one per entry, all `Implements`, all carrying the class name and id |
| Parser.ImplementsClause | src/core/parser/parser.ts:176-190 | an `implements` entry gives a clause exactly when its type has a name; it is `Implements`, names that type and its first id, and carries the class name and id |
| Parser.ImplementsEach | src/core/parser/parser.ts:175-191 | one candidate clause per entry, in order, each the entry's `Parser.ImplementsClause` |
| Parser.ClassHeritageClauses | src/core/parser/parser.ts:148-195 | an unnamed class has no clause; a named one has its `extends` clause, then the present clauses of its implemented types in order; the first clause is `Extends` exactly when the class is named and its base class has a name, and then it names that base; only the first clause can be `Extends`; every clause carries the class name and id |
| Parser.ParseClassHeritageClauses | src/core/parser/parser.ts:148-195 | the loop builds exactly the clause list: the `Extends` clause first, then the named implemented types in order |
| Parser.InterfaceBasesFrom | src/core/parser/parser.ts:209-224 | the clauses from a base on are exactly the present per-base clauses (`Parser.BasesEach`, `Parser.BaseClause`), in order: at most one per base, all `Implements` (also for the interfaces it extends), all carrying the interface name and id |
| Parser.BaseClause | src/core/parser/parser.ts:210-221 | a base declaration gives a clause exactly when it has a name; it is `Implements`, names the base and its first id, and carries the interface name and id |
| Parser.BasesEach | src/core/parser/parser.ts:209-222 | one candidate clause per base declaration, in order, each the base's `Parser.BaseClause` |
| Parser.InterfaceHeritageClauses | src/core/parser/parser.ts:197-227 | an unnamed interface has no clause; a named one has exactly the present clauses of its base declarations, in order; all are `Implements` clauses carrying the interface name and id |
| Parser.ParseInterfaceHeritageClauses | src/core/parser/parser.ts:197-227 | builds exactly the clause list of the named base declarations, in order |
| Parser.CollectBaseClauses | src/core/parser/parser.ts:209-224 | the loop over the base declarations builds exactly their present clauses, in order |
| Parser.ClassPropertiesOrder | src/core/parser/parser.ts:29-41 | the declared properties come first, in order; without modifier parameters in the first constructor they are all the properties |
| Parser.ClassOf | src/core/parser/parser.ts:15-46 | the class has the fallback name, a non-empty id qualified by its file, the declared-then-constructor properties, the present methods and the class heritage clauses |
| Parser.ParseClass | src/core/parser/parser.ts:15-46 | the class has the fallback name, the id qualified by its file, the parsed properties (declared, then constructor parameters) and methods, and its heritage clauses |
| Parser.InterfaceOf | src/core/parser/parser.ts:48-65 | the interface has the fallback name, a non-empty qualified id, the present properties and methods, and the interface heritage clauses |
| Parser.ParseInterface | src/core/parser/parser.ts:48-65 | the interface has the fallback name, the qualified id, the present properties and methods in order, and its heritage clauses |
| Parser.ParseType | src/core/parser/parser.ts:67-97 | a type alias results exactly when it aliases a type literal, with the literal's present properties and methods |
| Parser.EnumOf | src/core/parser/parser.ts:132-146 | the enum has the symbol's name, the member names as items, and an id qualified by its file, which starts with a quote |
| Parser.ParseEnum | src/core/parser/parser.ts:132-146 | the enum has the symbol's name, the qualified id and the member names in declaration order |
| Associations.Register | src/core/parser/associations.ts:23-33 | every entry of the type map is stored under its own id |
| Associations.RegisteredIds | src/core/parser/associations.ts:27-30 | every registered id is in the map, and the last entry with an id is the one kept |
| Associations.OnlyRegisteredIds | src/core/parser/associations.ts:27-30 | every key of the map is the id of some registered entry |
| Associations.CreateTypeMap | src/core/parser/associations.ts:23-33 | the loop registers the classes, interfaces, types and enums of every file, in that order |
| Associations.SetEach | src/core/parser/associations.ts:27-30 | one file's `set` calls register its entries after the earlier ones |
| Associations.TypeMapOf | src/core/parser/associations.ts:23-33 | every entry of the type map sits under its own id |
| Associations.MultiplicityOf | src/core/parser/associations.ts:67-72 | `0..*` exactly when the type text is non-empty and holds `[`, otherwise unset |
| Associations.EdgeKeySplits | src/core/parser/associations.ts:40-41 | between ids as the parser builds them (quoted, with no `_"` inside), the key `<from>_<to>` names its two ends: another pair with a quoted target and the same key is the same pair |
| Associations.ScanReference | src/core/parser/associations.ts:39-57 | when the reverse key `<id>_<owner>` is stored, only that edge's source multiplicity changes; an id that names no declared type changes nothing; otherwise one new edge from the owner to the type is created, stored under `<owner>_<id>` and listed; the scan invariants are kept, and no two edges ever run against each other |
| Associations.MergeKeepsScan | src/core/parser/associations.ts:54-56 | overwriting the reverse edge's multiplicity keeps the map and the lists valid and the edges' ends |
| Associations.AppendKeepsScan | src/core/parser/associations.ts:49-53 | a new edge stored under its own key keeps the map coherent and is listed last |
| Associations.AppendKeepsOneWay | src/core/parser/associations.ts:42-53 | a new edge created because its reverse key is missing runs against no earlier edge |
| Associations.ScanIds | src/core/parser/associations.ts:39-57 | the ids of one property, in order, keep the scan valid, coherent and one-way |
| Associations.ScanProperties | src/core/parser/associations.ts:38-58 | only properties with type ids are scanned, in order, keeping the scan invariants |
| Associations.ScanOwners | src/core/parser/associations.ts:10-14 | the owners of one file, in order, keep the scan invariants |
| Associations.ScanFiles | src/core/parser/associations.ts:9-17 | one list per file; the lists, one after the other, are all edges in creation order; every stored edge sits under its own key; no two edges join two types in opposite directions |
| Associations.FileStep | src/core/parser/associations.ts:16 | closing a file's list keeps every list in bounds and in creation order |
| Associations.ScanStep | src/core/parser/associations.ts:39-57 | the body of the inner loop does what the reference step says |
| Associations.ScanPropertyIds | src/core/parser/associations.ts:39 | the loop over one property's ids is the scan of those ids |
| Associations.ParseAssociationOfAnyType | src/core/parser/associations.ts:36-60 | the loop over the properties is the scan of those properties |
| Associations.ScanFileOwners | src/core/parser/associations.ts:10-14 | the loop over a file's owners is the scan of those owners |
| Associations.ScanDeclarations | src/core/parser/associations.ts:9-17 | the loop over the files is the scan of all files, sharing one map |
| Associations.Flag | src/core/parser/associations.ts:99 | the edge stored under the key is flagged, and no edge changes in any other way |
| Associations.CheckInherited | src/core/parser/associations.ts:86-105 | the check only adds flags; when it answers true the subtype's edge is flagged and some ancestor has its own edge to the target |
| Associations.CheckClauses | src/core/parser/associations.ts:90-102 | the clause loop only adds flags; a true answer comes from an ancestor's edge; clauses that resolve to no declared type change nothing |
| Associations.SkipUnresolved | src/core/parser/associations.ts:91-93 | unresolved clauses are skipped without effect |
| Associations.SingleInheritanceExact | src/core/parser/associations.ts:86-105 | with at most one resolvable base per type, the check is true exactly when some ancestor has its own edge to the target |
| Associations.LastResolving | src/core/parser/associations.ts:90-94 | the index of the last clause whose base is declared: that clause resolves and none after it does; nothing when no clause resolves |
| Associations.CheckLastDecides | src/core/parser/associations.ts:86-105 | for any number of bases, the check answers true exactly when the base of the last resolving clause has its own edge to the target or inherits one in the same sense; the answers of earlier clauses are overwritten |
| Associations.ClausesLastDecide | src/core/parser/associations.ts:90-102 | from clause `k` on, the loop answers the verdict of the last resolving clause at or after `k`, or keeps the answer it started with when none resolves |
| Associations.CheckFlagsSound | src/core/parser/associations.ts:97-100 | the check flags only edges stored under their own key whose source inherits their target |
| Associations.CheckInheritedAsWritten | src/core/parser/associations.ts:86-105 | as written: reading the clauses of an undeclared type fails, iterating the missing clauses of a type alias fails, every failure is one of the three source errors, and a successful run is the corrected check |
| Associations.WrittenOkExact | src/core/parser/associations.ts:86-105 | the check as written succeeds exactly when the source is declared with heritage clauses and, at every resolving clause, the base's check succeeds and, when the base has or inherits an edge to the target, the source's own edge is still in the map |
| Associations.CheckClausesAsWritten | src/core/parser/associations.ts:90-102 | as written, every failure of the clause loop is one of the source errors, and a successful loop is the corrected loop |
| Associations.ClausesOkExact | src/core/parser/associations.ts:90-102 | the clause loop as written succeeds exactly when every clause from `k` on meets the condition of `WrittenOkExact` |
| Associations.CheckInheritedAssociation | src/core/parser/associations.ts:86-105 | the recursive loop computes exactly the corrected check |
| Associations.ProcessKeys | src/core/parser/associations.ts:78-84 | the pass keeps the map valid and only adds flags; every key left keeps its edge; every deleted key was visited and its edge is flagged |
| Associations.ProcessKeysExact | src/core/parser/associations.ts:78-84 | a visited key is deleted exactly when the source of its edge inherits the target through its last resolving bases, judged on the map the pass starts from |
| Associations.ProcessKeysSingle | src/core/parser/associations.ts:78-84 | with at most one resolvable base per type, a visited key is deleted exactly when some ancestor of its source has its own edge to the target |
| Associations.InheritsLastDelete | src/core/parser/associations.ts:79-83 | deleting the key of an edge whose source inherits its target changes no other inheritance verdict, so the order of the visits does not matter |
| Associations.ProcessFlagsSound | src/core/parser/associations.ts:78-84 | the pass flags only edges stored under their own key whose source inherits their target in the starting map |
| Associations.DeleteStep | src/core/parser/associations.ts:80-82 | a key is deleted only when its edge was found inherited and is flagged |
| Associations.ProcessKeysAsWritten | src/core/parser/associations.ts:78-84 | as written, every failure is one of the source errors, and a successful pass is the corrected pass |
| Associations.PassOkSound | src/core/parser/associations.ts:78-84 | when the pass as written succeeds, every visit of a key still in the map had its check succeed on the map the earlier visits left |
| Associations.PassOkComplete | src/core/parser/associations.ts:78-84 | when every such visit's check succeeds, the pass as written succeeds |
| Associations.AliasOwnerFails | src/core/parser/associations.ts:88-90 | the pass as written fails once it visits a key whose edge starts at a declared type without heritage clauses |
| Associations.ProcessAssociationInheritance | src/core/parser/associations.ts:78-84 | the loop over the map visits exactly the keys present when it starts, in insertion order |
| Associations.ProcessEntry | src/core/parser/associations.ts:79-83 | one visit checks the key's edge and deletes the key when inherited, leaving the rest of the pass as specified |
| Associations.Unflagged | src/core/parser/associations.ts:109 | exactly the unflagged listed edges are kept, in their listed order |
| Associations.Deduplicated | src/core/parser/associations.ts:107-111 | each file gets the unflagged edges of its own list; nothing else about the file changes |
| Associations.DeduplicateAssociations | src/core/parser/associations.ts:107-111 | the loop over the files computes the deduplicated files |
| Associations.ScanReady | src/core/parser/associations.ts:18 | after the scan the map is ready for the inheritance pass and every edge points at a declared type |
| Associations.DeduplicatedEdges | src/core/parser/associations.ts:107-111 | no kept edge is flagged, and each points at a declared type |
| Associations.DeduplicatedOneWay | src/core/parser/associations.ts:107-111 | the filter introduces no pair of edges in opposite directions |
| Associations.ParsedAssociations | src/core/parser/associations.ts:5-21 | every file keeps its other fields and gets as its list the unflagged edges of its own scanned list, in order, as the inheritance pass left them; no listed edge is flagged, each points at a declared type, and no two join two types in opposite directions |
| Associations.ParsedDrops | src/core/parser/associations.ts:5-21 | a scanned edge is flagged only when it is stored under its own key and its source inherits its target; every such edge whose source inherits through its last resolving bases is flagged and its key deleted; an edge not stored under its key is never flagged |
| Associations.ParsedDropsSingle | src/core/parser/associations.ts:5-21 | with at most one resolvable base per type, a scanned edge is flagged exactly when it is stored under its own key and some ancestor of its source has its own edge to the target |
| Associations.AliasOwnerKept | src/core/parser/associations.ts:107-111 | corrected, an edge whose source has no heritage clauses, a type alias's among them, is never flagged and stays on every list that has it |
| Associations.ParseAssociationsAsWritten | src/core/parser/associations.ts:5-21 | as written, every failure is one of the source errors, and a successful pass is the corrected pass |
| Associations.ParseOkSound | src/core/parser/associations.ts:5-21 | when the pass as written succeeds, every visit of the inheritance pass had its check succeed |
| Associations.ParseOkComplete | src/core/parser/associations.ts:5-21 | when every visit's check succeeds, the pass as written succeeds |
| Associations.AliasOwnerCrashes | src/core/parser/associations.ts:88-90 | as written, the pass fails on every project in which a type alias owns an edge |
| Associations.ParseAssociations | src/core/parser/associations.ts:5-21 | the corrected pass: type map, scan, inheritance pass, filter |
| AssociationScenarios.DedupScan | test/integration/association-inheritance-dedup.spec.ts:46-54 | scanning Item, Base and Derived (both holding `items: Item[]`) creates the two edges Base to Item and Derived to Item, listed in that order |
| AssociationScenarios.DedupProcess | src/core/parser/associations.ts:78-84 | on that project the inheritance pass deletes Derived's edge and flags it |
| AssociationScenarios.DedupScenario | test/integration/association-inheritance-dedup.spec.ts:70-77 | Base keeps its `0..*` edge to Item and Derived's copy is dropped |
| AssociationScenarios.ChainScan | src/core/parser/associations.ts:9-17 | for C extends B extends A where A and C reference X, the scan creates A to X and C to X only |
| AssociationScenarios.RootCheck | src/core/parser/associations.ts:86-105 | A has no base: its check is false and changes nothing |
| AssociationScenarios.MiddleCheckFails | src/core/parser/associations.ts:95-99 | with A's edge stored and none for B, the check for B fails on the missing entry |
| AssociationScenarios.ChainCheckFails | src/core/parser/associations.ts:95-99 | with A's edge stored and none for B, the check for C fails |
| AssociationScenarios.ChainCheckCorrected | src/core/parser/associations.ts:86-105 | on the same input the corrected check finds C's edge inherited through B and flags it |
| AssociationScenarios.ChainProcessFails | src/core/parser/associations.ts:78-84 | the inheritance pass as written fails on the chain project |
| AssociationScenarios.ChainParseFails | src/core/parser/associations.ts:5-21 | the association pass as written fails on the chain project |
| AssociationScenarios.ChainParseCorrected | src/core/parser/associations.ts:5-21 | corrected, the pass keeps A's edge to X and drops C's |
| MermaidTemplate.EscapeMermaid | src/core/renderer/mermaid-template.ts:126-128 | same length; every `<` and `>` becomes `~`, every other character is kept |
| MermaidTemplate.EscapeMermaidClean | src/core/renderer/mermaid-template.ts:126-128 | the result has no angle bracket, and escaping it again changes nothing |
| MermaidTemplate.EscapeMermaidIdentity | src/core/renderer/mermaid-template.ts:126-128 | a text without angle brackets is left as it is |
| MermaidTemplate.PlainClassOrInterface | src/core/renderer/mermaid-template.ts:21 | the escaped name |
| MermaidTemplate.Extends | src/core/renderer/mermaid-template.ts:17-19 | the edge splits at its first `<` into the escaped base, the glyph `<\|--` and the escaped derived name |
| MermaidTemplate.Implements | src/core/renderer/mermaid-template.ts:11-15 | the edge splits at its first `<` into the escaped interface, the glyph `<\|..` and the escaped implementation |
| MermaidTemplate.ExtendsIsNotImplements | src/core/renderer/mermaid-template.ts:11-19 | an extends edge never equals an implements edge |
| MermaidTemplate.Visibility | src/core/renderer/mermaid-template.ts:100-106 | one character: `-` exactly for private, `#` exactly for protected and not private, `+` otherwise |
| MermaidTemplate.ApplyModifiers | src/core/renderer/mermaid-template.ts:92-121 | unchanged with modifiers off; otherwise the visibility mark, the text, then `$` if static and `*` if abstract, in that order |
| MermaidTemplate.PropertyTemplate | src/core/renderer/mermaid-template.ts:70-81 | the member text (the unescaped name, then for a shown type `?` if optional and `: ` with the escaped type) with its modifier marks; with modifiers off, the text alone |
| MermaidTemplate.MethodTemplate | src/core/renderer/mermaid-template.ts:83-90 | the member text (`name()`, then for a shown return type a space and the escaped type) with its modifier marks; with modifiers off, the text alone |
| MermaidTemplate.MethodWithoutTypes | src/core/renderer/mermaid-template.ts:83-90 | with member types off, a method line is its marks around `name()` |
| MermaidTemplate.ClassBox | src/core/renderer/mermaid-template.ts:23-28 | opens with `class <escaped name>{` and closes the box; between the opening line and the closing line there is exactly the property lines, an indented line break and the method lines, and the length is that of the three parts |
| MermaidTemplate.InterfaceBox | src/core/renderer/mermaid-template.ts:30-40 | opens with the escaped name and the `<<interface>>` stereotype and closes the box; between the stereotype line and the closing line there is exactly the property lines, an indented line break and the method lines |
| MermaidTemplate.TypeBox | src/core/renderer/mermaid-template.ts:42-52 | opens with the escaped name and the `<<type>>` stereotype and closes the box; between the stereotype line and the closing line there is exactly the property lines, an indented line break and the method lines |
| MermaidTemplate.EnumBox | src/core/renderer/mermaid-template.ts:54-62 | opens with the `<<enumeration>>` stereotype, ends with the items joined by newlines, unescaped, and the closing line; between them there is exactly the joined items |
| MermaidTemplate.QuotedMultiplicity | src/core/renderer/mermaid-template.ts:65-66 | a non-empty multiplicity in quotes, otherwise nothing |
| MermaidTemplate.MemberAssociation | src/core/renderer/mermaid-template.ts:64-68 | the line starts with the escaped first name and a space, ends with a space and the escaped second name, and between them holds exactly the quoted first multiplicity, ` -- ` and the quoted second multiplicity |
| MermaidTemplate.UnlabelledAssociation | src/core/renderer/mermaid-template.ts:64-68 | without multiplicities: the escaped names around `  --  ` |
| MermaidTemplate.LabelledTargetEnd | src/core/renderer/mermaid-template.ts:64-68 | a collection end shows `"0..*"` next to its own name |
| MermaidTemplate.Mermaid | src/core/renderer/mermaid-template.ts:6-9 | the notation's composition glyph is `+->` and its association renderer reads its receiver |
| NomnomlTemplate.EscapeNomnoml | src/core/renderer/nomnoml-template.ts:111-113 | never shorter; text without special characters is unchanged; every special character in the result follows a backslash |
| NomnomlTemplate.EscapeRoundTrip | src/core/renderer/nomnoml-template.ts:111-113 | removing the added backslashes gives the original text back |
| NomnomlTemplate.EscapeGrows | src/core/renderer/nomnoml-template.ts:111-113 | text with a special character grows when escaped |
| NomnomlTemplate.EscapeTwiceDiffers | src/core/renderer/nomnoml-template.ts:111-113 | escaping is not idempotent: a second escape changes text with a special character |
| NomnomlTemplate.SpecialSurvives | src/core/renderer/nomnoml-template.ts:111-113 | escaping keeps every special character, behind its backslash |
| NomnomlTemplate.PlainClassOrInterface | src/core/renderer/nomnoml-template.ts:16 | the name, unescaped, between `[` and `]` |
| NomnomlTemplate.Implements | src/core/renderer/nomnoml-template.ts:8-12 | the bracketed interface, the glyph `<:--`, then the bracketed implementation; for an interface without `]` the first `]` closes its name |
| NomnomlTemplate.Extends | src/core/renderer/nomnoml-template.ts:13-15 | the bracketed base, the glyph `<:-`, then the bracketed derived name, whose `[` tells it from an implements edge; for a base without `]` the first `]` closes its name |
| NomnomlTemplate.Visibility | src/core/renderer/nomnoml-template.ts:91-97 | `-` exactly for private, `\#` exactly for protected and not private, `+` otherwise |
| NomnomlTemplate.ModifierTemplate | src/core/renderer/nomnoml-template.ts:74-102 | empty with modifiers off; otherwise the visibility mark followed by `abstract ` for an abstract member, else `static ` for a static one |
| NomnomlTemplate.EscapePropertyDetails | src/core/renderer/nomnoml-template.ts:123-128 | only a non-empty type is replaced by its escaped form; name, flags, optionality and ids are kept |
| NomnomlTemplate.EscapeMethodDetails | src/core/renderer/nomnoml-template.ts:116-121 | only a non-empty return type is replaced by its escaped form |
| NomnomlTemplate.PropertyTemplateAsWritten | src/core/renderer/nomnoml-template.ts:57-72 | as written: the text is rendered from the escaped record, and the escaped record is what remains |
| NomnomlTemplate.MethodTemplateAsWritten | src/core/renderer/nomnoml-template.ts:44-55 | as written: the text is rendered from the escaped record, and the escaped record is what remains |
| NomnomlTemplate.SecondRenderingDiffers | src/core/renderer/nomnoml-template.ts:57-72 | rendering the left-behind record again gives a different text once the shown type has a special character |
| NomnomlTemplate.PropertyTemplate | src/core/renderer/nomnoml-template.ts:57-72 | the first rendering's text: the modifier, the unescaped name, and for a shown type `?` if optional and `: ` with the type escaped once |
| NomnomlTemplate.MethodTemplate | src/core/renderer/nomnoml-template.ts:44-55 | the first rendering's text: the modifier, `name()`, and for a shown return type `: ` with it escaped once |
| NomnomlTemplate.PropertyTypeRecoverable | src/core/renderer/nomnoml-template.ts:57-72 | the type of a rendered property can be read back by unescaping the text after its prefix |
| NomnomlTemplate.ClassBox | src/core/renderer/nomnoml-template.ts:18-20 | opens with `[` and the name, then a bar and the properties compartment, and closes with a bar, the method compartment and `]` |
| NomnomlTemplate.InterfaceBox | src/core/renderer/nomnoml-template.ts:21-27 | opens with `[<interface>` and the name, then a bar and the properties compartment, and closes with a bar, the method compartment and `]` |
| NomnomlTemplate.TypeBox | src/core/renderer/nomnoml-template.ts:28-34 | opens with `[<type>` and the name, then a bar and the properties compartment, and closes with a bar, the method compartment and `]` |
| NomnomlTemplate.PropertyLinesReadBack | src/core/renderer/nomnoml-template.ts:19 | when no property line holds a `;`, splitting the properties compartment at `;` gives each property's line, in order |
| NomnomlTemplate.EnumBox | src/core/renderer/nomnoml-template.ts:35-40 | opens with `[<enumeration>` and the name and a bar, ends with `]`, and between them holds exactly the items joined by `;` |
| NomnomlTemplate.ClassBoxName | src/core/renderer/nomnoml-template.ts:18-20 | for a name without a bar, the name is everything before the first compartment bar |
| NomnomlTemplate.MultiplicityText | src/core/renderer/nomnoml-template.ts:106 | an unset multiplicity renders as nothing, a set one as itself |
| NomnomlTemplate.MemberAssociation | src/core/renderer/nomnoml-template.ts:105-107 | the line starts with the bracketed first name and a space, ends with a space and the bracketed second name, and between them holds exactly the first multiplicity text, ` - ` and the second |
| NomnomlTemplate.CollectionAssociation | src/core/renderer/nomnoml-template.ts:105-107 | an edge to a collection renders as `[a]  - 0..* [b]` |
| NomnomlTemplate.Nomnoml | src/core/renderer/nomnoml-template.ts:6-42 | the notation's composition glyph is `+->` and its association renderer needs no receiver |
| Emitter.EmitSingleClass | src/core/emitter.ts:7-9 | a class is drawn as the class box of its name, properties and methods; its id and heritage clauses do not enter the box |
| Emitter.EmitSingleInterface | src/core/emitter.ts:11-13 | an interface is drawn as the interface box of its name, properties and methods |
| Emitter.EmitSingleType | src/core/emitter.ts:15-17 | a type alias is drawn as the type box of its name, properties and methods |
| Emitter.EmitSingleEnum | src/core/emitter.ts:19-21 | an enum is drawn as the enum box of its name and items |
| Emitter.EmitHeritageClause | src/core/emitter.ts:24-30 | an `Extends` clause becomes the extends edge from its base to its class, every other kind the implements edge |
| Emitter.EmitHeritageClauses | src/core/emitter.ts:23-32 | one edge per clause, in order; `Extends` gives the extends edge, every other kind the implements edge |
| Emitter.RenderAssociations | src/core/emitter.ts:35 | one fragment per association, in order |
| Emitter.EmitMemberAssociations | src/core/emitter.ts:34-36 | nothing without a list, otherwise one fragment per association, in order |
| Emitter.EmitMemberAssociationsAsWritten | src/core/emitter.ts:35 | as written: fails exactly when the renderer reads its receiver and the list is non-empty; otherwise the bound result |
| Emitter.FileFragments | src/core/emitter.ts:41-49 | a file's fragments are its class boxes, interface boxes, enum boxes and type boxes, each in declaration order, then its heritage edges, then its associations |
| Emitter.FileFragmentCount | src/core/emitter.ts:41-51 | a file yields one fragment per class, interface, enum, type, heritage clause and association |
| Emitter.FragmentsAppend | src/core/emitter.ts:41-51 | files are emitted in order: two groups of files give the first group's fragments, then the second's |
| Emitter.FragmentsCons | src/core/emitter.ts:41-51 | the first file's fragments come first |
| Emitter.Emit | src/core/emitter.ts:40-61 | the fragments joined by newlines, or the placeholder when there are none |
| Emitter.EmitReadsBack | src/core/emitter.ts:60 | splitting the document at newlines gives the fragments back when none holds a newline |
| Emitter.EmitNeverEmpty | src/core/emitter.ts:54-60 | a document of non-empty fragments is never empty |
| Emitter.EmptyFileContributesNothing | src/core/emitter.ts:41-51 | an empty file without an association list yields no fragment |
| Emitter.EmptyFilesGivePlaceholder | src/core/emitter.ts:54-58 | files that yield nothing give exactly the placeholder |
| Emitter.EmitAsWritten | src/core/emitter.ts:40-61 | as written: fails exactly when some file's associations make the detached renderer fail; otherwise the bound document |
| Emitter.NomnomlEmitSucceeds | src/core/emitter.ts:35 | through nomnoml the as-written emission always succeeds |
| Emitter.MermaidEmitThrows | src/core/emitter.ts:35 | through Mermaid the as-written emission fails once any file has an association |
| Emitter.AssociationsOnlyFile | src/core/emitter.ts:48-49 | a file with nothing but associations renders exactly its associations |
| Emitter.NinjaWeaponAssociation | src/core/emitter.ts:34-36 | bound, the demo's Ninja and Weapon give the Mermaid line `Ninja  --  Weapon`; as written the same emission fails |
| Emitter.PlainAssociationText | src/core/renderer/mermaid-template.ts:64-68 | an edge without multiplicities between names without angle brackets renders as the names around `  --  ` |
| Emitter.XmlEncode | src/core/emitter.ts:66-73 | the five chained replacements equal encoding each character once |
| Emitter.StagesAreCharMap | src/core/emitter.ts:66-73 | the five replacements, `&` first, one after the other, encode each character once |
| Emitter.StageChar | src/core/emitter.ts:66-73 | the five replacements turn a single character into its predefined entity, or leave it as it is |
| Emitter.SpecialEncoded | src/core/emitter.ts:66-73 | each of the five special characters, alone, encodes to its own entity |
| Emitter.XmlEncodeAppend | src/core/emitter.ts:66-73 | the encoding distributes over concatenation |
| Emitter.XmlEncodeClean | src/core/emitter.ts:66-73 | the output holds none of `<`, `>`, `"` and `'` |
| Emitter.XmlRoundTrip | src/core/emitter.ts:66-73 | decoding the five entities gives the original text back |
| Emitter.StoredKeys | src/core/emitter.ts:89-94 | a dictionary holds exactly the keys of its entries |
| Emitter.LastWriteWins | src/core/emitter.ts:90-93 | the value stored under a key is the last entry with that key |
| Emitter.BuildIndex | src/core/emitter.ts:89-94 | the loop fills the dictionary with every target under its encoded name |
| Emitter.Lookup | src/core/emitter.ts:102 | classes first, then interfaces, enums and types; nothing exactly when no dictionary has the label |
| Emitter.ClassesComeFirst | src/core/emitter.ts:89-102 | a class wins over every other kind with the same encoded name: the last such class is the target |
| Emitter.LinkedLabels | src/core/emitter.ts:101-103 | a label is linked exactly when some declared class, interface, enum or type has it as its encoded name |
| Emitter.IndexHoldsKeys | src/core/emitter.ts:90-93 | a key is in the dictionary exactly when it is the encoded name of a target |
| Emitter.RewriteLine | src/core/emitter.ts:99-106 | a line changes only when its trimmed `<text` line has a label that names a declared type; it fails exactly when that type's id has no quoted part; otherwise it becomes the anchor around the trimmed line |
| Emitter.Anchor | src/core/emitter.ts:105 | the anchor opens with the id `<path>.<encoded name>` and the link `<path>`, ends with `</a>`, and between them holds exactly the label line, for any path; the length is that of the three parts |
| Emitter.AnchorUnwraps | src/core/emitter.ts:105 | the anchor keeps the label line intact when the path has no `>` |
| Emitter.CollectPointwise | src/core/emitter.ts:99-109 | collection succeeds exactly when every line does, and then keeps every line in place |
| Emitter.FailureIsFinal | src/core/emitter.ts:99-109 | once a line has failed, the whole run has failed |
| Emitter.Terminated | src/core/emitter.ts:108 | every output line is followed by a newline |
| Emitter.PostProcessSvg | src/core/emitter.ts:83-112 | fills the four dictionaries and rewrites the SVG line by line, as specified |
| Emitter.RewriteLines | src/core/emitter.ts:99-111 | the loop collects each rewritten line with its newline and stops at the first failure |
| Emitter.RewrittenLines | src/core/emitter.ts:99-111 | one output line per input line, in order, each the rewrite followed by a newline; fails exactly when some line fails |
| DiagramEngine.RemoveNonExportedNodes | src/core/diagram-engine.ts:106-108 | every kept node is exported and comes from the input; every exported input node is kept |
| DiagramEngine.RemoveNonExportedAppend | src/core/diagram-engine.ts:106-108 | the filter keeps order: filtering two lists is filtering their concatenation |
| DiagramEngine.AllExportedKept | src/core/diagram-engine.ts:106-108 | a list of exported nodes is kept as it is |
| DiagramEngine.Selected | src/core/diagram-engine.ts:30-35 | without the export filter, every node in order; with it, only exported nodes, which is all of them in order when every node is exported |
| DiagramEngine.RemoveNonExportedIdempotent | src/core/diagram-engine.ts:106-108 | filtering twice is filtering once |
| DiagramEngine.ClassesOf | src/core/diagram-engine.ts:37 | one parsed class per selected class node, in order |
| DiagramEngine.InterfacesOf | src/core/diagram-engine.ts:38 | one parsed interface per selected interface node, in order |
| DiagramEngine.EnumsOf | src/core/diagram-engine.ts:45 | one parsed enum per selected enum node, in order |
| DiagramEngine.TypesOf | src/core/diagram-engine.ts:44 | one parse result per selected type alias, in order |
| DiagramEngine.HeritageLists | src/core/diagram-engine.ts:46-53 | every kept clause list is non-empty, every non-empty list is kept, and no more lists than declarations |
| DiagramEngine.HeritageListsKeepClauses | src/core/diagram-engine.ts:46-53 | dropping the empty lists loses no clause: flattened, they are all clauses in declaration order |
| DiagramEngine.FileDeclarationOf | src/core/diagram-engine.ts:24-54 | the file's path, its parsed classes, interfaces and enums, its type-literal aliases, the clause lists of its classes then interfaces, and no association list |
| DiagramEngine.FileHeritageClauses | src/core/diagram-engine.ts:46-53 | the file's clauses, flattened, are all clauses of its classes, then of its interfaces |
| DiagramEngine.ExportedClassesOnly | src/core/diagram-engine.ts:30-35 | with the export filter on, every class comes from an exported node |
| DiagramEngine.ExportFilterNoOp | src/core/diagram-engine.ts:30-35 | when every node is exported, the filter changes nothing |
| DiagramEngine.FileDeclarations | src/core/diagram-engine.ts:24 | one declaration per file, in file order |
| DiagramEngine.ParsedProject | src/core/diagram-engine.ts:15-62 | without the association pass, the file declarations; with it, each file keeps its other fields and gets a list, with no flagged edge, no undeclared target and no opposite pair |
| DiagramEngine.ParseProject | src/core/diagram-engine.ts:15-62 | the association pass runs exactly when `memberAssociations` is on |
| DiagramEngine.StylesJoined | src/core/diagram-engine.ts:95-97 | the three style lines joined by newlines, plus the newline that ends the last |
| DiagramEngine.NomnomlHeader | src/core/diagram-engine.ts:93-100 | with user lines, the style lines then the user lines, joined by newlines; without, the style lines each ended by a newline |
| DiagramEngine.MermaidHeader | src/core/diagram-engine.ts:102-104 | an empty line, `classDiagram`, the user lines and an empty line, joined by newlines; without user lines the empty line is doubled |
| DiagramEngine.GetMermaidDSLAsWritten | src/core/diagram-engine.ts:70-72 | as written: fails exactly when the emission fails; otherwise the corrected document |
| DiagramEngine.BodyLines | src/core/diagram-engine.ts:65-72 | the body always has at least one line |
| DiagramEngine.EmitIsBodyJoined | src/core/emitter.ts:54-60 | the emitted body is its lines joined by newlines |
| DiagramEngine.GetNomnomlDSL | src/core/diagram-engine.ts:65-67 | line by line: the style lines, the user lines (or one empty line when there are none), then the body lines |
| DiagramEngine.GetMermaidDSL | src/core/diagram-engine.ts:70-72 | line by line: an empty line, `classDiagram`, the user lines, an empty line (doubled without user lines), then the body lines of the corrected emission |
| DiagramEngine.NomnomlDocumentReadsBack | src/core/diagram-engine.ts:65-67 | with user lines and at least one fragment, none holding a newline, splitting the nomnoml document gives back the style lines, the user lines and the fragments |
| DiagramEngine.RenderNomnomlSvgFromDeclarations | src/core/diagram-engine.ts:78-91 | the DSL is the nomnoml document; the SVG gets type links exactly when `typeLinks` is on and a non-empty diagram path is given, otherwise it is the rendering unchanged |
| Diagnostics.LevelCall | src/core/diagnostics.ts:9-14 | the direct call for a level keeps the message and the payload |
| Diagnostics.Entry | src/core/diagnostics.ts:26-33 | a report's entry is its diagnostic unchanged; a direct call's entry has its level, message and payload |
| Diagnostics.Entries | src/core/diagnostics.ts:26-33 | one entry per call, in call order |
| Diagnostics.EntriesAppend | src/core/diagnostics.ts:24 | a later run of calls only extends what an earlier run recorded |
| Diagnostics.ReportMatchesLevelCall | src/core/diagnostics.ts:27-32 | reporting a diagnostic records the same entry as the direct call of its level |
| Diagnostics.ArrayDiagnosticsCollector.constructor | src/core/diagnostics.ts:23-24 | the collector starts with an empty list |
| Diagnostics.ArrayDiagnosticsCollector.Report | src/core/diagnostics.ts:27-29 | appends the diagnostic unchanged; earlier entries stay |
| Diagnostics.ArrayDiagnosticsCollector.Info | src/core/diagnostics.ts:30 | appends one info entry with the message and payload; earlier entries stay |
| Diagnostics.ArrayDiagnosticsCollector.Warn | src/core/diagnostics.ts:31 | appends one warn entry with the message and payload; earlier entries stay |
| Diagnostics.ArrayDiagnosticsCollector.Error | src/core/diagnostics.ts:32 | appends one error entry with the message and payload; earlier entries stay |
| Diagnostics.ArrayDiagnosticsCollector.Receive | src/core/diagnostics.ts:26-33 | any one call appends exactly its entry |
| Diagnostics.ArrayDiagnosticsCollector.ReceiveAll | src/core/diagnostics.ts:24-35 | a run of calls appends their entries in call order after the earlier ones |
| Diagnostics.ChannelOf | src/core/diagnostics.ts:43-49 | errors go to `error`, warnings to `warn`, everything else to `log`, each exactly |
| Diagnostics.Route | src/core/diagnostics.ts:42-53 | a report goes to its level's channel, a direct call to its own; message and payload are passed through |
| Diagnostics.RouteReportMatchesLevelCall | src/core/diagnostics.ts:42-53 | reporting a diagnostic logs the same as the direct call of its level |
| Diagnostics.RouteFollowsEntry | src/core/diagnostics.ts:26-53 | the console logs each entry the array collector would record, on its level's channel |
| Diagnostics.Step | src/core/diagnostics.ts:16-53 | one call: the null collector changes nothing, the array collector appends its entry, the console collector logs its route |
| Diagnostics.Routes | src/core/diagnostics.ts:42-53 | one logger call per call, in order |
| Diagnostics.NullIgnoresAll | src/core/diagnostics.ts:16-21 | the null collector ignores every call: nothing recorded, nothing logged |
| Diagnostics.ArrayRecordsAll | src/core/diagnostics.ts:23-35 | the array collector keeps its earlier entries, appends one per call in order, and logs nothing |
| Diagnostics.ConsoleLogsAll | src/core/diagnostics.ts:38-55 | the console collector records nothing and makes one logger call per call, in order |
| Diagnostics.ArrayCollectorMatches | src/core/diagnostics.ts:23-35 | the collector object records what the model of the array collector records, one entry per call |
| JsString.JoinSplit | src/core/emitter.ts:99 | joining the pieces of a split with the separator gives the text back |
| JsString.SplitJoin | src/core/emitter.ts:99 | splitting a join of separator-free pieces gives the pieces back |
| JsString.Trim | src/core/emitter.ts:100 | the result is no longer than the input and does not end with whitespace |
| JsString.TrimIsTrim | src/core/emitter.ts:100 | the result of `Trim` is a slice of the input with no leading or trailing whitespace, and only whitespace is removed on either side |
| JsString.DelimitedGroupOnOneLine | src/core/emitter.ts:96 | on one line, the capture group of `/>(.*)</` is the text between the first `>` and the last `<`, present exactly when a `<` follows the first `>` |
| JsMap.Set | src/core/parser/associations.ts:52 | a new key goes last, an existing key keeps its place, and the value is replaced |
| JsMap.Delete | src/core/parser/associations.ts:81 | the entry goes and the other keys keep their order |

## Left out

- The TypeScript compiler front end (`getAst`, symbol and type queries,
  `getText`, the `import(...)` clean-up in `getTypeAsString`). Its nodes,
  symbols and types are inputs of the model: names, type texts and type
  trees as plain data.
- Node's path arithmetic in `getRelativeFilePath` (`resolve`, `dirname`,
  `relative`). It is the parameter `relativePath`.
- The SVG renderer (`renderNomnomlSVG` in `src/core/io.ts`). It is the
  parameter `render`.
- File output, console logging (`chalk`, `console.log`/`console.error` in
  the emitter and the parser) and the configuration readers
  (`src/core/parse-settings.ts`, `src/core/tsuml2-settings.ts`).
- The entry points `src/core/index.ts`, `src/bin/index.ts` and
  `src/lib/index.ts`. `src/core/index.ts` imports `provideDiagnostics` and
  `logger`, which `src/core/diagnostics.ts` does not define.
- The superseded files `src/core/parser.ts`, `src/core/templates.ts` and
  `src/core/interfaces.ts`. `src/core/diagram-engine.ts:6` imports
  `parseAssociations` from `src/core/parser.ts`, which does not export it;
  the model uses the association pass of `src/core/parser/associations.ts`.
- Behaviour that the tests expect and the code does not have:
  - Brace encoding in Mermaid names.
  - Name escaping in nomnoml.
  - A three-argument `emit`.
  - A `getRelativeFilePath` that returns an empty path with a warning;
    the code throws.
- Diagnostics.Data: the payload of a diagnostic may be any value in the
  source. Here it is an opaque string, because nothing reads inside it.
- Diagnostics.Route: the console collector's default logger (the global
  `console`) is not modelled. The logger calls are recorded as values.
- DiagramEngine.RenderNomnomlSvgFromDeclarations: `null` and `undefined`
  diagram paths are both `None`.
- Parser.ParseMethod: the type text is taken as given. The regex
  clean-up applied to it is part of the compiler front end above.
- Model.GetRelativeFilePath: the error is the `None` result rather than
  an exception.
- Emitter.PostProcessSvg: the dictionaries are Dafny maps. Keys such as
  `constructor` or `__proto__`, which would reach inherited members of a
  plain JavaScript object, behave like any other key.
- Associations.EdgeKey: map keys are `<from>_<to>`, as in the source.
  Ids that contain `_` can make two different pairs share a key. The
  model keeps that behaviour, and the one-way property is stated over
  the edges, not over the keys.
- Associations.ParsedAssociations: requires a rank on type ids that
  decreases from every type to each declared base. The recursion of
  `checkInheritedAssociation` does not terminate on a cyclic heritage
  graph, and such graphs are not modelled.
- Associations.CheckInherited: the corrected check skips a missing edge
  and treats a type without heritage clauses as having none. The
  as-written check keeps both failures (see Findings, rows 1 and 2).
- Associations.ScanReference: an owner that references the same target
  twice, in two properties or twice in one, creates two edges and lists
  both, as the source does. The second is stored under the key and
  replaces the first in the map. The first is never in the map, so the
  inheritance pass never checks it or flags it, and it stays on the
  file's list even when the type inherits that association. The model
  keeps this behaviour. `ParsedDrops` states that an edge not stored
  under its own key is never flagged. So "one association per pair of
  types" is not promised.
- Associations.CheckLastDecides: with several resolving bases, the
  source's answer depends on their order. Each clause overwrites
  `inherited` (associations.ts:95-96), so the last resolving clause
  decides. A flag set while an earlier clause answered true stays set
  (associations.ts:97-100). Such an edge leaves the file's list, but its
  key stays in the map when the last clause answers false. The model
  keeps both behaviours: `ProcessKeysExact` states which keys go, and
  `ParsedDrops` states which edges are flagged. Completeness for
  flagging is stated exactly only under single inheritance
  (`ParsedDropsSingle`).
- Associations.ProcessKeysExact, Associations.ParsedDrops and the
  lemmas beside them: they assume that every declared id has the form
  the parser builds, `"<path>".<name>`, with no underscore directly
  before a double quote. Only then does `<from>_<to>` name its two ends
  (`EdgeKeySplits`). A path or name that contains `_"` is not covered.
- Associations.ParseAssociations: the source writes the raw lists into
  the file records and then reads the flags through shared objects. The
  model keeps the edges in one sequence with index lists, so it does not
  capture aliasing between unrelated callers' records.
- NomnomlTemplate.PropertyTemplateAsWritten and
  NomnomlTemplate.MethodTemplateAsWritten: the write-back into the
  caller's record is modelled by returning the escaped record, so the
  aliasing between the template and the declaration model is expressed
  as values.
- DiagramEngine.NomnomlDocumentReadsBack: requires at least one
  fragment. With no fragment the body is the placeholder, whose
  read-back is not stated.
- MermaidTemplate.MemberAssociation and Emitter.EmitMemberAssociations:
  the renderer that reads `this` is modelled by the flag
  `associationReadsReceiver`, not by an object with a receiver.
- Parser.WithGenerics: the type branch of `getClassOrInterfaceName`
  (symbol names, `__type`, `default`) is reduced to the name the branch
  computes, as an input.

## Findings

| source | as written | input that shows it | evidently intended | confidence | as-written member | corrected member |
|---|---|---|---|---|---|---|
| src/core/parser/associations.ts:99 | `associationMap.get(srcTypeId_X)!.inerhited = true` assumes the subtype's own edge is still in the map | C extends B extends A; A and C reference X, B does not. Checking C's edge recurses into B, finds A's edge, and then flags B's edge, which does not exist | flag the edge only when it is present, so that C's edge is found inherited through B and dropped | not executed | Associations.CheckInheritedAsWritten (Associations.WrittenOkExact, Associations.ParseOkSound, Associations.ParseOkComplete, AssociationScenarios.ChainCheckFails, AssociationScenarios.ChainParseFails) | Associations.CheckInherited (AssociationScenarios.ChainCheckCorrected, AssociationScenarios.ChainParseCorrected, Associations.SingleInheritanceExact, Associations.ParsedDrops) |
| src/core/parser/associations.ts:88-90 | `for (const clause of (type as Interface).heritageClauses)` assumes every declared type has heritage clauses. A type alias has none: src/core/parser/parser.ts:95 builds it from name, id, methods and properties only. src/core/model.ts does not declare `TypeAlias`, so this shape is inferred from that call. Iterating the missing field throws | `type T = { w: Weapon }` next to `class Weapon {}`, with member associations on: the scan creates the edge T to Weapon, and the inheritance pass checks it | treat a type without heritage clauses as having no bases, so that T's edge is kept | not executed | Associations.AliasOwnerCrashes (Associations.AliasOwnerFails, Associations.CheckInheritedAsWritten) | Associations.AliasOwnerKept (Associations.CheckInherited, Associations.ParsedAssociations) |
| src/core/emitter.ts:35 | `associations.map(this.template.memberAssociation)` passes the Mermaid method without its receiver, and the method reads `this.plainClassOrInterface` | Mermaid emission of a file with one association, such as the demo's Ninja holding a Weapon | call the renderer as a method, giving the line `Ninja  --  Weapon` | not executed | Emitter.EmitMemberAssociationsAsWritten (Emitter.MermaidEmitThrows, Emitter.NinjaWeaponAssociation) | Emitter.EmitMemberAssociations (Emitter.NinjaWeaponAssociation, DiagramEngine.GetMermaidDSLAsWritten) |
| src/core/renderer/nomnoml-template.ts:116-128 | the escape is written back into the declaration record, so every later rendering escapes the type again | a property typed `A\|B` rendered twice, for example by two nomnoml emissions of the same declarations | escape a copy, so that every rendering escapes the type exactly once | not executed | NomnomlTemplate.PropertyTemplateAsWritten (NomnomlTemplate.SecondRenderingDiffers) | NomnomlTemplate.PropertyTemplate (NomnomlTemplate.PropertyTypeRecoverable, NomnomlTemplate.EscapeRoundTrip) |
