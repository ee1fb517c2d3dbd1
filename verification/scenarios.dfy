/**
 * Worked inputs for the association pass: the inheritance de-dup case the
 * integration test describes, and the two chains on which the inheritance
 * check fails as written.
 */
module AssociationScenarios {
  import opened Wrappers
  import opened Model
  import opened JsArray
  import opened Associations

  const NoFlags := ModifierFlags(false, false, false, false)

  /** A property `name: T[]` whose array element type has id `target`. */
  function ArrayProperty(name: string, typeText: string, target: string): PropertyDetails {
    PropertyDetails(NoFlags, name, Some(typeText), [target], false)
  }

  /** A class, with an `extends` clause to `base` when one is given. */
  function Class(name: string, id: string, properties: seq<PropertyDetails>, base: Option<(string, string)>): Clazz {
    var heritage := if base.Some? then [HeritageClause(base.value.0, Some(base.value.1), name, id, Extends)] else [];
    Interface(name, id, properties, [], heritage)
  }

  function File(classes: seq<Clazz>): FileDeclaration {
    FileDeclaration("model.ts", classes, [], [], [], [], None)
  }

  /** `class Item {}`, `class Base { items: Item[] }`, `class Derived extends Base { items: Item[] }`. */
  function DedupFile(): FileDeclaration {
    File([Class("Item", "I", [], None),
          Class("Base", "B", [ArrayProperty("items", "Item[]", "I")], None),
          Class("Derived", "D", [ArrayProperty("items", "Item[]", "I")], Some(("Base", "B")))])
  }

  function DedupRank(id: string): nat {
    if id == "D" then 2 else if id == "B" then 1 else 0
  }

  const ItemEntry := TypeEntry("Item", "I", Some([]))
  const BaseEntry := TypeEntry("Base", "B", Some([]))
  const DerivedClause := HeritageClause("Base", Some("B"), "Derived", "D", Extends)
  const DerivedEntry := TypeEntry("Derived", "D", Some([DerivedClause]))
  const DedupTypes: TypeMap := map["I" := ItemEntry, "B" := BaseEntry, "D" := DerivedEntry]

  lemma DedupTypeMap()
    ensures TypeMapOf([DedupFile()]) == DedupTypes
  {
    var f := DedupFile();
    var es := [ItemEntry, BaseEntry, DerivedEntry];
    assert FileEntries(f) == es;
    assert AllEntries([f]) == es by {
      assert Flat([es]) == es + Flat([]);
    }
    assert es[..2] == [ItemEntry, BaseEntry] && es[..2][..1] == [ItemEntry] && es[..2][..1][..0] == [];
    assert Register([ItemEntry]) == map["I" := ItemEntry];
    assert Register(es[..2]) == map["I" := ItemEntry, "B" := BaseEntry];
  }

  lemma DedupRanked()
    ensures Ranked(DedupTypes, DedupRank)
  {
    assert Heritage(DedupTypes, "D") == [DerivedClause];
  }

  const BaseItem := MemberAssociation(AssociationEnd("B", "Base", None), AssociationEnd("I", "Item", Some("0..*")), false)
  const DerivedItem := MemberAssociation(AssociationEnd("D", "Derived", None), AssociationEnd("I", "Item", Some("0..*")), false)
  const ScannedMap: JsMap.Map<nat> := JsMap.Map(["B_I", "D_I"], map["B_I" := 0, "D_I" := 1])
  const ItemsProperty := ArrayProperty("items", "Item[]", "I")
  const BaseOwner := Owner("B", "Base", [ItemsProperty])
  const DerivedOwner := Owner("D", "Derived", [ItemsProperty])
  const Scan0 := Scan([], JsMap.Empty(), [])
  const Scan1 := Scan([BaseItem], JsMap.Map(["B_I"], map["B_I" := 0]), [0])
  const Scan2 := Scan([BaseItem, DerivedItem], ScannedMap, [0, 1])

  lemma ArrayMultiplicity()
    ensures MultiplicityOf(ItemsProperty) == Some("0..*")
  {
    assert "Item[]"[4] == '[';
  }

  /** One property with one id: the scan of it is the scan of that id. */
  lemma OneReference(s: Scan, owner: Owner, prop: PropertyDetails, id: string, types: TypeMap)
    requires ScanValid(s) && owner.properties == [prop] && prop.typeIds == [id]
    ensures ScanProperties(s, owner, owner.properties, types) == ScanReference(s, owner, prop, id, types)
  {
    assert owner.properties[..0] == [] && prop.typeIds[..0] == [];
    assert ScanProperties(s, owner, owner.properties[..0], types) == s;
    assert ScanIds(s, owner, prop, prop.typeIds[..0], types) == s;
  }

  lemma BaseScan(s: Scan, owner: Owner, types: TypeMap)
    requires s == Scan0 && owner == BaseOwner && types == DedupTypes
    ensures ScanProperties(s, owner, owner.properties, types) == Scan1
  {
    OneReference(s, owner, ItemsProperty, "I", types);
    ArrayMultiplicity();
    assert EdgeKey("I", "B") !in s.associations.at;
    assert EdgeKey("B", "I") == "B_I";
  }

  /** A reference with no reverse edge to a declared type appends a fresh edge. */
  lemma FreshReference(s: Scan, owner: Owner, prop: PropertyDetails, id: string, types: TypeMap)
    requires ScanValid(s) && EdgeKey(id, owner.id) !in s.associations.at && id in types
    ensures ScanReference(s, owner, prop, id, types)
         == Scan(s.edges + [MemberAssociation(AssociationEnd(owner.id, owner.name, None),
                                              AssociationEnd(id, types[id].name, MultiplicityOf(prop)), false)],
                 JsMap.Set(s.associations, EdgeKey(owner.id, id), |s.edges|), s.pushed + [|s.edges|])
  {
  }

  lemma SecondKey(m: JsMap.Map<nat>)
    requires m == Scan1.associations
    ensures JsMap.Set(m, "D_I", 1) == ScannedMap
  {
    assert "D_I" !in m.at by {
      assert m.at.Keys == {"B_I"};
      assert "D_I"[0] != "B_I"[0];
    }
  }

  lemma DerivedFresh(s: Scan)
    requires s == Scan1
    ensures EdgeKey("I", "D") !in s.associations.at && ScanValid(s)
  {
    assert s.associations.at.Keys == {"B_I"};
    assert EdgeKey("I", "D")[0] != "B_I"[0];
  }

  lemma DerivedReference(s: Scan, owner: Owner, types: TypeMap)
    requires s == Scan1 && owner == DerivedOwner && types == DedupTypes
    ensures ScanReference(s, owner, ItemsProperty, "I", types) == Scan2
  {
    ArrayMultiplicity();
    DerivedFresh(s);
    FreshReference(s, owner, ItemsProperty, "I", types);
    assert EdgeKey("D", "I") == "D_I";
    SecondKey(s.associations);
  }

  lemma DerivedScan(s: Scan, owner: Owner, types: TypeMap)
    requires s == Scan1 && owner == DerivedOwner && types == DedupTypes
    ensures ScanProperties(s, owner, owner.properties, types) == Scan2
  {
    DerivedFresh(s);
    OneReference(s, owner, ItemsProperty, "I", types);
    DerivedReference(s, owner, types);
  }

  /** The scan of a single file. */
  lemma OneFile(declarations: seq<FileDeclaration>, types: TypeMap)
    requires |declarations| == 1
    ensures var s := ScanOwners(Scan([], JsMap.Empty(), []), OwnersOf(declarations[0]), types);
            ScanFiles(declarations, types) == Pass(s.edges, s.associations, [s.pushed])
  {
    assert declarations[..0] == [];
  }

  const ItemOwner := Owner("I", "Item", [])

  /** One step of the owner scan: the last owner's properties are scanned after the others. */
  lemma ScanOwnersLast(s: Scan, owners: seq<Owner>, types: TypeMap)
    requires ScanValid(s) && owners != []
    ensures ScanOwners(s, owners, types)
      == ScanProperties(ScanOwners(s, owners[..|owners| - 1], types), owners[|owners| - 1], owners[|owners| - 1].properties, types)
  {
  }

  lemma DedupOwners(s: Scan, owners: seq<Owner>, types: TypeMap)
    requires s == Scan0 && owners == [ItemOwner, BaseOwner, DerivedOwner] && types == DedupTypes
    ensures ScanOwners(s, owners, types) == Scan2
  {
    var o1, o2 := owners[..1], owners[..2];
    assert o1[..0] == [] && o2[..1] == o1 && owners[..2] == o2;
    ScanOwnersLast(s, o1, types);
    assert ScanOwners(s, o1, types) == s;
    ScanOwnersLast(s, o2, types);
    BaseScan(s, BaseOwner, types);
    assert ScanOwners(s, o2, types) == Scan1;
    ScanOwnersLast(s, owners, types);
    DerivedScan(Scan1, DerivedOwner, types);
  }

  lemma DedupScan()
    ensures ScanFiles([DedupFile()], DedupTypes) == Pass([BaseItem, DerivedItem], ScannedMap, [[0, 1]])
  {
    assert OwnersOf(DedupFile()) == [ItemOwner, BaseOwner, DerivedOwner];
    OneFile([DedupFile()], DedupTypes);
    DedupOwners(Scan0, [ItemOwner, BaseOwner, DerivedOwner], DedupTypes);
  }

  const Scanned := [BaseItem, DerivedItem]
  const FlaggedEdges := [BaseItem, DerivedItem.(inherited := true)]
  const Remaining: JsMap.Map<nat> := JsMap.Map(["B_I"], map["B_I" := 0])

  lemma ScannedIndexes(m: JsMap.Map<nat>, edges: seq<MemberAssociation>)
    requires m == ScannedMap && |edges| == 2
    ensures JsMap.Valid(m) && Indexes(m, edges)
  {
    assert "B_I"[0] != "D_I"[0];
  }

  /** Base has no heritage clause: nothing is inherited. */
  lemma BaseNotInherited(m: JsMap.Map<nat>, edges: seq<MemberAssociation>, types: TypeMap)
    requires m == ScannedMap && edges == Scanned && types == DedupTypes
    ensures Indexes(m, edges) && Ranked(types, DedupRank)
    ensures CheckInherited("B", "I", m, edges, types, DedupRank) == (edges, false)
  {
    ScannedIndexes(m, edges);
    DedupRanked();
    assert Heritage(types, "B") == [];
  }

  /** Derived extends Base, which has its own edge to Item: Derived's edge is flagged. */
  lemma DerivedInherited(m: JsMap.Map<nat>, edges: seq<MemberAssociation>, types: TypeMap)
    requires m == ScannedMap && edges == Scanned && types == DedupTypes
    ensures Indexes(m, edges) && Ranked(types, DedupRank)
    ensures CheckInherited("D", "I", m, edges, types, DedupRank) == (FlaggedEdges, true)
  {
    BaseNotInherited(m, edges, types);
    assert Heritage(types, "D") == [DerivedClause];
    assert Resolves(types, DerivedClause) && BaseOf(types, DerivedClause) == BaseEntry;
    assert EdgeKey("B", "I") == "B_I" && EdgeKey("D", "I") == "D_I";
    assert Flag(edges, m, "D_I") == FlaggedEdges;
    assert CheckClauses("D", "I", 1, true, m, FlaggedEdges, types, DedupRank) == (FlaggedEdges, true);
  }

  lemma DeleteDerived(m: JsMap.Map<nat>)
    requires m == ScannedMap
    ensures JsMap.Valid(m) && JsMap.Delete(m, "D_I") == Remaining
  {
    ScannedIndexes(m, Scanned);
    assert "B_I" != "D_I" by { assert "B_I"[0] != "D_I"[0]; }
    assert JsMap.Without(["D_I"], "D_I") == [];
    assert JsMap.Without(m.keys, "D_I") == ["B_I"];
    assert m.at - {"D_I"} == map["B_I" := 0];
  }

  /** Visiting a key whose edge is not inherited keeps the map. */
  lemma VisitKept(keys: seq<string>, m: JsMap.Map<nat>, edges: seq<MemberAssociation>, types: TypeMap, rank: string -> nat)
    requires keys != [] && JsMap.Valid(m) && Indexes(m, edges) && KeysMatch(m, edges) && Ranked(types, rank)
    requires keys[0] in m.at
    requires var e := edges[m.at[keys[0]]]; CheckInherited(e.a.typeId, e.b.typeId, m, edges, types, rank) == (edges, false)
    ensures ProcessKeys(keys, m, edges, types, rank) == ProcessKeys(keys[1..], m, edges, types, rank)
  {
    ProcessKeysUnfold(keys, m, edges, types, rank);
  }

  /** Visiting the last key when its edge is inherited deletes it. */
  lemma VisitDeleted(keys: seq<string>, m: JsMap.Map<nat>, edges: seq<MemberAssociation>, flagged: seq<MemberAssociation>,
                     types: TypeMap, rank: string -> nat)
    requires |keys| == 1 && JsMap.Valid(m) && Indexes(m, edges) && KeysMatch(m, edges) && Ranked(types, rank)
    requires keys[0] in m.at
    requires var e := edges[m.at[keys[0]]]; CheckInherited(e.a.typeId, e.b.typeId, m, edges, types, rank) == (flagged, true)
    ensures ProcessKeys(keys, m, edges, types, rank) == (JsMap.Delete(m, keys[0]), flagged)
  {
    ProcessKeysUnfold(keys, m, edges, types, rank);
    assert keys[1..] == [];
  }

  lemma ScannedKeys(m: JsMap.Map<nat>, edges: seq<MemberAssociation>)
    requires m == ScannedMap && edges == Scanned
    ensures JsMap.Valid(m) && Indexes(m, edges) && KeysMatch(m, edges)
    ensures m.at["B_I"] == 0 && m.at["D_I"] == 1 && m.keys[1..] == ["D_I"]
  {
    ScannedIndexes(m, edges);
  }

  lemma DedupProcess(m: JsMap.Map<nat>, edges: seq<MemberAssociation>, types: TypeMap)
    requires m == ScannedMap && edges == Scanned && types == DedupTypes
    ensures JsMap.Valid(m) && Indexes(m, edges) && KeysMatch(m, edges) && Ranked(types, DedupRank)
    ensures ProcessKeys(m.keys, m, edges, types, DedupRank) == (Remaining, FlaggedEdges)
  {
    ScannedKeys(m, edges);
    BaseNotInherited(m, edges, types);
    VisitKept(m.keys, m, edges, types, DedupRank);
    DerivedInherited(m, edges, types);
    VisitDeleted(["D_I"], m, edges, FlaggedEdges, types, DedupRank);
    DeleteDerived(m);
  }

  /** A single file whose list keeps exactly the first edge gets that edge alone. */
  lemma KeepsFirst(declarations: seq<FileDeclaration>, lists: seq<seq<nat>>, edges: seq<MemberAssociation>)
    requires |declarations| == 1 && |lists| == 1 && ListsValid(lists, edges)
    requires Unflagged(lists[0], edges) == [0]
    ensures Deduplicated(declarations, lists, edges)[0].memberAssociations == Some([edges[0]])
  {
    assert Resolve([0], edges) == [edges[0]];
  }

  lemma DedupListsValid(lists: seq<seq<nat>>, edges: seq<MemberAssociation>)
    requires lists == [[0, 1]] && |edges| == 2
    ensures ListsValid(lists, edges)
  {
  }

  lemma DedupLists(edges: seq<MemberAssociation>)
    requires edges == FlaggedEdges
    ensures Unflagged([0, 1], edges) == [0]
  {
    assert [0, 1][..1] == [0] && [0][..0] == [];
  }

  /** Base keeps its `0..*` association to Item; Derived's copy of it is dropped. */
  lemma DedupScenario()
    ensures Ranked(TypeMapOf([DedupFile()]), DedupRank)
    ensures ParsedAssociations([DedupFile()], DedupRank)[0].memberAssociations
         == Some([MemberAssociation(AssociationEnd("B", "Base", None), AssociationEnd("I", "Item", Some("0..*")), false)])
  {
    DedupTypeMap();
    DedupRanked();
    DedupScan();
    DedupProcess(ScannedMap, Scanned, DedupTypes);
    DedupListsValid([[0, 1]], FlaggedEdges);
    DedupLists(FlaggedEdges);
    KeepsFirst([DedupFile()], [[0, 1]], FlaggedEdges);
  }

  // A three-level chain: C extends B extends A, and the check for C's edge to X

  const ClauseBA := HeritageClause("A", Some("A"), "B", "B", Extends)
  const ClauseCB := HeritageClause("B", Some("B"), "C", "C", Extends)
  const ChainTypes: TypeMap := map["X" := TypeEntry("X", "X", Some([])), "A" := TypeEntry("A", "A", Some([])),
                                   "B" := TypeEntry("B", "B", Some([ClauseBA])), "C" := TypeEntry("C", "C", Some([ClauseCB]))]

  function ChainRank(id: string): nat {
    if id == "C" then 2 else if id == "B" then 1 else 0
  }

  lemma ChainRanked(types: TypeMap)
    requires types == ChainTypes
    ensures Ranked(types, ChainRank)
  {
    assert Heritage(types, "B") == [ClauseBA] && Heritage(types, "C") == [ClauseCB];
    assert Heritage(types, "A") == [] && Heritage(types, "X") == [];
  }

  /** A has no base: its check is false and changes nothing. */
  lemma RootCheck(m: JsMap.Map<nat>, edges: seq<MemberAssociation>, types: TypeMap)
    requires Indexes(m, edges) && types == ChainTypes
    ensures Ranked(types, ChainRank)
    ensures CheckInheritedAsWritten("A", "X", m, edges, types, ChainRank) == Ok((edges, false))
  {
    ChainRanked(types);
    assert Heritage(types, "A") == [];
  }

  /**
   * B extends A, A has its own edge to X and B has none in the map: the
   * check for B finds the edge inherited and then fails on B's missing
   * entry.
   */
  lemma MiddleCheckFails(m: JsMap.Map<nat>, edges: seq<MemberAssociation>, types: TypeMap)
    requires Indexes(m, edges) && types == ChainTypes
    requires "A_X" in m.at && "B_X" !in m.at
    ensures Ranked(types, ChainRank)
    ensures CheckInheritedAsWritten("B", "X", m, edges, types, ChainRank) == Err(SetUndefined)
  {
    RootCheck(m, edges, types);
    assert Heritage(types, "B") == [ClauseBA];
    assert Resolves(types, ClauseBA) && BaseOf(types, ClauseBA).id == "A";
    assert EdgeKey("A", "X") == "A_X" && EdgeKey("B", "X") == "B_X";
  }

  /**
   * The check for C's edge to X, as written, fails whenever the map holds
   * A's edge to X but not B's: B never referenced X, or B's edge was
   * deleted earlier in the pass.
   */
  lemma ChainCheckFails(m: JsMap.Map<nat>, edges: seq<MemberAssociation>, types: TypeMap)
    requires Indexes(m, edges) && types == ChainTypes
    requires "A_X" in m.at && "B_X" !in m.at
    ensures Ranked(types, ChainRank)
    ensures CheckInheritedAsWritten("C", "X", m, edges, types, ChainRank) == Err(SetUndefined)
  {
    MiddleCheckFails(m, edges, types);
    assert Heritage(types, "C") == [ClauseCB];
    assert Resolves(types, ClauseCB) && BaseOf(types, ClauseCB).id == "B";
  }

  /** Corrected, the check for B finds A's edge and reports B's edge inherited, with nothing to flag. */
  lemma MiddleCheck(m: JsMap.Map<nat>, edges: seq<MemberAssociation>, types: TypeMap)
    requires Indexes(m, edges) && types == ChainTypes
    requires "A_X" in m.at && "B_X" !in m.at
    ensures Ranked(types, ChainRank)
    ensures CheckInherited("B", "X", m, edges, types, ChainRank) == (edges, true)
  {
    ChainRanked(types);
    assert Heritage(types, "A") == [] && Heritage(types, "B") == [ClauseBA];
    assert CheckInherited("A", "X", m, edges, types, ChainRank) == (edges, false);
    assert Resolves(types, ClauseBA) && BaseOf(types, ClauseBA).id == "A";
    assert EdgeKey("A", "X") == "A_X" && EdgeKey("B", "X") == "B_X";
    assert Flag(edges, m, "B_X") == edges;
    assert CheckClauses("B", "X", 1, true, m, edges, types, ChainRank) == (edges, true);
  }

  /** On the same input the corrected check finds C's edge inherited from A through B and flags it. */
  lemma ChainCheckCorrected(m: JsMap.Map<nat>, edges: seq<MemberAssociation>, types: TypeMap)
    requires Indexes(m, edges) && types == ChainTypes
    requires "A_X" in m.at && "B_X" !in m.at
    ensures Ranked(types, ChainRank)
    ensures CheckInherited("C", "X", m, edges, types, ChainRank).1
    ensures Flagged(CheckInherited("C", "X", m, edges, types, ChainRank).0, m, "C_X")
  {
    MiddleCheck(m, edges, types);
    assert Heritage(types, "C") == [ClauseCB];
    assert Resolves(types, ClauseCB) && BaseOf(types, ClauseCB).id == "B";
    assert EdgeKey("C", "X") == "C_X";
  }

  // The same chain, end to end: `class X {}`, `class A { x: X }`,
  // `class B extends A {}`, `class C extends B { x: X }`

  const XProperty := PropertyDetails(NoFlags, "x", Some("X"), ["X"], false)

  function ChainFile(): FileDeclaration {
    File([Class("X", "X", [], None), Class("A", "A", [XProperty], None),
          Class("B", "B", [], Some(("A", "A"))), Class("C", "C", [XProperty], Some(("B", "B")))])
  }

  /** Registering four entries, one after the other. */
  lemma RegisterFour(a: TypeEntry, b: TypeEntry, c: TypeEntry, d: TypeEntry)
    ensures Register([a, b, c, d]) == map[a.id := a][b.id := b][c.id := c][d.id := d]
  {
    assert [a][..0] == [] && [a, b][..1] == [a] && [a, b, c][..2] == [a, b] && [a, b, c, d][..3] == [a, b, c];
    assert Register([a]) == map[a.id := a];
    assert Register([a, b]) == Register([a])[b.id := b];
    assert Register([a, b, c]) == Register([a, b])[c.id := c];
    assert Register([a, b, c, d]) == Register([a, b, c])[d.id := d];
  }

  lemma ChainTypeMap()
    ensures TypeMapOf([ChainFile()]) == ChainTypes
  {
    var f := ChainFile();
    var es := [ChainTypes["X"], ChainTypes["A"], ChainTypes["B"], ChainTypes["C"]];
    assert FileEntries(f) == es;
    assert AllEntries([f]) == es by {
      assert Flat([es]) == es + Flat([]);
    }
    RegisterFour(es[0], es[1], es[2], es[3]);
  }

  const AX := MemberAssociation(AssociationEnd("A", "A", None), AssociationEnd("X", "X", None), false)
  const CX := MemberAssociation(AssociationEnd("C", "C", None), AssociationEnd("X", "X", None), false)
  const ChainMap: JsMap.Map<nat> := JsMap.Map(["A_X", "C_X"], map["A_X" := 0, "C_X" := 1])
  const ChainScan1 := Scan([AX], JsMap.Map(["A_X"], map["A_X" := 0]), [0])
  const ChainScan2 := Scan([AX, CX], ChainMap, [0, 1])
  const OwnerX := Owner("X", "X", [])
  const OwnerA := Owner("A", "A", [XProperty])
  const OwnerB := Owner("B", "B", [])
  const OwnerC := Owner("C", "C", [XProperty])

  lemma ScalarMultiplicity()
    ensures MultiplicityOf(XProperty) == None
  {
    assert "X" == ['X'];
  }

  lemma ChainScanA(s: Scan, owner: Owner, types: TypeMap)
    requires s == Scan0 && owner == OwnerA && types == ChainTypes
    ensures ScanProperties(s, owner, owner.properties, types) == ChainScan1
  {
    OneReference(s, owner, XProperty, "X", types);
    ScalarMultiplicity();
    assert EdgeKey("X", "A") !in s.associations.at;
    assert EdgeKey("A", "X") == "A_X";
  }

  lemma ChainFresh(s: Scan)
    requires s == ChainScan1
    ensures ScanValid(s) && EdgeKey("X", "C") !in s.associations.at && "C_X" !in s.associations.at
  {
    assert s.associations.at.Keys == {"A_X"};
    assert EdgeKey("X", "C")[0] != "A_X"[0] && "C_X"[0] != "A_X"[0];
  }

  lemma ChainReferenceC(s: Scan, owner: Owner, types: TypeMap)
    requires s == ChainScan1 && owner == OwnerC && types == ChainTypes
    ensures ScanReference(s, owner, XProperty, "X", types) == ChainScan2
  {
    ScalarMultiplicity();
    ChainFresh(s);
    FreshReference(s, owner, XProperty, "X", types);
    assert EdgeKey("C", "X") == "C_X";
  }

  lemma ChainScanC(s: Scan, owner: Owner, types: TypeMap)
    requires s == ChainScan1 && owner == OwnerC && types == ChainTypes
    ensures ScanProperties(s, owner, owner.properties, types) == ChainScan2
  {
    assert ScanValid(s);
    OneReference(s, owner, XProperty, "X", types);
    ChainReferenceC(s, owner, types);
  }

  lemma OwnersSnoc(s: Scan, owners: seq<Owner>, o: Owner, types: TypeMap)
    requires ScanValid(s)
    ensures ScanOwners(s, owners + [o], types) == ScanProperties(ScanOwners(s, owners, types), o, o.properties, types)
  {
    assert (owners + [o])[..|owners|] == owners;
  }

  lemma ChainOwners(s: Scan, owners: seq<Owner>, types: TypeMap)
    requires s == Scan0 && owners == [OwnerX, OwnerA, OwnerB, OwnerC] && types == ChainTypes
    ensures ScanOwners(s, owners, types) == ChainScan2
  {
    assert [] + [OwnerX] == [OwnerX] && [OwnerX] + [OwnerA] == [OwnerX, OwnerA];
    assert [OwnerX, OwnerA] + [OwnerB] == [OwnerX, OwnerA, OwnerB] && [OwnerX, OwnerA, OwnerB] + [OwnerC] == owners;
    OwnersSnoc(s, [], OwnerX, types);
    assert ScanOwners(s, [OwnerX], types) == s;
    OwnersSnoc(s, [OwnerX], OwnerA, types);
    ChainScanA(s, OwnerA, types);
    OwnersSnoc(s, [OwnerX, OwnerA], OwnerB, types);
    assert ScanOwners(s, [OwnerX, OwnerA, OwnerB], types) == ChainScan1;
    OwnersSnoc(s, [OwnerX, OwnerA, OwnerB], OwnerC, types);
    ChainScanC(ChainScan1, OwnerC, types);
  }

  lemma ChainScan()
    ensures ScanFiles([ChainFile()], ChainTypes) == Pass([AX, CX], ChainMap, [[0, 1]])
  {
    assert OwnersOf(ChainFile()) == [OwnerX, OwnerA, OwnerB, OwnerC];
    OneFile([ChainFile()], ChainTypes);
    ChainOwners(Scan0, [OwnerX, OwnerA, OwnerB, OwnerC], ChainTypes);
  }

  lemma ChainKeys(m: JsMap.Map<nat>, edges: seq<MemberAssociation>)
    requires m == ChainMap && edges == [AX, CX]
    ensures JsMap.Valid(m) && Indexes(m, edges) && KeysMatch(m, edges)
    ensures m.at["A_X"] == 0 && m.at["C_X"] == 1 && m.keys[1..] == ["C_X"] && "B_X" !in m.at
  {
    assert "A_X"[0] != "C_X"[0] && "B_X"[0] != "A_X"[0] && "B_X"[0] != "C_X"[0];
  }

  /** Visiting a key whose check fails, as written, ends the pass with that failure. */
  lemma VisitFails(keys: seq<string>, m: JsMap.Map<nat>, edges: seq<MemberAssociation>, types: TypeMap, rank: string -> nat,
                   error: string)
    requires keys != [] && JsMap.Valid(m) && Indexes(m, edges) && KeysMatch(m, edges) && Ranked(types, rank)
    requires keys[0] in m.at
    requires var e := edges[m.at[keys[0]]]; CheckInheritedAsWritten(e.a.typeId, e.b.typeId, m, edges, types, rank) == Err(error)
    ensures ProcessKeysAsWritten(keys, m, edges, types, rank) == Err(error)
  {
  }

  /** Visiting a key whose edge is not inherited, as written, keeps the map. */
  lemma VisitKeptAsWritten(keys: seq<string>, m: JsMap.Map<nat>, edges: seq<MemberAssociation>, types: TypeMap,
                           rank: string -> nat)
    requires keys != [] && JsMap.Valid(m) && Indexes(m, edges) && KeysMatch(m, edges) && Ranked(types, rank)
    requires keys[0] in m.at
    requires var e := edges[m.at[keys[0]]]; CheckInheritedAsWritten(e.a.typeId, e.b.typeId, m, edges, types, rank) == Ok((edges, false))
    ensures ProcessKeysAsWritten(keys, m, edges, types, rank) == ProcessKeysAsWritten(keys[1..], m, edges, types, rank)
  {
  }

  lemma ChainProcessFails(m: JsMap.Map<nat>, edges: seq<MemberAssociation>, types: TypeMap)
    requires m == ChainMap && edges == [AX, CX] && types == ChainTypes
    ensures JsMap.Valid(m) && Indexes(m, edges) && KeysMatch(m, edges) && Ranked(types, ChainRank)
    ensures ProcessKeysAsWritten(m.keys, m, edges, types, ChainRank) == Err(SetUndefined)
  {
    ChainKeys(m, edges);
    RootCheck(m, edges, types);
    VisitKeptAsWritten(m.keys, m, edges, types, ChainRank);
    ChainCheckFails(m, edges, types);
    VisitFails(m.keys[1..], m, edges, types, ChainRank, SetUndefined);
  }

  /**
   * Finding: on this project the association pass, as written, throws
   * while visiting C's edge to X.
   */
  lemma ChainParseFails()
    ensures Ranked(TypeMapOf([ChainFile()]), ChainRank)
    ensures ParseAssociationsAsWritten([ChainFile()], ChainRank) == Err(SetUndefined)
  {
    ChainTypeMap();
    ChainRanked(ChainTypes);
    ChainScan();
    ChainProcessFails(ChainMap, [AX, CX], ChainTypes);
  }

  const ChainFlagged := [AX, CX.(inherited := true)]

  lemma ChainCheckExact(m: JsMap.Map<nat>, edges: seq<MemberAssociation>, types: TypeMap)
    requires m == ChainMap && edges == [AX, CX] && types == ChainTypes
    ensures Indexes(m, edges) && Ranked(types, ChainRank)
    ensures CheckInherited("C", "X", m, edges, types, ChainRank) == (ChainFlagged, true)
  {
    ChainKeys(m, edges);
    MiddleCheck(m, edges, types);
    assert Heritage(types, "C") == [ClauseCB];
    assert Resolves(types, ClauseCB) && BaseOf(types, ClauseCB).id == "B";
    assert EdgeKey("B", "X") == "B_X" && EdgeKey("C", "X") == "C_X";
    assert Flag(edges, m, "C_X") == ChainFlagged;
    assert CheckClauses("C", "X", 1, true, m, ChainFlagged, types, ChainRank) == (ChainFlagged, true);
  }

  lemma DeleteC(m: JsMap.Map<nat>)
    requires m == ChainMap
    ensures JsMap.Valid(m) && JsMap.Delete(m, "C_X") == JsMap.Map(["A_X"], map["A_X" := 0])
  {
    ChainKeys(m, [AX, CX]);
    assert "A_X" != "C_X";
    assert JsMap.Without(["C_X"], "C_X") == [];
    assert JsMap.Without(m.keys, "C_X") == ["A_X"];
    assert m.at - {"C_X"} == map["A_X" := 0];
  }

  lemma ChainProcess(m: JsMap.Map<nat>, edges: seq<MemberAssociation>, types: TypeMap)
    requires m == ChainMap && edges == [AX, CX] && types == ChainTypes
    ensures JsMap.Valid(m) && Indexes(m, edges) && KeysMatch(m, edges) && Ranked(types, ChainRank)
    ensures ProcessKeys(m.keys, m, edges, types, ChainRank) == (JsMap.Map(["A_X"], map["A_X" := 0]), ChainFlagged)
  {
    ChainKeys(m, edges);
    RootCheck(m, edges, types);
    VisitKept(m.keys, m, edges, types, ChainRank);
    ChainCheckExact(m, edges, types);
    VisitDeleted(m.keys[1..], m, edges, ChainFlagged, types, ChainRank);
    DeleteC(m);
  }

  lemma ChainLists(edges: seq<MemberAssociation>)
    requires edges == ChainFlagged
    ensures Unflagged([0, 1], edges) == [0]
  {
    assert [0, 1][..1] == [0] && [0][..0] == [];
  }

  /** Corrected, the pass keeps A's edge to X and drops C's, which C inherits through B. */
  lemma ChainParseCorrected()
    ensures Ranked(TypeMapOf([ChainFile()]), ChainRank)
    ensures ParsedAssociations([ChainFile()], ChainRank)[0].memberAssociations == Some([AX])
  {
    ChainTypeMap();
    ChainRanked(ChainTypes);
    ChainScan();
    ChainProcess(ChainMap, [AX, CX], ChainTypes);
    DedupListsValid([[0, 1]], ChainFlagged);
    ChainLists(ChainFlagged);
    KeepsFirst([ChainFile()], [[0, 1]], ChainFlagged);
  }
}
