/**
 * The association pass: it turns properties that reference declared types
 * into association edges, merges the two directions of a pair, drops the
 * edges a subtype inherits from a base type and stores each file's edges
 * on the file.
 *
 * The edge objects are shared between the association map and the file
 * lists and are updated in place; here they live in one arena
 * `edges: seq<MemberAssociation>`, an edge's index standing for the object,
 * and the map and the lists hold indices.
 */
module Associations {
  import opened Wrappers
  import opened JsArray
  import opened Model
  import JsMap

  // The type map

  /** What the type map holds of a declared type: name, id and, for classes and interfaces, the heritage clauses. */
  datatype TypeEntry = TypeEntry(name: string, id: string, heritage: Option<seq<HeritageClause>>)

  type TypeMap = map<string, TypeEntry>

  function ClassEntry(c: Interface): TypeEntry {
    TypeEntry(c.name, c.id, Some(c.heritageClauses))
  }

  /** A type alias or an enum has no `heritageClauses` field: reading it gives undefined. */
  function TypeAliasEntry(t: TypeAlias): TypeEntry {
    TypeEntry(t.name, t.id, None)
  }

  function EnumEntry(e: Enum): TypeEntry {
    TypeEntry(e.name, e.id, None)
  }

  /** What one file registers, in registration order: classes, interfaces, types, enums. */
  function FileEntries(d: FileDeclaration): seq<TypeEntry> {
    seq(|d.classes|, i requires 0 <= i < |d.classes| => ClassEntry(d.classes[i]))
    + seq(|d.interfaces|, i requires 0 <= i < |d.interfaces| => ClassEntry(d.interfaces[i]))
    + seq(|d.types|, i requires 0 <= i < |d.types| => TypeAliasEntry(d.types[i]))
    + seq(|d.enums|, i requires 0 <= i < |d.enums| => EnumEntry(d.enums[i]))
  }

  function AllEntries(declarations: seq<FileDeclaration>): seq<TypeEntry> {
    Flat(seq(|declarations|, i requires 0 <= i < |declarations| => FileEntries(declarations[i])))
  }

  /** Every entry stored under its id, in order: a later entry with the same id replaces an earlier one. */
  function Register(entries: seq<TypeEntry>): (m: TypeMap)
    ensures forall k :: k in m ==> m[k].id == k
    decreases |entries|
  {
    if entries == [] then map[]
    else var n := |entries| - 1; Register(entries[..n])[entries[n].id := entries[n]]
  }

  /** The ids in the map are exactly the ids of the entries, and each holds the last entry with its id. */
  lemma {:induction false} RegisteredIds(entries: seq<TypeEntry>, i: nat)
    requires i < |entries|
    ensures entries[i].id in Register(entries)
    ensures (forall j :: i < j < |entries| ==> entries[j].id != entries[i].id) ==> Register(entries)[entries[i].id] == entries[i]
    decreases |entries|
  {
    var n := |entries| - 1;
    if i < n {
      assert entries[..n][i] == entries[i];
      assert forall j :: i < j < n ==> entries[..n][j] == entries[j];
      RegisteredIds(entries[..n], i);
    }
  }

  lemma {:induction false} OnlyRegisteredIds(entries: seq<TypeEntry>, k: string)
    requires k in Register(entries)
    ensures exists i :: 0 <= i < |entries| && entries[i].id == k
    decreases |entries|
  {
    var n := |entries| - 1;
    if entries[n].id != k {
      OnlyRegisteredIds(entries[..n], k);
      var i :| 0 <= i < n && entries[..n][i].id == k;
      assert entries[i].id == k;
    }
  }

  /** `createTypeMap`. */
  function TypeMapOf(declarations: seq<FileDeclaration>): (r: TypeMap)
    ensures IdsMatch(r)
  {
    Register(AllEntries(declarations))
  }

  /** `createTypeMap`: every class, interface, type and enum of every file, set under its id. */
  method CreateTypeMap(declarations: seq<FileDeclaration>) returns (typeMap: TypeMap)
    ensures typeMap == TypeMapOf(declarations)
  {
    typeMap := map[];
    var i := 0;
    while i < |declarations|
      invariant 0 <= i <= |declarations|
      invariant typeMap == Register(AllEntries(declarations[..i]))
      decreases |declarations| - i
    {
      AllEntriesSnoc(declarations, i);
      typeMap := SetEach(typeMap, AllEntries(declarations[..i]), FileEntries(declarations[i]));
      i := i + 1;
    }
    assert declarations[..i] == declarations;
  }

  /** One file's `typeMap.set(x.id, x)` calls, in order. */
  method SetEach(typeMap: TypeMap, ghost before: seq<TypeEntry>, entries: seq<TypeEntry>) returns (m: TypeMap)
    requires typeMap == Register(before)
    ensures m == Register(before + entries)
  {
    m := typeMap;
    var k := 0;
    assert before + entries[..0] == before;
    while k < |entries|
      invariant 0 <= k <= |entries|
      invariant m == Register(before + entries[..k])
      decreases |entries| - k
    {
      assert (before + entries[..k + 1])[..|before| + k] == before + entries[..k];
      m := m[entries[k].id := entries[k]];
      k := k + 1;
    }
    assert entries[..k] == entries;
  }

  lemma AllEntriesSnoc(declarations: seq<FileDeclaration>, i: nat)
    requires i < |declarations|
    ensures AllEntries(declarations[..i + 1]) == AllEntries(declarations[..i]) + FileEntries(declarations[i])
  {
    var front := seq(i, j requires 0 <= j < i => FileEntries(declarations[..i][j]));
    var all := seq(i + 1, j requires 0 <= j < i + 1 => FileEntries(declarations[..i + 1][j]));
    assert all == front + [FileEntries(declarations[i])];
    FlatAppend(front, [FileEntries(declarations[i])]);
    assert Flat([FileEntries(declarations[i])]) == FileEntries(declarations[i]) + Flat([]);
  }

  // Multiplicity

  /** `getMultiplicityOfProp`: `0..*` exactly when the type text is non-empty and holds a `[`. */
  function MultiplicityOf(prop: PropertyDetails): (m: Option<string>)
    ensures m == Some("0..*") <==> Truthy(prop.propertyType) && '[' in prop.propertyType.value
    ensures m.None? <==> !(Truthy(prop.propertyType) && '[' in prop.propertyType.value)
  {
    if Truthy(prop.propertyType) && '[' in prop.propertyType.value then Some("0..*") else None
  }

  // Scanning the properties

  /** What the scan needs of a class, interface or type alias. */
  datatype Owner = Owner(id: string, name: string, properties: seq<PropertyDetails>)

  /** The owners of one file in scan order: classes, interfaces, then types. */
  function OwnersOf(d: FileDeclaration): seq<Owner> {
    seq(|d.classes|, i requires 0 <= i < |d.classes| => Owner(d.classes[i].id, d.classes[i].name, d.classes[i].properties))
    + seq(|d.interfaces|, i requires 0 <= i < |d.interfaces| => Owner(d.interfaces[i].id, d.interfaces[i].name, d.interfaces[i].properties))
    + seq(|d.types|, i requires 0 <= i < |d.types| => Owner(d.types[i].id, d.types[i].name, d.types[i].properties))
  }

  /** The map key of the edge from one type to another: `${from}_${to}`. */
  function EdgeKey(from: string, to: string): string {
    from + "_" + to
  }

  /** The indices `lo`, `lo + 1`, ..., `hi - 1`. */
  function Range(lo: nat, hi: nat): (r: seq<nat>)
    ensures |r| == if lo <= hi then hi - lo else 0
    ensures forall i :: 0 <= i < |r| ==> r[i] == lo + i
  {
    if lo <= hi then seq(hi - lo, i requires 0 <= i < hi - lo => lo + i) else []
  }

  lemma RangeSnoc(lo: nat, hi: nat)
    requires lo <= hi
    ensures Range(lo, hi + 1) == Range(lo, hi) + [hi]
  {
  }

  lemma RangeAppend(lo: nat, mid: nat, hi: nat)
    requires lo <= mid <= hi
    ensures Range(lo, hi) == Range(lo, mid) + Range(mid, hi)
  {
  }

  /** The state of the scan: the edges created so far, the association map and the current file's list. */
  datatype Scan = Scan(edges: seq<MemberAssociation>, associations: JsMap.Map<nat>, pushed: seq<nat>)

  /** Map values and listed indices name existing edges. */
  ghost predicate ScanValid(s: Scan) {
    JsMap.Valid(s.associations)
    && (forall k :: k in s.associations.at ==> s.associations.at[k] < |s.edges|)
    && (forall j :: 0 <= j < |s.pushed| ==> s.pushed[j] < |s.edges|)
  }

  /**
   * Every stored edge sits under the key of its own ends, every edge points
   * at a declared type, and no edge is flagged yet.
   */
  ghost predicate Coherent(edges: seq<MemberAssociation>, associations: JsMap.Map<nat>, types: TypeMap) {
    (forall k :: k in associations.at && associations.at[k] < |edges| ==>
       k == EdgeKey(edges[associations.at[k]].a.typeId, edges[associations.at[k]].b.typeId))
    && (forall j :: 0 <= j < |edges| ==> edges[j].b.typeId in types && !edges[j].inherited)
  }

  /** Every edge's own key is in the map: the scan never removes a key. */
  ghost predicate KeysPresent(edges: seq<MemberAssociation>, associations: JsMap.Map<nat>) {
    forall j :: 0 <= j < |edges| ==> EdgeKey(edges[j].a.typeId, edges[j].b.typeId) in associations.at
  }

  /** `e` joins two different types and runs against `f`: from `f`'s target to `f`'s source. */
  predicate Opposite(e: MemberAssociation, f: MemberAssociation) {
    e.a.typeId != e.b.typeId && e.a.typeId == f.b.typeId && e.b.typeId == f.a.typeId
  }

  /** No two edges join the same two types in opposite directions. */
  ghost predicate OneWay(edges: seq<MemberAssociation>) {
    forall j1, j2 :: 0 <= j1 < |edges| && 0 <= j2 < |edges| ==> !Opposite(edges[j1], edges[j2])
  }

  /** What the reverse-key lookup keeps true during the scan. */
  ghost predicate OneWayScan(s: Scan) {
    KeysPresent(s.edges, s.associations) && OneWay(s.edges)
  }

  /** An edge keeps its ends while the scan goes on; only the source end's multiplicity may be overwritten. */
  predicate SameEnds(e: MemberAssociation, f: MemberAssociation) {
    e.a.typeId == f.a.typeId && e.a.name == f.a.name && e.b == f.b && e.inherited == f.inherited
  }

  /** What a scan step may do: keep every edge's ends, append edges and list exactly the appended ones. */
  ghost predicate Grows(s: Scan, r: Scan) {
    |s.edges| <= |r.edges|
    && (forall j :: 0 <= j < |s.edges| ==> SameEnds(r.edges[j], s.edges[j]))
    && r.pushed == s.pushed + Range(|s.edges|, |r.edges|)
    && (forall k :: k in s.associations.at ==> k in r.associations.at)
  }

  lemma GrowsTransitive(s: Scan, t: Scan, r: Scan)
    requires Grows(s, t) && Grows(t, r)
    ensures Grows(s, r)
  {
    RangeAppend(|s.edges|, |t.edges|, |r.edges|);
  }

  /**
   * One referenced id of one property of owner `t` (`parseAssociationOfAnyType`,
   * the body of the inner `forEach`).
   */
  function ScanReference(s: Scan, owner: Owner, prop: PropertyDetails, id: string, types: TypeMap): (r: Scan)
    requires ScanValid(s)
    ensures ScanValid(r) && Grows(s, r)
    ensures Coherent(s.edges, s.associations, types) ==> Coherent(r.edges, r.associations, types)
    ensures OneWayScan(s) ==> OneWayScan(r)
    // the reverse edge exists: no edge is created, the reverse edge's source multiplicity is overwritten
    ensures JsMap.Has(s.associations, EdgeKey(id, owner.id)) ==>
      var i := s.associations.at[EdgeKey(id, owner.id)];
      r == s.(edges := s.edges[i := s.edges[i].(a := s.edges[i].a.(multiplicity := MultiplicityOf(prop)))])
    // an id that names no declared type creates nothing
    ensures !JsMap.Has(s.associations, EdgeKey(id, owner.id)) && id !in types ==> r == s
    // otherwise a new edge from the owner to the referenced type, stored under the owner's key and listed
    ensures !JsMap.Has(s.associations, EdgeKey(id, owner.id)) && id in types ==>
      r.edges == s.edges + [MemberAssociation(AssociationEnd(owner.id, owner.name, None),
                                              AssociationEnd(id, types[id].name, MultiplicityOf(prop)), false)]
      && r.associations == JsMap.Set(s.associations, EdgeKey(owner.id, id), |s.edges|)
      && r.pushed == s.pushed + [|s.edges|]
  {
    var reverse := EdgeKey(id, owner.id);
    match JsMap.Get(s.associations, reverse)
    case Some(i) =>
      MergeKeepsScan(s, i, MultiplicityOf(prop), types);
      MergeKeepsOneWay(s, i, MultiplicityOf(prop));
      s.(edges := s.edges[i := s.edges[i].(a := s.edges[i].a.(multiplicity := MultiplicityOf(prop)))])
    case None =>
      if id !in types then s
      else
        var edge := MemberAssociation(AssociationEnd(owner.id, owner.name, None),
                                      AssociationEnd(id, types[id].name, MultiplicityOf(prop)), false);
        AppendKeepsScan(s, edge, types);
        AppendKeepsOneWay(s, edge);
        Scan(s.edges + [edge], JsMap.Set(s.associations, EdgeKey(owner.id, id), |s.edges|), s.pushed + [|s.edges|])
  }

  lemma MergeKeepsScan(s: Scan, i: nat, m: Option<string>, types: TypeMap)
    requires ScanValid(s) && i < |s.edges|
    ensures var r := s.(edges := s.edges[i := s.edges[i].(a := s.edges[i].a.(multiplicity := m))]);
            ScanValid(r) && Grows(s, r)
            && (Coherent(s.edges, s.associations, types) ==> Coherent(r.edges, r.associations, types))
  {
  }

  lemma AppendKeepsScan(s: Scan, edge: MemberAssociation, types: TypeMap)
    requires ScanValid(s)
    ensures var r := Scan(s.edges + [edge], JsMap.Set(s.associations, EdgeKey(edge.a.typeId, edge.b.typeId), |s.edges|),
                          s.pushed + [|s.edges|]);
            ScanValid(r) && Grows(s, r)
            && (Coherent(s.edges, s.associations, types) && edge.b.typeId in types && !edge.inherited ==>
                Coherent(r.edges, r.associations, types))
  {
    var key := EdgeKey(edge.a.typeId, edge.b.typeId);
    var m := JsMap.Set(s.associations, key, |s.edges|);
    var edges := s.edges + [edge];
    var r := Scan(edges, m, s.pushed + [|s.edges|]);
    assert forall j :: 0 <= j < |s.edges| ==> edges[j] == s.edges[j];
    assert edges[|s.edges|] == edge;
    assert ScanValid(r) by {
      assert forall k :: k in m.at ==> m.at[k] < |edges|;
    }
    assert Grows(s, r) by {
      RangeSnoc(|s.edges|, |s.edges|);
    }
    if Coherent(s.edges, s.associations, types) && edge.b.typeId in types && !edge.inherited {
      forall k | k in m.at && m.at[k] < |edges|
        ensures k == EdgeKey(edges[m.at[k]].a.typeId, edges[m.at[k]].b.typeId)
      {
        if k != key {
          assert m.at[k] == s.associations.at[k];
        }
      }
    }
  }

  lemma MergeKeepsOneWay(s: Scan, i: nat, m: Option<string>)
    requires ScanValid(s) && i < |s.edges|
    ensures var r := s.(edges := s.edges[i := s.edges[i].(a := s.edges[i].a.(multiplicity := m))]);
            OneWayScan(s) ==> OneWayScan(r)
  {
    var edges := s.edges[i := s.edges[i].(a := s.edges[i].a.(multiplicity := m))];
    assert forall j :: 0 <= j < |edges| ==> edges[j].a.typeId == s.edges[j].a.typeId && edges[j].b == s.edges[j].b;
  }

  /**
   * A new edge whose reverse key is not in the map runs against no earlier
   * edge: an earlier edge against it would have left that key behind.
   */
  lemma AppendKeepsOneWay(s: Scan, edge: MemberAssociation)
    requires ScanValid(s) && EdgeKey(edge.b.typeId, edge.a.typeId) !in s.associations.at
    ensures OneWayScan(s) ==>
      OneWayScan(Scan(s.edges + [edge], JsMap.Set(s.associations, EdgeKey(edge.a.typeId, edge.b.typeId), |s.edges|),
                      s.pushed + [|s.edges|]))
  {
    if OneWayScan(s) {
      var edges := s.edges + [edge];
      forall j1, j2 | 0 <= j1 < |edges| && 0 <= j2 < |edges|
        ensures !Opposite(edges[j1], edges[j2])
      {
        if j1 == |s.edges| && j2 < |s.edges| {
          assert EdgeKey(s.edges[j2].a.typeId, s.edges[j2].b.typeId) in s.associations.at;
        } else if j2 == |s.edges| && j1 < |s.edges| {
          assert EdgeKey(s.edges[j1].a.typeId, s.edges[j1].b.typeId) in s.associations.at;
        } else if j1 < |s.edges| && j2 < |s.edges| {
          assert edges[j1] == s.edges[j1] && edges[j2] == s.edges[j2];
        }
      }
    }
  }

  /** All ids of one property, in order. */
  function ScanIds(s: Scan, owner: Owner, prop: PropertyDetails, ids: seq<string>, types: TypeMap): (r: Scan)
    requires ScanValid(s)
    ensures ScanValid(r) && Grows(s, r)
    ensures Coherent(s.edges, s.associations, types) ==> Coherent(r.edges, r.associations, types)
    ensures OneWayScan(s) ==> OneWayScan(r)
    decreases |ids|
  {
    if ids == [] then s
    else
      var n := |ids| - 1;
      var t := ScanIds(s, owner, prop, ids[..n], types);
      var r := ScanReference(t, owner, prop, ids[n], types);
      GrowsTransitive(s, t, r);
      r
  }

  /** All properties of one owner, in order; a property without type ids is skipped. */
  function ScanProperties(s: Scan, owner: Owner, props: seq<PropertyDetails>, types: TypeMap): (r: Scan)
    requires ScanValid(s)
    ensures ScanValid(r) && Grows(s, r)
    ensures Coherent(s.edges, s.associations, types) ==> Coherent(r.edges, r.associations, types)
    ensures OneWayScan(s) ==> OneWayScan(r)
    decreases |props|
  {
    if props == [] then s
    else
      var n := |props| - 1;
      var t := ScanProperties(s, owner, props[..n], types);
      if |props[n].typeIds| > 0 then
        var r := ScanIds(t, owner, props[n], props[n].typeIds, types);
        GrowsTransitive(s, t, r);
        r
      else t
  }

  /** All owners of one file, in order. */
  function ScanOwners(s: Scan, owners: seq<Owner>, types: TypeMap): (r: Scan)
    requires ScanValid(s)
    ensures ScanValid(r) && Grows(s, r)
    ensures Coherent(s.edges, s.associations, types) ==> Coherent(r.edges, r.associations, types)
    ensures OneWayScan(s) ==> OneWayScan(r)
    decreases |owners|
  {
    if owners == [] then s
    else
      var n := |owners| - 1;
      var t := ScanOwners(s, owners[..n], types);
      var r := ScanProperties(t, owners[n], owners[n].properties, types);
      GrowsTransitive(s, t, r);
      r
  }

  /** The state after scanning some files: the edges, the map and each file's list of edges. */
  datatype Pass = Pass(edges: seq<MemberAssociation>, associations: JsMap.Map<nat>, lists: seq<seq<nat>>)

  ghost predicate PassValid(p: Pass) {
    JsMap.Valid(p.associations)
    && (forall k :: k in p.associations.at ==> p.associations.at[k] < |p.edges|)
    && ListsValid(p.lists, p.edges)
  }

  /**
   * The scan of all files: each file's list starts empty and collects the
   * edges its owners create. Every edge is on exactly one file's list, and
   * the lists, one after the other, are the edges in creation order.
   */
  function ScanFiles(declarations: seq<FileDeclaration>, types: TypeMap): (p: Pass)
    ensures PassValid(p)
    ensures |p.lists| == |declarations|
    ensures Flat(p.lists) == Range(0, |p.edges|)
    ensures Coherent(p.edges, p.associations, types)
    ensures KeysPresent(p.edges, p.associations) && OneWay(p.edges)
    decreases |declarations|
  {
    if declarations == [] then Pass([], JsMap.Empty(), [])
    else
      var n := |declarations| - 1;
      var q := ScanFiles(declarations[..n], types);
      var s := ScanOwners(Scan(q.edges, q.associations, []), OwnersOf(declarations[n]), types);
      FileStep(q, s);
      Pass(s.edges, s.associations, q.lists + [s.pushed])
  }

  /** Closing one file keeps the pass valid and the lists in creation order. */
  lemma FileStep(q: Pass, s: Scan)
    requires PassValid(q) && Flat(q.lists) == Range(0, |q.edges|)
    requires ScanValid(s) && Grows(Scan(q.edges, q.associations, []), s)
    ensures PassValid(Pass(s.edges, s.associations, q.lists + [s.pushed]))
    ensures Flat(q.lists + [s.pushed]) == Range(0, |s.edges|)
  {
    FlatAppend(q.lists, [s.pushed]);
    assert Flat([s.pushed]) == s.pushed + Flat([]);
    RangeAppend(0, |q.edges|, |s.edges|);
    var lists := q.lists + [s.pushed];
    assert s.pushed == Range(|q.edges|, |s.edges|);
    forall i | 0 <= i < |lists|
      ensures InBounds(lists[i], s.edges) && Increasing(lists[i])
    {
      if i < |q.lists| {
        assert lists[i] == q.lists[i];
      }
    }
  }

  /** One referenced id: merge into the reverse edge, skip an unknown id, or create, store and list a new edge. */
  method ScanStep(s: Scan, owner: Owner, prop: PropertyDetails, id: string, types: TypeMap) returns (r: Scan)
    requires ScanValid(s)
    ensures r == ScanReference(s, owner, prop, id, types)
  {
    var found := JsMap.Get(s.associations, EdgeKey(id, owner.id));
    if found.Some? {
      var k := found.value;
      r := s.(edges := s.edges[k := s.edges[k].(a := s.edges[k].a.(multiplicity := MultiplicityOf(prop)))]);
    } else if id in types {
      var edge := MemberAssociation(AssociationEnd(owner.id, owner.name, None),
                                    AssociationEnd(id, types[id].name, MultiplicityOf(prop)), false);
      r := Scan(s.edges + [edge], JsMap.Set(s.associations, EdgeKey(owner.id, id), |s.edges|), s.pushed + [|s.edges|]);
    } else {
      r := s;
    }
  }

  /** The inner `forEach` over one property's type ids. */
  method ScanPropertyIds(s: Scan, owner: Owner, prop: PropertyDetails, types: TypeMap) returns (r: Scan)
    requires ScanValid(s)
    ensures r == ScanIds(s, owner, prop, prop.typeIds, types)
  {
    var ids := prop.typeIds;
    r := s;
    for i := 0 to |ids|
      invariant r == ScanIds(s, owner, prop, ids[..i], types)
    {
      assert ids[..i + 1][..i] == ids[..i];
      r := ScanStep(r, owner, prop, ids[i], types);
    }
    assert ids[..|ids|] == ids;
  }

  lemma ScanPropertiesSnoc(s: Scan, owner: Owner, props: seq<PropertyDetails>, i: nat, types: TypeMap)
    requires ScanValid(s) && i < |props|
    ensures var t := ScanProperties(s, owner, props[..i], types);
            ScanProperties(s, owner, props[..i + 1], types)
            == if |props[i].typeIds| > 0 then ScanIds(t, owner, props[i], props[i].typeIds, types) else t
  {
    assert props[..i + 1][..i] == props[..i];
  }

  /** `parseAssociationOfAnyType`: the properties with type ids, in order. */
  method ParseAssociationOfAnyType(s: Scan, owner: Owner, types: TypeMap) returns (r: Scan)
    requires ScanValid(s)
    ensures r == ScanProperties(s, owner, owner.properties, types)
  {
    var props := owner.properties;
    r := s;
    for i := 0 to |props|
      invariant r == ScanProperties(s, owner, props[..i], types)
    {
      ScanPropertiesSnoc(s, owner, props, i, types);
      if |props[i].typeIds| > 0 {
        r := ScanPropertyIds(r, owner, props[i], types);
      }
    }
    assert props[..|props|] == props;
  }

  /** The owners of one file, one after the other. */
  method ScanFileOwners(s: Scan, owners: seq<Owner>, types: TypeMap) returns (r: Scan)
    requires ScanValid(s)
    ensures r == ScanOwners(s, owners, types)
  {
    r := s;
    for i := 0 to |owners|
      invariant r == ScanOwners(s, owners[..i], types)
    {
      assert owners[..i + 1][..i] == owners[..i];
      r := ParseAssociationOfAnyType(r, owners[i], types);
    }
    assert owners[..|owners|] == owners;
  }

  lemma ScanFilesSnoc(declarations: seq<FileDeclaration>, i: nat, types: TypeMap)
    requires i < |declarations|
    ensures var q := ScanFiles(declarations[..i], types);
            var s := ScanOwners(Scan(q.edges, q.associations, []), OwnersOf(declarations[i]), types);
            ScanFiles(declarations[..i + 1], types) == Pass(s.edges, s.associations, q.lists + [s.pushed])
  {
    assert declarations[..i + 1][..i] == declarations[..i];
  }

  /** The `forEach` over the files in `parseAssociations`: the scan of every file, sharing one association map. */
  method ScanDeclarations(declarations: seq<FileDeclaration>, types: TypeMap) returns (p: Pass)
    ensures p == ScanFiles(declarations, types)
  {
    p := Pass([], JsMap.Empty(), []);
    for i := 0 to |declarations|
      invariant p == ScanFiles(declarations[..i], types)
    {
      ScanFilesSnoc(declarations, i, types);
      var s := ScanFileOwners(Scan(p.edges, p.associations, []), OwnersOf(declarations[i]), types);
      p := Pass(s.edges, s.associations, p.lists + [s.pushed]);
    }
    assert declarations[..|declarations|] == declarations;
  }

  // Inherited associations

  /** The heritage clauses of a type; a missing type or one without the field counts as none. */
  function Heritage(types: TypeMap, src: string): seq<HeritageClause> {
    if src in types && types[src].heritage.Some? then types[src].heritage.value else []
  }

  /** A clause whose base is a declared type (`typeMap.get(clause.clauseTypeId)` is defined). */
  predicate Resolves(types: TypeMap, c: HeritageClause) {
    c.clauseTypeId.Some? && c.clauseTypeId.value in types
  }

  /** The declared base a resolving clause names. */
  function BaseOf(types: TypeMap, c: HeritageClause): TypeEntry
    requires Resolves(types, c)
  {
    types[c.clauseTypeId.value]
  }

  /**
   * `rank` orders the declared types so that every base ranks below its
   * subtypes: the heritage graph has no cycle.
   */
  ghost predicate Ranked(types: TypeMap, rank: string -> nat) {
    forall k, j :: k in types && 0 <= j < |Heritage(types, k)| && Resolves(types, Heritage(types, k)[j]) ==>
      rank(BaseOf(types, Heritage(types, k)[j]).id) < rank(k)
  }

  /** Map values name existing edges. */
  ghost predicate Indexes(associations: JsMap.Map<nat>, edges: seq<MemberAssociation>) {
    forall k :: k in associations.at ==> associations.at[k] < |edges|
  }

  /** Setting the `inerhited` flag of the edge stored under `key`; a missing key leaves the edges alone. */
  function Flag(edges: seq<MemberAssociation>, associations: JsMap.Map<nat>, key: string): (r: seq<MemberAssociation>)
    requires Indexes(associations, edges)
    ensures |r| == |edges|
    ensures key in associations.at ==> r[associations.at[key]].inherited
    ensures forall j :: 0 <= j < |edges| ==> r[j] == edges[j] || r[j] == edges[j].(inherited := true)
  {
    if key in associations.at then
      var i := associations.at[key];
      edges[i := edges[i].(inherited := true)]
    else edges
  }

  /** The new edges only add flags to the old ones. */
  ghost predicate FlagsOnly(edges: seq<MemberAssociation>, r: seq<MemberAssociation>) {
    |r| == |edges| && forall j :: 0 <= j < |edges| ==> r[j] == edges[j] || r[j] == edges[j].(inherited := true)
  }

  /** Flagging keeps the two ends of every edge. */
  lemma FlagsOnlyEnds(edges: seq<MemberAssociation>, r: seq<MemberAssociation>, j: nat)
    requires FlagsOnly(edges, r) && j < |edges|
    ensures r[j].a == edges[j].a && r[j].b == edges[j].b
  {
  }

  lemma FlagsOnlyTransitive(e: seq<MemberAssociation>, f: seq<MemberAssociation>, g: seq<MemberAssociation>)
    requires FlagsOnly(e, f) && FlagsOnly(f, g)
    ensures FlagsOnly(e, g)
  {
  }

  /** The edge stored under `key` is flagged (trivially so when there is none). */
  ghost predicate Flagged(edges: seq<MemberAssociation>, associations: JsMap.Map<nat>, key: string)
    requires Indexes(associations, edges)
  {
    key in associations.at ==> edges[associations.at[key]].inherited
  }

  /**
   * Some ancestor of `src`, reached through resolving clauses, has its own
   * edge to `x` in the map: what the check is meant to detect.
   */
  ghost predicate InheritsEdge(types: TypeMap, rank: string -> nat, associations: JsMap.Map<nat>, src: string, x: string)
    requires Ranked(types, rank)
    decreases rank(src)
  {
    src in types &&
    exists j :: 0 <= j < |Heritage(types, src)| && Resolves(types, Heritage(types, src)[j]) &&
      (EdgeKey(BaseOf(types, Heritage(types, src)[j]).id, x) in associations.at
       || InheritsEdge(types, rank, associations, BaseOf(types, Heritage(types, src)[j]).id, x))
  }

  /**
   * `checkInheritedAssociation` with the crashes taken out: whether `src`
   * inherits its edge to `x`, and the edges with the flags it set. The
   * clauses are visited in order; each resolving clause sets the result to
   * "the base has an edge to `x`, or the base inherits one", so the last
   * resolving clause decides; whenever the result is true the edge of `src`
   * to `x` is flagged.
   */
  function CheckInherited(src: string, x: string, associations: JsMap.Map<nat>, edges: seq<MemberAssociation>,
                          types: TypeMap, ghost rank: string -> nat): (r: (seq<MemberAssociation>, bool))
    requires Indexes(associations, edges) && Ranked(types, rank)
    ensures FlagsOnly(edges, r.0)
    ensures r.1 ==> Flagged(r.0, associations, EdgeKey(src, x))
    ensures r.1 ==> InheritsEdge(types, rank, associations, src, x)
    decreases rank(src), |Heritage(types, src)| + 1
  {
    CheckClauses(src, x, 0, false, associations, edges, types, rank)
  }

  /** The `for..of` loop of the check from clause `k` on, with `inherited` and the edges so far. */
  function CheckClauses(src: string, x: string, k: nat, inherited: bool, associations: JsMap.Map<nat>,
                        edges: seq<MemberAssociation>, types: TypeMap, ghost rank: string -> nat): (r: (seq<MemberAssociation>, bool))
    requires Indexes(associations, edges) && Ranked(types, rank)
    requires k <= |Heritage(types, src)|
    ensures FlagsOnly(edges, r.0)
    ensures (inherited ==> Flagged(edges, associations, EdgeKey(src, x))) ==> (r.1 ==> Flagged(r.0, associations, EdgeKey(src, x)))
    ensures r.1 ==> inherited || InheritsEdge(types, rank, associations, src, x)
    // with no resolving clause left, nothing changes
    ensures (forall j :: k <= j < |Heritage(types, src)| ==> !Resolves(types, Heritage(types, src)[j])) ==> r == (edges, inherited)
    decreases rank(src), |Heritage(types, src)| - k
  {
    var clauses := Heritage(types, src);
    if k == |clauses| then (edges, inherited)
    else if !Resolves(types, clauses[k]) then
      CheckClauses(src, x, k + 1, inherited, associations, edges, types, rank)
    else
      var base := BaseOf(types, clauses[k]);
      var has := EdgeKey(base.id, x) in associations.at;
      var sub := CheckInherited(base.id, x, associations, edges, types, rank);
      var now := sub.1 || has;
      var flagged := if now then Flag(sub.0, associations, EdgeKey(src, x)) else sub.0;
      FlagsOnlyTransitive(edges, sub.0, flagged);
      var r := CheckClauses(src, x, k + 1, now, associations, flagged, types, rank);
      FlagsOnlyTransitive(edges, flagged, r.0);
      r
  }

  /** Clauses that do not resolve are skipped without effect. */
  lemma {:induction false} SkipUnresolved(src: string, x: string, k: nat, j: nat, inherited: bool, associations: JsMap.Map<nat>,
                                          edges: seq<MemberAssociation>, types: TypeMap, rank: string -> nat)
    requires Indexes(associations, edges) && Ranked(types, rank)
    requires k <= j <= |Heritage(types, src)|
    requires forall i :: k <= i < j ==> !Resolves(types, Heritage(types, src)[i])
    ensures CheckClauses(src, x, k, inherited, associations, edges, types, rank)
         == CheckClauses(src, x, j, inherited, associations, edges, types, rank)
    decreases j - k
  {
    if k < j {
      SkipUnresolved(src, x, k + 1, j, inherited, associations, edges, types, rank);
    }
  }

  /** Every type names at most one declared base. */
  ghost predicate SingleInheritance(types: TypeMap) {
    forall k, i, j ::
      (k in types && 0 <= i < |Heritage(types, k)| && 0 <= j < |Heritage(types, k)|
       && Resolves(types, Heritage(types, k)[i]) && Resolves(types, Heritage(types, k)[j])) ==> i == j
  }

  /**
   * Under single inheritance the check is exact: it reports an inherited
   * edge exactly when some ancestor has its own edge to `x`. (With several
   * bases only the last resolving one decides, so only the direction
   * in `CheckInherited`'s contract holds.)
   */
  lemma {:induction false} SingleInheritanceExact(src: string, x: string, associations: JsMap.Map<nat>,
                                                  edges: seq<MemberAssociation>, types: TypeMap, rank: string -> nat)
    requires Indexes(associations, edges) && Ranked(types, rank) && SingleInheritance(types)
    ensures CheckInherited(src, x, associations, edges, types, rank).1 <==> InheritsEdge(types, rank, associations, src, x)
    decreases rank(src)
  {
    var clauses := Heritage(types, src);
    if j :| 0 <= j < |clauses| && Resolves(types, clauses[j]) {
      SkipUnresolved(src, x, 0, j, false, associations, edges, types, rank);
      var base := BaseOf(types, clauses[j]);
      SingleInheritanceExact(base.id, x, associations, edges, types, rank);
      var sub := CheckInherited(base.id, x, associations, edges, types, rank);
      var now := sub.1 || EdgeKey(base.id, x) in associations.at;
      var flagged := if now then Flag(sub.0, associations, EdgeKey(src, x)) else sub.0;
      assert forall i :: j + 1 <= i < |clauses| ==> !Resolves(types, clauses[i]);
      assert CheckClauses(src, x, j + 1, now, associations, flagged, types, rank) == (flagged, now);
    } else {
      assert CheckClauses(src, x, 0, false, associations, edges, types, rank) == (edges, false);
    }
  }

  /** The index of the last clause whose base resolves, if there is one. */
  function LastResolving(types: TypeMap, clauses: seq<HeritageClause>): (r: Option<nat>)
    ensures r.Some? ==> r.value < |clauses| && Resolves(types, clauses[r.value])
    ensures r.Some? ==> forall j :: r.value < j < |clauses| ==> !Resolves(types, clauses[j])
    ensures r.None? ==> forall j :: 0 <= j < |clauses| ==> !Resolves(types, clauses[j])
    decreases |clauses|
  {
    if clauses == [] then None
    else if Resolves(types, clauses[|clauses| - 1]) then Some(|clauses| - 1)
    else LastResolving(types, clauses[..|clauses| - 1])
  }

  /** When clause `k` resolves, the last resolving clause is `k` or comes later. */
  lemma LastAtOrAfter(types: TypeMap, clauses: seq<HeritageClause>, k: nat)
    requires k < |clauses| && Resolves(types, clauses[k])
    ensures LastResolving(types, clauses).Some? && k <= LastResolving(types, clauses).value
    ensures LastResolving(types, clauses).value == k ==> forall j :: k < j < |clauses| ==> !Resolves(types, clauses[j])
  {
  }

  /**
   * What the check computes, for any number of bases: the base named by
   * the last resolving clause of `src` has its own edge to `x` in the map,
   * or inherits one in this same sense. Earlier clauses do not count.
   */
  ghost predicate InheritsLast(types: TypeMap, rank: string -> nat, associations: JsMap.Map<nat>, src: string, x: string)
    requires Ranked(types, rank)
    decreases rank(src)
  {
    var last := LastResolving(types, Heritage(types, src));
    src in types && last.Some? &&
    var base := BaseOf(types, Heritage(types, src)[last.value]).id;
    (EdgeKey(base, x) in associations.at || InheritsLast(types, rank, associations, base, x))
  }

  /** The verdict of the check is `InheritsLast`, whatever the flags already set. */
  lemma {:induction false} CheckLastDecides(src: string, x: string, associations: JsMap.Map<nat>,
                                            edges: seq<MemberAssociation>, types: TypeMap, rank: string -> nat)
    requires Indexes(associations, edges) && Ranked(types, rank)
    ensures CheckInherited(src, x, associations, edges, types, rank).1 == InheritsLast(types, rank, associations, src, x)
    decreases rank(src), |Heritage(types, src)| + 1, 0
  {
    ClausesLastDecide(src, x, 0, false, associations, edges, types, rank);
  }

  /** From clause `k` on, the last resolving clause at or after `k` decides; with none, `inherited` stands. */
  lemma {:induction false} ClausesLastDecide(src: string, x: string, k: nat, inherited: bool, associations: JsMap.Map<nat>,
                                             edges: seq<MemberAssociation>, types: TypeMap, rank: string -> nat)
    requires Indexes(associations, edges) && Ranked(types, rank)
    requires k <= |Heritage(types, src)|
    ensures CheckClauses(src, x, k, inherited, associations, edges, types, rank).1 == LastVerdict(types, rank, associations, src, x, k, inherited)
    decreases rank(src), |Heritage(types, src)| - k, 1
  {
    var clauses := Heritage(types, src);
    if k < |clauses| {
      if !Resolves(types, clauses[k]) {
        ClausesLastDecide(src, x, k + 1, inherited, associations, edges, types, rank);
      } else {
        ResolvingLastDecides(src, x, k, inherited, associations, edges, types, rank);
      }
    }
  }

  /** What `ClausesLastDecide` states: the verdict of the last resolving clause at or after `k`, else `inherited`. */
  ghost function LastVerdict(types: TypeMap, rank: string -> nat, associations: JsMap.Map<nat>, src: string, x: string,
                             k: nat, inherited: bool): bool
    requires Ranked(types, rank)
  {
    var last := LastResolving(types, Heritage(types, src));
    if last.Some? && k <= last.value then
      var base := BaseOf(types, Heritage(types, src)[last.value]).id;
      EdgeKey(base, x) in associations.at || InheritsLast(types, rank, associations, base, x)
    else inherited
  }

  /** A resolving clause `k`: either it is the last one and its base decides, or a later one does. */
  lemma {:induction false} ResolvingLastDecides(src: string, x: string, k: nat, inherited: bool, associations: JsMap.Map<nat>,
                                                edges: seq<MemberAssociation>, types: TypeMap, rank: string -> nat)
    requires Indexes(associations, edges) && Ranked(types, rank)
    requires k < |Heritage(types, src)| && Resolves(types, Heritage(types, src)[k])
    ensures CheckClauses(src, x, k, inherited, associations, edges, types, rank).1 == LastVerdict(types, rank, associations, src, x, k, inherited)
    decreases rank(src), |Heritage(types, src)| - k, 0
  {
    var clauses := Heritage(types, src);
    var base := BaseOf(types, clauses[k]);
    var sub := CheckInherited(base.id, x, associations, edges, types, rank);
    CheckLastDecides(base.id, x, associations, edges, types, rank);
    var now := sub.1 || EdgeKey(base.id, x) in associations.at;
    var flagged := if now then Flag(sub.0, associations, EdgeKey(src, x)) else sub.0;
    assert CheckClauses(src, x, k, inherited, associations, edges, types, rank).1
        == CheckClauses(src, x, k + 1, now, associations, flagged, types, rank).1;
    ClausesLastDecide(src, x, k + 1, now, associations, flagged, types, rank);
    LastAtOrAfter(types, clauses, k);
  }

  /** A map with more entries can only make more types inherit. */
  lemma {:induction false} InheritsLastGrows(types: TypeMap, rank: string -> nat, small: JsMap.Map<nat>, large: JsMap.Map<nat>,
                                             src: string, x: string)
    requires Ranked(types, rank)
    requires forall k :: k in small.at ==> k in large.at
    requires InheritsLast(types, rank, small, src, x)
    ensures InheritsLast(types, rank, large, src, x)
    decreases rank(src)
  {
    var clauses := Heritage(types, src);
    var base := BaseOf(types, clauses[LastResolving(types, clauses).value]).id;
    if EdgeKey(base, x) !in small.at {
      InheritsLastGrows(types, rank, small, large, base, x);
    }
  }

  lemma {:induction false} InheritsEdgeGrows(types: TypeMap, rank: string -> nat, small: JsMap.Map<nat>, large: JsMap.Map<nat>,
                                             src: string, x: string)
    requires Ranked(types, rank)
    requires forall k :: k in small.at ==> k in large.at
    requires InheritsEdge(types, rank, small, src, x)
    ensures InheritsEdge(types, rank, large, src, x)
    decreases rank(src)
  {
    var clauses := Heritage(types, src);
    var j :| 0 <= j < |clauses| && Resolves(types, clauses[j]) &&
      (EdgeKey(BaseOf(types, clauses[j]).id, x) in small.at || InheritsEdge(types, rank, small, BaseOf(types, clauses[j]).id, x));
    var base := BaseOf(types, clauses[j]).id;
    if EdgeKey(base, x) !in small.at {
      InheritsEdgeGrows(types, rank, small, large, base, x);
    }
    assert EdgeKey(base, x) in large.at || InheritsEdge(types, rank, large, base, x);
  }

  /**
   * An id as the parser builds them, `"<path>".<name>`: it opens with a
   * quote and has no underscore followed by a quote.
   */
  predicate PlainId(id: string) {
    |id| > 0 && id[0] == '"' && forall i :: 0 <= i < |id| - 1 ==> !(id[i] == '_' && id[i + 1] == '"')
  }

  ghost predicate PlainIds(types: TypeMap) {
    forall k :: k in types ==> PlainId(k)
  }

  /** Every entry sits under its own id. */
  ghost predicate IdsMatch(types: TypeMap) {
    forall k :: k in types ==> types[k].id == k
  }

  /**
   * Between plain ids the edge key is unambiguous: a key splits only at
   * its one underscore followed by a quote, so it names its two ends.
   */
  lemma EdgeKeySplits(from: string, to: string, a: string, b: string)
    requires PlainId(from) && PlainId(to) && |b| > 0 && b[0] == '"'
    requires EdgeKey(a, b) == EdgeKey(from, to)
    ensures a == from && b == to
  {
    var w := EdgeKey(from, to);
    assert w == a + "_" + b;
    assert w[|a|] == '_' && w[|a| + 1] == '"';
    assert a == w[..|a|] && from == w[..|from|];
    assert b == w[|a| + 1..] && to == w[|from| + 1..];
  }

  /**
   * Deleting the key of an edge whose source itself inherits its target
   * keeps every inheritance: a type that relied on that edge reaches the
   * same target through the deleted edge's own ancestors.
   */
  lemma {:induction false} InheritsLastDelete(types: TypeMap, rank: string -> nat, associations: JsMap.Map<nat>,
                                              s0: string, x0: string, src: string, x: string)
    requires Ranked(types, rank) && JsMap.Valid(associations) && PlainIds(types) && IdsMatch(types)
    requires x0 in types && x in types
    requires InheritsLast(types, rank, associations, s0, x0)
    requires InheritsLast(types, rank, associations, src, x)
    ensures InheritsLast(types, rank, JsMap.Delete(associations, EdgeKey(s0, x0)), src, x)
    decreases rank(src)
  {
    var clauses := Heritage(types, src);
    var base := BaseOf(types, clauses[LastResolving(types, clauses).value]).id;
    if EdgeKey(base, x) == EdgeKey(s0, x0) {
      EdgeKeySplits(s0, x0, base, x);
      InheritsLastDelete(types, rank, associations, s0, x0, base, x);
    } else if EdgeKey(base, x) !in associations.at {
      InheritsLastDelete(types, rank, associations, s0, x0, base, x);
    }
  }

  /**
   * The flags `r` adds to `edges` sit only on edges stored under their own
   * key whose source inherits their target in the sense of `InheritsEdge`.
   */
  ghost predicate FlagsSound(types: TypeMap, rank: string -> nat, associations: JsMap.Map<nat>,
                             edges: seq<MemberAssociation>, r: seq<MemberAssociation>)
    requires Ranked(types, rank)
  {
    forall j :: 0 <= j < |edges| && j < |r| && r[j] != edges[j] ==>
      EdgeKey(edges[j].a.typeId, edges[j].b.typeId) in associations.at
      && associations.at[EdgeKey(edges[j].a.typeId, edges[j].b.typeId)] == j
      && InheritsEdge(types, rank, associations, edges[j].a.typeId, edges[j].b.typeId)
  }

  /** Only flags change, so the entries keep naming edges of their own ends. */
  lemma KeysMatchFlags(associations: JsMap.Map<nat>, edges: seq<MemberAssociation>, flagged: seq<MemberAssociation>)
    requires Indexes(associations, edges) && KeysMatch(associations, edges) && FlagsOnly(edges, flagged)
    ensures Indexes(associations, flagged) && KeysMatch(associations, flagged)
  {
    forall k | k in associations.at
      ensures k == EdgeKey(flagged[associations.at[k]].a.typeId, flagged[associations.at[k]].b.typeId)
    {
      assert flagged[associations.at[k]].a == edges[associations.at[k]].a;
      assert flagged[associations.at[k]].b == edges[associations.at[k]].b;
    }
  }

  lemma FlagsSoundChain(types: TypeMap, rank: string -> nat, associations: JsMap.Map<nat>,
                        e: seq<MemberAssociation>, f: seq<MemberAssociation>, g: seq<MemberAssociation>)
    requires Ranked(types, rank) && FlagsOnly(e, f) && FlagsOnly(f, g)
    requires FlagsSound(types, rank, associations, e, f) && FlagsSound(types, rank, associations, f, g)
    ensures FlagsSound(types, rank, associations, e, g)
  {
    forall j | 0 <= j < |e| && j < |g| && g[j] != e[j]
      ensures EdgeKey(e[j].a.typeId, e[j].b.typeId) in associations.at
      ensures associations.at[EdgeKey(e[j].a.typeId, e[j].b.typeId)] == j
      ensures InheritsEdge(types, rank, associations, e[j].a.typeId, e[j].b.typeId)
    {
      if f[j] == e[j] {
        assert g[j] != f[j];
      }
    }
  }

  /** Flagging the edge under the key of `src` and `x` is sound once `src` inherits `x`. */
  lemma FlagStepSound(types: TypeMap, rank: string -> nat, associations: JsMap.Map<nat>, edges: seq<MemberAssociation>,
                      src: string, x: string)
    requires Indexes(associations, edges) && KeysMatch(associations, edges) && Ranked(types, rank) && PlainIds(types)
    requires src in types && x in types && forall j :: 0 <= j < |edges| ==> edges[j].b.typeId in types
    requires InheritsEdge(types, rank, associations, src, x)
    ensures FlagsSound(types, rank, associations, edges, Flag(edges, associations, EdgeKey(src, x)))
  {
    var key := EdgeKey(src, x);
    if key in associations.at {
      var i := associations.at[key];
      EdgeKeySplits(src, x, edges[i].a.typeId, edges[i].b.typeId);
    }
  }

  /** Flagging, when `now`, the edge of `src` and `x` on top of sound flags keeps them sound. */
  lemma FlaggedSound(types: TypeMap, rank: string -> nat, associations: JsMap.Map<nat>, edges: seq<MemberAssociation>,
                     mid: seq<MemberAssociation>, src: string, x: string, now: bool)
    requires Indexes(associations, edges) && KeysMatch(associations, edges) && Ranked(types, rank) && PlainIds(types)
    requires x in types && forall j :: 0 <= j < |edges| ==> edges[j].b.typeId in types
    requires FlagsOnly(edges, mid) && FlagsSound(types, rank, associations, edges, mid)
    requires now ==> src in types && InheritsEdge(types, rank, associations, src, x)
    ensures FlagsSound(types, rank, associations, edges, if now then Flag(mid, associations, EdgeKey(src, x)) else mid)
  {
    if now {
      KeysMatchFlags(associations, edges, mid);
      assert forall j :: 0 <= j < |mid| ==> mid[j].b.typeId in types by {
        forall j | 0 <= j < |mid| ensures mid[j].b.typeId in types {
          assert mid[j].b == edges[j].b;
        }
      }
      FlagStepSound(types, rank, associations, mid, src, x);
      FlagsSoundChain(types, rank, associations, edges, mid, Flag(mid, associations, EdgeKey(src, x)));
    }
  }

  /**
   * The check flags only edges stored under their own key whose source
   * inherits their target: the edge of `src` itself, or an ancestor's
   * edge met on the way down.
   */
  lemma {:induction false} CheckFlagsSound(src: string, x: string, associations: JsMap.Map<nat>,
                                           edges: seq<MemberAssociation>, types: TypeMap, rank: string -> nat)
    requires Indexes(associations, edges) && KeysMatch(associations, edges) && Ranked(types, rank) && PlainIds(types)
    requires x in types && forall j :: 0 <= j < |edges| ==> edges[j].b.typeId in types
    ensures FlagsSound(types, rank, associations, edges, CheckInherited(src, x, associations, edges, types, rank).0)
    decreases rank(src), |Heritage(types, src)| + 1, 0
  {
    ClausesFlagsSound(src, x, 0, false, associations, edges, types, rank);
  }

  lemma {:induction false} ClausesFlagsSound(src: string, x: string, k: nat, inherited: bool, associations: JsMap.Map<nat>,
                                             edges: seq<MemberAssociation>, types: TypeMap, rank: string -> nat)
    requires Indexes(associations, edges) && KeysMatch(associations, edges) && Ranked(types, rank) && PlainIds(types)
    requires x in types && forall j :: 0 <= j < |edges| ==> edges[j].b.typeId in types
    requires k <= |Heritage(types, src)|
    ensures FlagsSound(types, rank, associations, edges, CheckClauses(src, x, k, inherited, associations, edges, types, rank).0)
    decreases rank(src), |Heritage(types, src)| - k, 1
  {
    var clauses := Heritage(types, src);
    if k < |clauses| {
      if !Resolves(types, clauses[k]) {
        ClausesFlagsSound(src, x, k + 1, inherited, associations, edges, types, rank);
      } else {
        ResolvingFlagsSound(src, x, k, inherited, associations, edges, types, rank);
      }
    }
  }

  /** A resolving clause flags the edge of `src` only when its base has the edge or inherits it. */
  lemma {:induction false} ResolvingFlagsSound(src: string, x: string, k: nat, inherited: bool, associations: JsMap.Map<nat>,
                                               edges: seq<MemberAssociation>, types: TypeMap, rank: string -> nat)
    requires Indexes(associations, edges) && KeysMatch(associations, edges) && Ranked(types, rank) && PlainIds(types)
    requires x in types && forall j :: 0 <= j < |edges| ==> edges[j].b.typeId in types
    requires k < |Heritage(types, src)| && Resolves(types, Heritage(types, src)[k])
    ensures FlagsSound(types, rank, associations, edges, CheckClauses(src, x, k, inherited, associations, edges, types, rank).0)
    decreases rank(src), |Heritage(types, src)| - k, 0
  {
    var clauses := Heritage(types, src);
    var base := BaseOf(types, clauses[k]);
    var sub := CheckInherited(base.id, x, associations, edges, types, rank);
    CheckFlagsSound(base.id, x, associations, edges, types, rank);
    var now := sub.1 || EdgeKey(base.id, x) in associations.at;
    var flagged := if now then Flag(sub.0, associations, EdgeKey(src, x)) else sub.0;
    if now {
      assert InheritsEdge(types, rank, associations, src, x) by {
        assert 0 <= k < |clauses| && Resolves(types, clauses[k]);
        assert EdgeKey(base.id, x) in associations.at || InheritsEdge(types, rank, associations, base.id, x);
      }
    }
    FlaggedSound(types, rank, associations, edges, sub.0, src, x, now);
    KeysMatchFlags(associations, edges, flagged);
    var r := CheckClauses(src, x, k + 1, now, associations, flagged, types, rank);
    assert CheckClauses(src, x, k, inherited, associations, edges, types, rank).0 == r.0;
    ClausesFlagsSound(src, x, k + 1, now, associations, flagged, types, rank);
    FlagsSoundChain(types, rank, associations, edges, flagged, r.0);
  }

  /** `type` is undefined: the source id names no declared type. */
  const ReadUndefined := "TypeError: Cannot read properties of undefined (reading 'heritageClauses')"
  /** A type alias or an enum has no `heritageClauses`: `for..of` over undefined. */
  const NotIterable := "TypeError: heritageClauses is not iterable"
  /** The non-null assertion on `associationMap.get(...)` fails: the subtype has no edge of its own in the map. */
  const SetUndefined := "TypeError: Cannot set properties of undefined (setting 'inerhited')"

  /** The three ways the check as written can fail. */
  predicate CheckError(e: string) {
    e == ReadUndefined || e == NotIterable || e == SetUndefined
  }

  /**
   * `checkInheritedAssociation` as written: it fails on a source that is
   * not declared or has no heritage clauses, and when a type is found to
   * inherit while its own edge is no longer (or never was) in the map.
   * Whenever it succeeds it agrees with `CheckInherited`.
   */
  function CheckInheritedAsWritten(src: string, x: string, associations: JsMap.Map<nat>, edges: seq<MemberAssociation>,
                                   types: TypeMap, ghost rank: string -> nat): (r: Result<(seq<MemberAssociation>, bool)>)
    requires Indexes(associations, edges) && Ranked(types, rank)
    ensures src !in types ==> r == Err(ReadUndefined)
    ensures src in types && types[src].heritage.None? ==> r == Err(NotIterable)
    ensures r.Ok? ==> r.value == CheckInherited(src, x, associations, edges, types, rank)
    ensures r.Err? ==> CheckError(r.error)
    decreases rank(src), |Heritage(types, src)| + 1
  {
    if src !in types then Err(ReadUndefined)
    else if types[src].heritage.None? then Err(NotIterable)
    else CheckClausesAsWritten(src, x, 0, false, associations, edges, types, rank)
  }

  /** The `for..of` loop as written, from clause `k` on. */
  function CheckClausesAsWritten(src: string, x: string, k: nat, inherited: bool, associations: JsMap.Map<nat>,
                                 edges: seq<MemberAssociation>, types: TypeMap, ghost rank: string -> nat)
    : (r: Result<(seq<MemberAssociation>, bool)>)
    requires Indexes(associations, edges) && Ranked(types, rank)
    requires k <= |Heritage(types, src)|
    ensures r.Ok? ==> r.value == CheckClauses(src, x, k, inherited, associations, edges, types, rank)
    ensures r.Err? ==> CheckError(r.error)
    decreases rank(src), |Heritage(types, src)| - k
  {
    var clauses := Heritage(types, src);
    if k == |clauses| then Ok((edges, inherited))
    else if !Resolves(types, clauses[k]) then
      CheckClausesAsWritten(src, x, k + 1, inherited, associations, edges, types, rank)
    else
      var base := BaseOf(types, clauses[k]);
      var has := EdgeKey(base.id, x) in associations.at;
      match CheckInheritedAsWritten(base.id, x, associations, edges, types, rank)
      case Err(e) => Err(e)
      case Ok(sub) =>
        var now := sub.1 || has;
        if now && EdgeKey(src, x) !in associations.at then Err(SetUndefined)
        else
          var flagged := if now then Flag(sub.0, associations, EdgeKey(src, x)) else sub.0;
          CheckClausesAsWritten(src, x, k + 1, now, associations, flagged, types, rank)
  }

  /**
   * When the check as written gets through: `src` is declared with
   * heritage clauses, every clause's condition holds (`ClauseOk`), and so,
   * recursively, for every base reached through resolving clauses.
   */
  ghost predicate WrittenOk(types: TypeMap, rank: string -> nat, associations: JsMap.Map<nat>, src: string, x: string)
    requires Ranked(types, rank)
    decreases rank(src), 1
  {
    src in types && types[src].heritage.Some?
    && forall j :: 0 <= j < |Heritage(types, src)| ==> ClauseOk(types, rank, associations, src, x, j)
  }

  /**
   * What a resolving clause of `src` demands: the check of its base gets
   * through, and when the base has its own edge to `x` or inherits one
   * (`InheritsLast`), `src` still has its own edge to `x` in the map.
   */
  ghost predicate ClauseOk(types: TypeMap, rank: string -> nat, associations: JsMap.Map<nat>, src: string, x: string, j: nat)
    requires Ranked(types, rank) && j < |Heritage(types, src)|
    decreases rank(src), 0
  {
    Resolves(types, Heritage(types, src)[j]) ==>
      var base := BaseOf(types, Heritage(types, src)[j]).id;
      WrittenOk(types, rank, associations, base, x)
      && ((EdgeKey(base, x) in associations.at || InheritsLast(types, rank, associations, base, x))
          ==> EdgeKey(src, x) in associations.at)
  }

  /** The check as written succeeds exactly when `WrittenOk` holds. */
  lemma {:induction false} WrittenOkExact(src: string, x: string, associations: JsMap.Map<nat>,
                                          edges: seq<MemberAssociation>, types: TypeMap, rank: string -> nat)
    requires Indexes(associations, edges) && Ranked(types, rank)
    ensures CheckInheritedAsWritten(src, x, associations, edges, types, rank).Ok? ==> WrittenOk(types, rank, associations, src, x)
    ensures WrittenOk(types, rank, associations, src, x) ==> CheckInheritedAsWritten(src, x, associations, edges, types, rank).Ok?
    decreases rank(src), |Heritage(types, src)| + 1
  {
    if src in types && types[src].heritage.Some? {
      ClausesOkExact(src, x, 0, false, associations, edges, types, rank);
    }
  }

  /** The loop as written from clause `k` on succeeds exactly when every clause from `k` on is `ClauseOk`. */
  lemma {:induction false} ClausesOkExact(src: string, x: string, k: nat, inherited: bool, associations: JsMap.Map<nat>,
                                          edges: seq<MemberAssociation>, types: TypeMap, rank: string -> nat)
    requires Indexes(associations, edges) && Ranked(types, rank)
    requires k <= |Heritage(types, src)|
    ensures CheckClausesAsWritten(src, x, k, inherited, associations, edges, types, rank).Ok?
        ==> forall j :: k <= j < |Heritage(types, src)| ==> ClauseOk(types, rank, associations, src, x, j)
    ensures (forall j :: k <= j < |Heritage(types, src)| ==> ClauseOk(types, rank, associations, src, x, j))
        ==> CheckClausesAsWritten(src, x, k, inherited, associations, edges, types, rank).Ok?
    decreases rank(src), |Heritage(types, src)| - k
  {
    var clauses := Heritage(types, src);
    if k < |clauses| {
      if !Resolves(types, clauses[k]) {
        ClausesOkExact(src, x, k + 1, inherited, associations, edges, types, rank);
      } else {
        var base := BaseOf(types, clauses[k]);
        WrittenOkExact(base.id, x, associations, edges, types, rank);
        var w := CheckInheritedAsWritten(base.id, x, associations, edges, types, rank);
        if w.Err? {
          assert !ClauseOk(types, rank, associations, src, x, k);
        } else {
          CheckLastDecides(base.id, x, associations, edges, types, rank);
          var sub := CheckInherited(base.id, x, associations, edges, types, rank);
          var now := sub.1 || EdgeKey(base.id, x) in associations.at;
          if now && EdgeKey(src, x) !in associations.at {
            assert !ClauseOk(types, rank, associations, src, x, k);
          } else {
            assert ClauseOk(types, rank, associations, src, x, k);
            var flagged := if now then Flag(sub.0, associations, EdgeKey(src, x)) else sub.0;
            assert CheckClausesAsWritten(src, x, k, inherited, associations, edges, types, rank)
                == CheckClausesAsWritten(src, x, k + 1, now, associations, flagged, types, rank);
            ClausesOkExact(src, x, k + 1, now, associations, flagged, types, rank);
          }
        }
      }
    }
  }

  /**
   * `checkInheritedAssociation`, corrected, as the recursive loop it is:
   * the clauses in order, each resolving one recomputing `inherited` and
   * flagging the edge of `src` to `x` when it is true.
   */
  method CheckInheritedAssociation(src: string, x: string, associations: JsMap.Map<nat>, edges: seq<MemberAssociation>,
                                   types: TypeMap, ghost rank: string -> nat) returns (flagged: seq<MemberAssociation>, inherited: bool)
    requires Indexes(associations, edges) && Ranked(types, rank)
    ensures (flagged, inherited) == CheckInherited(src, x, associations, edges, types, rank)
    decreases rank(src)
  {
    var clauses := if src in types && types[src].heritage.Some? then types[src].heritage.value else [];
    inherited := false;
    flagged := edges;
    for k := 0 to |clauses|
      invariant |flagged| == |edges|
      invariant CheckClauses(src, x, k, inherited, associations, flagged, types, rank)
             == CheckInherited(src, x, associations, edges, types, rank)
    {
      var clause := clauses[k];
      if clause.clauseTypeId.Some? && clause.clauseTypeId.value in types {
        var base := types[clause.clauseTypeId.value];
        inherited := EdgeKey(base.id, x) in associations.at;
        var sub, subInherited := CheckInheritedAssociation(base.id, x, associations, flagged, types, rank);
        inherited := subInherited || inherited;
        flagged := sub;
        if inherited {
          flagged := Flag(flagged, associations, EdgeKey(src, x));
        }
      }
    }
  }

  /** Every map entry sits under the key of its edge's ends. */
  ghost predicate KeysMatch(associations: JsMap.Map<nat>, edges: seq<MemberAssociation>)
    requires Indexes(associations, edges)
  {
    forall k :: k in associations.at ==> k == EdgeKey(edges[associations.at[k]].a.typeId, edges[associations.at[k]].b.typeId)
  }

  /**
   * `processAssociationInheritance` over the keys `keys`, in order: each key
   * still in the map has its edge checked, and is deleted when the check
   * says its edge is inherited. Only visited keys are deleted, a deleted
   * key's edge is flagged, and the entries that stay are unchanged.
   */
  function ProcessKeys(keys: seq<string>, associations: JsMap.Map<nat>, edges: seq<MemberAssociation>,
                       types: TypeMap, ghost rank: string -> nat): (r: (JsMap.Map<nat>, seq<MemberAssociation>))
    requires JsMap.Valid(associations) && Indexes(associations, edges) && KeysMatch(associations, edges) && Ranked(types, rank)
    ensures JsMap.Valid(r.0) && Indexes(r.0, r.1) && KeysMatch(r.0, r.1) && FlagsOnly(edges, r.1)
    ensures forall k :: k in r.0.at ==> k in associations.at && r.0.at[k] == associations.at[k]
    ensures forall k :: k in associations.at && k !in r.0.at ==> k in keys && r.1[associations.at[k]].inherited
    decreases |keys|
  {
    if keys == [] then (associations, edges)
    else if keys[0] !in associations.at then ProcessKeys(keys[1..], associations, edges, types, rank)
    else
      var e := edges[associations.at[keys[0]]];
      var c := CheckInherited(e.a.typeId, e.b.typeId, associations, edges, types, rank);
      var next := if c.1 then JsMap.Delete(associations, keys[0]) else associations;
      DeleteStep(associations, edges, keys[0], c.0, c.1);
      var r := ProcessKeys(keys[1..], next, c.0, types, rank);
      ProcessStep(keys, associations, edges, next, c.0, r);
      r
  }

  /** Deleting the visited key when, and only when, its edge was found inherited and flagged. */
  lemma DeleteStep(associations: JsMap.Map<nat>, edges: seq<MemberAssociation>, key: string,
                   flagged: seq<MemberAssociation>, inherited: bool)
    requires JsMap.Valid(associations) && Indexes(associations, edges) && KeysMatch(associations, edges)
    requires key in associations.at && FlagsOnly(edges, flagged)
    requires inherited ==> Flagged(flagged, associations, key)
    ensures var next := if inherited then JsMap.Delete(associations, key) else associations;
            JsMap.Valid(next) && Indexes(next, flagged) && KeysMatch(next, flagged)
            && (forall k :: k in next.at ==> k in associations.at && next.at[k] == associations.at[k])
            && (forall k :: k in associations.at && k !in next.at ==> k == key && flagged[associations.at[k]].inherited)
  {
    var next := if inherited then JsMap.Delete(associations, key) else associations;
    forall k | k in next.at
      ensures k == EdgeKey(flagged[next.at[k]].a.typeId, flagged[next.at[k]].b.typeId)
    {
      assert flagged[next.at[k]].a == edges[next.at[k]].a && flagged[next.at[k]].b == edges[next.at[k]].b;
    }
  }

  /** One visited key followed by the rest of the keys. */
  lemma ProcessStep(keys: seq<string>, associations: JsMap.Map<nat>, edges: seq<MemberAssociation>,
                    next: JsMap.Map<nat>, flagged: seq<MemberAssociation>, r: (JsMap.Map<nat>, seq<MemberAssociation>))
    requires keys != [] && FlagsOnly(edges, flagged) && FlagsOnly(flagged, r.1)
    requires Indexes(associations, edges)
    requires forall k :: k in next.at ==> k in associations.at && next.at[k] == associations.at[k]
    requires forall k :: k in associations.at && k !in next.at ==> k == keys[0] && flagged[associations.at[k]].inherited
    requires forall k :: k in r.0.at ==> k in next.at && r.0.at[k] == next.at[k]
    requires forall k :: k in next.at && k !in r.0.at ==> k in keys[1..] && r.1[next.at[k]].inherited
    ensures FlagsOnly(edges, r.1)
    ensures forall k :: k in r.0.at ==> k in associations.at && r.0.at[k] == associations.at[k]
    ensures forall k :: k in associations.at && k !in r.0.at ==> k in keys && r.1[associations.at[k]].inherited
  {
    FlagsOnlyTransitive(edges, flagged, r.1);
    forall k | k in associations.at && k !in r.0.at
      ensures k in keys && r.1[associations.at[k]].inherited
    {
      if k in next.at {
        assert k in keys[1..];
      } else {
        assert flagged[associations.at[k]].inherited;
      }
    }
  }

  /** `processAssociationInheritance` as written: the first failing check ends the pass with its error. */
  function ProcessKeysAsWritten(keys: seq<string>, associations: JsMap.Map<nat>, edges: seq<MemberAssociation>,
                                types: TypeMap, ghost rank: string -> nat): (r: Result<(JsMap.Map<nat>, seq<MemberAssociation>)>)
    requires JsMap.Valid(associations) && Indexes(associations, edges) && KeysMatch(associations, edges) && Ranked(types, rank)
    ensures r.Ok? ==> r.value == ProcessKeys(keys, associations, edges, types, rank)
    ensures r.Err? ==> CheckError(r.error)
    decreases |keys|
  {
    if keys == [] then Ok((associations, edges))
    else if keys[0] !in associations.at then ProcessKeysAsWritten(keys[1..], associations, edges, types, rank)
    else
      var e := edges[associations.at[keys[0]]];
      match CheckInheritedAsWritten(e.a.typeId, e.b.typeId, associations, edges, types, rank)
      case Err(m) => Err(m)
      case Ok(c) =>
        var next := if c.1 then JsMap.Delete(associations, keys[0]) else associations;
        DeleteStep(associations, edges, keys[0], c.0, c.1);
        ProcessKeysAsWritten(keys[1..], next, c.0, types, rank)
  }

  /**
   * `processAssociationInheritance`: the `forEach` over the map visits the
   * keys in insertion order; it deletes only the key it is visiting, so it
   * visits exactly the keys present when it starts.
   */
  method ProcessAssociationInheritance(associations: JsMap.Map<nat>, edges: seq<MemberAssociation>,
                                       types: TypeMap, ghost rank: string -> nat)
    returns (remaining: JsMap.Map<nat>, flagged: seq<MemberAssociation>)
    requires JsMap.Valid(associations) && Indexes(associations, edges) && KeysMatch(associations, edges) && Ranked(types, rank)
    ensures (remaining, flagged) == ProcessKeys(associations.keys, associations, edges, types, rank)
  {
    var keys := associations.keys;
    remaining, flagged := associations, edges;
    var i := 0;
    while i < |keys|
      invariant 0 <= i <= |keys|
      invariant JsMap.Valid(remaining) && Indexes(remaining, flagged) && KeysMatch(remaining, flagged)
      invariant ProcessKeys(keys[i..], remaining, flagged, types, rank) == ProcessKeys(keys, associations, edges, types, rank)
    {
      assert keys[i..][1..] == keys[i + 1..];
      remaining, flagged := ProcessEntry(keys[i..], remaining, flagged, types, rank);
      i := i + 1;
    }
    assert keys[i..] == [];
  }

  /** The callback of the `forEach` for one key: check the entry's edge, delete the key when it is inherited. */
  method ProcessEntry(keys: seq<string>, associations: JsMap.Map<nat>, edges: seq<MemberAssociation>,
                      types: TypeMap, ghost rank: string -> nat)
    returns (remaining: JsMap.Map<nat>, flagged: seq<MemberAssociation>)
    requires keys != []
    requires JsMap.Valid(associations) && Indexes(associations, edges) && KeysMatch(associations, edges) && Ranked(types, rank)
    ensures JsMap.Valid(remaining) && Indexes(remaining, flagged) && KeysMatch(remaining, flagged)
    ensures ProcessKeys(keys[1..], remaining, flagged, types, rank) == ProcessKeys(keys, associations, edges, types, rank)
  {
    ProcessKeysUnfold(keys, associations, edges, types, rank);
    var key := keys[0];
    remaining, flagged := associations, edges;
    if key in associations.at {
      var e := edges[associations.at[key]];
      var inherited;
      flagged, inherited := CheckInheritedAssociation(e.a.typeId, e.b.typeId, associations, edges, types, rank);
      if inherited {
        remaining := JsMap.Delete(associations, key);
      }
    }
  }

  /** The first step of `ProcessKeys`, spelled out. */
  lemma ProcessKeysUnfold(keys: seq<string>, associations: JsMap.Map<nat>, edges: seq<MemberAssociation>,
                          types: TypeMap, rank: string -> nat)
    requires keys != []
    requires JsMap.Valid(associations) && Indexes(associations, edges) && KeysMatch(associations, edges) && Ranked(types, rank)
    ensures keys[0] !in associations.at ==>
      ProcessKeys(keys, associations, edges, types, rank) == ProcessKeys(keys[1..], associations, edges, types, rank)
    ensures keys[0] in associations.at ==>
      var e := edges[associations.at[keys[0]]];
      var c := CheckInherited(e.a.typeId, e.b.typeId, associations, edges, types, rank);
      var next := if c.1 then JsMap.Delete(associations, keys[0]) else associations;
      Indexes(next, c.0) && KeysMatch(next, c.0) &&
      ProcessKeys(keys, associations, edges, types, rank) == ProcessKeys(keys[1..], next, c.0, types, rank)
  {
    if keys[0] in associations.at {
      var e := edges[associations.at[keys[0]]];
      var c := CheckInherited(e.a.typeId, e.b.typeId, associations, edges, types, rank);
      DeleteStep(associations, edges, keys[0], c.0, c.1);
    }
  }

  /**
   * Which keys the pass deletes: a visited key goes exactly when the source
   * of its edge inherits the edge's target in the sense of `InheritsLast`,
   * judged on the map the pass starts from. Deleting keys on the way does
   * not change the verdicts of later keys, because a deleted edge's source
   * itself inherits the same target.
   */
  lemma {:induction false} ProcessKeysExact(keys: seq<string>, associations: JsMap.Map<nat>, edges: seq<MemberAssociation>,
                                            types: TypeMap, rank: string -> nat, k: string)
    requires JsMap.Valid(associations) && Indexes(associations, edges) && KeysMatch(associations, edges) && Ranked(types, rank)
    requires PlainIds(types) && IdsMatch(types) && forall j :: 0 <= j < |edges| ==> edges[j].b.typeId in types
    requires k in keys && k in associations.at
    ensures var e := edges[associations.at[k]];
      k !in ProcessKeys(keys, associations, edges, types, rank).0.at <==> InheritsLast(types, rank, associations, e.a.typeId, e.b.typeId)
    decreases |keys|, 1
  {
    if keys[0] !in associations.at {
      ProcessKeysExact(keys[1..], associations, edges, types, rank, k);
    } else {
      ProcessKeysExactStep(keys, associations, edges, types, rank, k);
    }
  }

  /** `ProcessKeysExact` when the first key is still in the map: its check runs and may delete it. */
  lemma {:induction false} ProcessKeysExactStep(keys: seq<string>, associations: JsMap.Map<nat>, edges: seq<MemberAssociation>,
                                                types: TypeMap, rank: string -> nat, k: string)
    requires JsMap.Valid(associations) && Indexes(associations, edges) && KeysMatch(associations, edges) && Ranked(types, rank)
    requires PlainIds(types) && IdsMatch(types) && forall j :: 0 <= j < |edges| ==> edges[j].b.typeId in types
    requires k in keys && k in associations.at && keys[0] in associations.at
    ensures var e := edges[associations.at[k]];
      k !in ProcessKeys(keys, associations, edges, types, rank).0.at <==> InheritsLast(types, rank, associations, e.a.typeId, e.b.typeId)
    decreases |keys|, 0
  {
    var e := edges[associations.at[k]];
    var k0 := keys[0];
    var e0 := edges[associations.at[k0]];
    var c := CheckInherited(e0.a.typeId, e0.b.typeId, associations, edges, types, rank);
    CheckLastDecides(e0.a.typeId, e0.b.typeId, associations, edges, types, rank);
    var next := if c.1 then JsMap.Delete(associations, k0) else associations;
    DeleteStep(associations, edges, k0, c.0, c.1);
    var r := ProcessKeys(keys[1..], next, c.0, types, rank);
    assert ProcessKeys(keys, associations, edges, types, rank) == r;
    TargetsKept(edges, c.0, types);
    if k in next.at {
      assert next.at[k] == associations.at[k];
      FlagsOnlyEnds(edges, c.0, associations.at[k]);
      if k in keys[1..] {
        ProcessKeysExact(keys[1..], next, c.0, types, rank, k);
      } else {
        assert k == k0 && !c.1;
      }
      if c.1 {
        DeleteKeepsVerdict(types, rank, associations, e0.a.typeId, e0.b.typeId, e.a.typeId, e.b.typeId);
      }
    }
  }

  /** Deleting the key of an inheriting edge changes no verdict. */
  lemma DeleteKeepsVerdict(types: TypeMap, rank: string -> nat, associations: JsMap.Map<nat>,
                           s0: string, x0: string, src: string, x: string)
    requires Ranked(types, rank) && JsMap.Valid(associations) && PlainIds(types) && IdsMatch(types)
    requires x0 in types && x in types
    requires InheritsLast(types, rank, associations, s0, x0)
    ensures InheritsLast(types, rank, JsMap.Delete(associations, EdgeKey(s0, x0)), src, x)
        == InheritsLast(types, rank, associations, src, x)
  {
    var smaller := JsMap.Delete(associations, EdgeKey(s0, x0));
    if InheritsLast(types, rank, smaller, src, x) {
      InheritsLastGrows(types, rank, smaller, associations, src, x);
    }
    if InheritsLast(types, rank, associations, src, x) {
      InheritsLastDelete(types, rank, associations, s0, x0, src, x);
    }
  }

  /** Under single inheritance a visited key goes exactly when some ancestor of its source has its own edge to the target. */
  lemma ProcessKeysSingle(keys: seq<string>, associations: JsMap.Map<nat>, edges: seq<MemberAssociation>,
                          types: TypeMap, rank: string -> nat, k: string)
    requires JsMap.Valid(associations) && Indexes(associations, edges) && KeysMatch(associations, edges) && Ranked(types, rank)
    requires PlainIds(types) && IdsMatch(types) && forall j :: 0 <= j < |edges| ==> edges[j].b.typeId in types
    requires SingleInheritance(types)
    requires k in keys && k in associations.at
    ensures var e := edges[associations.at[k]];
      k !in ProcessKeys(keys, associations, edges, types, rank).0.at <==> InheritsEdge(types, rank, associations, e.a.typeId, e.b.typeId)
  {
    var e := edges[associations.at[k]];
    ProcessKeysExact(keys, associations, edges, types, rank, k);
    CheckLastDecides(e.a.typeId, e.b.typeId, associations, edges, types, rank);
    SingleInheritanceExact(e.a.typeId, e.b.typeId, associations, edges, types, rank);
  }

  /** A sound flag stays sound in a map with more entries under the same values. */
  lemma FlagsSoundWider(types: TypeMap, rank: string -> nat, small: JsMap.Map<nat>, large: JsMap.Map<nat>,
                        edges: seq<MemberAssociation>, r: seq<MemberAssociation>)
    requires Ranked(types, rank)
    requires forall k :: k in small.at ==> k in large.at && large.at[k] == small.at[k]
    requires FlagsSound(types, rank, small, edges, r)
    ensures FlagsSound(types, rank, large, edges, r)
  {
    forall j | 0 <= j < |edges| && j < |r| && r[j] != edges[j]
      ensures InheritsEdge(types, rank, large, edges[j].a.typeId, edges[j].b.typeId)
    {
      InheritsEdgeGrows(types, rank, small, large, edges[j].a.typeId, edges[j].b.typeId);
    }
  }

  /**
   * The pass flags only edges stored under their own key, in the map it
   * starts from, whose source inherits their target (`InheritsEdge`).
   */
  lemma {:induction false} ProcessFlagsSound(keys: seq<string>, associations: JsMap.Map<nat>, edges: seq<MemberAssociation>,
                                             types: TypeMap, rank: string -> nat)
    requires JsMap.Valid(associations) && Indexes(associations, edges) && KeysMatch(associations, edges) && Ranked(types, rank)
    requires PlainIds(types) && forall j :: 0 <= j < |edges| ==> edges[j].b.typeId in types
    ensures FlagsSound(types, rank, associations, edges, ProcessKeys(keys, associations, edges, types, rank).1)
    decreases |keys|
  {
    if keys != [] {
      if keys[0] !in associations.at {
        ProcessFlagsSound(keys[1..], associations, edges, types, rank);
      } else {
        var e := edges[associations.at[keys[0]]];
        var c := CheckInherited(e.a.typeId, e.b.typeId, associations, edges, types, rank);
        CheckFlagsSound(e.a.typeId, e.b.typeId, associations, edges, types, rank);
        var next := if c.1 then JsMap.Delete(associations, keys[0]) else associations;
        DeleteStep(associations, edges, keys[0], c.0, c.1);
        TargetsKept(edges, c.0, types);
        var r := ProcessKeys(keys[1..], next, c.0, types, rank);
        ProcessFlagsSound(keys[1..], next, c.0, types, rank);
        FlagsSoundWider(types, rank, next, associations, c.0, r.1);
        FlagsSoundChain(types, rank, associations, edges, c.0, r.1);
      }
    }
  }

  /**
   * The visit of `keys[i]` as written gets through: in the map as the pass
   * left it after `keys[..i]`, the key is gone or the check of its edge
   * succeeds.
   */
  ghost predicate VisitOk(keys: seq<string>, i: nat, associations: JsMap.Map<nat>, edges: seq<MemberAssociation>,
                          types: TypeMap, rank: string -> nat)
    requires JsMap.Valid(associations) && Indexes(associations, edges) && KeysMatch(associations, edges) && Ranked(types, rank)
    requires i < |keys|
  {
    var s := ProcessKeys(keys[..i], associations, edges, types, rank);
    keys[i] in s.0.at ==>
      WrittenOk(types, rank, s.0, s.1[s.0.at[keys[i]]].a.typeId, s.1[s.0.at[keys[i]]].b.typeId)
  }

  /** After a first key that is not in the map, the later visits are those of the remaining keys. */
  lemma VisitShift(keys: seq<string>, i: nat, associations: JsMap.Map<nat>, edges: seq<MemberAssociation>,
                   types: TypeMap, rank: string -> nat)
    requires JsMap.Valid(associations) && Indexes(associations, edges) && KeysMatch(associations, edges) && Ranked(types, rank)
    requires i + 1 < |keys| && keys[0] !in associations.at
    ensures VisitOk(keys, i + 1, associations, edges, types, rank) == VisitOk(keys[1..], i, associations, edges, types, rank)
  {
    assert keys[..i + 1][1..] == keys[1..][..i];
    assert keys[..i + 1][0] == keys[0] && keys[1..][i] == keys[i + 1];
    ProcessKeysUnfold(keys[..i + 1], associations, edges, types, rank);
  }

  /** After a first key in the map, the later visits see the map `next` and the edges `c.0` its check left. */
  lemma VisitShiftChecked(keys: seq<string>, i: nat, associations: JsMap.Map<nat>, edges: seq<MemberAssociation>,
                          types: TypeMap, rank: string -> nat, c: (seq<MemberAssociation>, bool), next: JsMap.Map<nat>)
    requires JsMap.Valid(associations) && Indexes(associations, edges) && KeysMatch(associations, edges) && Ranked(types, rank)
    requires i + 1 < |keys| && keys[0] in associations.at
    requires c == CheckInherited(edges[associations.at[keys[0]]].a.typeId, edges[associations.at[keys[0]]].b.typeId,
                                 associations, edges, types, rank)
    requires next == if c.1 then JsMap.Delete(associations, keys[0]) else associations
    requires JsMap.Valid(next) && Indexes(next, c.0) && KeysMatch(next, c.0)
    ensures VisitOk(keys[1..], i, next, c.0, types, rank) ==> VisitOk(keys, i + 1, associations, edges, types, rank)
    ensures VisitOk(keys, i + 1, associations, edges, types, rank) ==> VisitOk(keys[1..], i, next, c.0, types, rank)
  {
    assert keys[..i + 1][1..] == keys[1..][..i];
    assert keys[..i + 1][0] == keys[0] && keys[1..][i] == keys[i + 1];
    ProcessKeysUnfold(keys[..i + 1], associations, edges, types, rank);
  }

  /** Flags leave every edge's target alone. */
  lemma TargetsKept(edges: seq<MemberAssociation>, flagged: seq<MemberAssociation>, types: TypeMap)
    requires FlagsOnly(edges, flagged) && forall j :: 0 <= j < |edges| ==> edges[j].b.typeId in types
    ensures forall j :: 0 <= j < |flagged| ==> flagged[j].b.typeId in types
  {
    forall j | 0 <= j < |flagged| ensures flagged[j].b.typeId in types {
      assert flagged[j].b == edges[j].b;
    }
  }

  /** Every visit of the pass as written gets through. */
  ghost predicate VisitsOk(keys: seq<string>, associations: JsMap.Map<nat>, edges: seq<MemberAssociation>,
                           types: TypeMap, rank: string -> nat)
    requires JsMap.Valid(associations) && Indexes(associations, edges) && KeysMatch(associations, edges) && Ranked(types, rank)
  {
    forall i :: 0 <= i < |keys| ==> VisitOk(keys, i, associations, edges, types, rank)
  }

  /** When the pass as written succeeds, every visit got through. */
  lemma {:induction false} PassOkSound(keys: seq<string>, associations: JsMap.Map<nat>, edges: seq<MemberAssociation>,
                                       types: TypeMap, rank: string -> nat)
    requires JsMap.Valid(associations) && Indexes(associations, edges) && KeysMatch(associations, edges) && Ranked(types, rank)
    ensures ProcessKeysAsWritten(keys, associations, edges, types, rank).Ok? ==> VisitsOk(keys, associations, edges, types, rank)
    decreases |keys|, 1
  {
    if keys != [] && ProcessKeysAsWritten(keys, associations, edges, types, rank).Ok? {
      if keys[0] !in associations.at {
        assert keys[..0] == [];
        PassOkSound(keys[1..], associations, edges, types, rank);
        forall i | 0 < i < |keys| ensures VisitOk(keys, i, associations, edges, types, rank) {
          VisitShift(keys, i - 1, associations, edges, types, rank);
        }
      } else {
        PassOkSoundStep(keys, associations, edges, types, rank);
      }
    }
  }

  /** `PassOkSound` when the first key is still in the map: its check got through, and so did the rest. */
  lemma {:induction false} PassOkSoundStep(keys: seq<string>, associations: JsMap.Map<nat>, edges: seq<MemberAssociation>,
                                           types: TypeMap, rank: string -> nat)
    requires JsMap.Valid(associations) && Indexes(associations, edges) && KeysMatch(associations, edges) && Ranked(types, rank)
    requires keys != [] && keys[0] in associations.at
    ensures ProcessKeysAsWritten(keys, associations, edges, types, rank).Ok? ==> VisitsOk(keys, associations, edges, types, rank)
    decreases |keys|, 0
  {
    if ProcessKeysAsWritten(keys, associations, edges, types, rank).Ok? {
      var k0 := keys[0];
      assert keys[..0] == [];
      var e := edges[associations.at[k0]];
      WrittenOkExact(e.a.typeId, e.b.typeId, associations, edges, types, rank);
      var c := CheckInherited(e.a.typeId, e.b.typeId, associations, edges, types, rank);
      var next := if c.1 then JsMap.Delete(associations, k0) else associations;
      DeleteStep(associations, edges, k0, c.0, c.1);
      assert CheckInheritedAsWritten(e.a.typeId, e.b.typeId, associations, edges, types, rank) == Ok(c);
      assert ProcessKeysAsWritten(keys, associations, edges, types, rank)
          == ProcessKeysAsWritten(keys[1..], next, c.0, types, rank);
      assert ProcessKeys(keys[..0], associations, edges, types, rank) == (associations, edges);
      assert VisitOk(keys, 0, associations, edges, types, rank);
      PassOkSound(keys[1..], next, c.0, types, rank);
      LaterVisitsOk(keys, associations, edges, types, rank, c, next);
    }
  }

  /** The later visits of `keys` are the visits of `keys[1..]` from the map and edges the first visit left. */
  lemma LaterVisitsOk(keys: seq<string>, associations: JsMap.Map<nat>, edges: seq<MemberAssociation>,
                      types: TypeMap, rank: string -> nat, c: (seq<MemberAssociation>, bool), next: JsMap.Map<nat>)
    requires JsMap.Valid(associations) && Indexes(associations, edges) && KeysMatch(associations, edges) && Ranked(types, rank)
    requires keys != [] && keys[0] in associations.at
    requires c == CheckInherited(edges[associations.at[keys[0]]].a.typeId, edges[associations.at[keys[0]]].b.typeId,
                                 associations, edges, types, rank)
    requires next == if c.1 then JsMap.Delete(associations, keys[0]) else associations
    requires JsMap.Valid(next) && Indexes(next, c.0) && KeysMatch(next, c.0)
    requires VisitsOk(keys[1..], next, c.0, types, rank)
    ensures forall i :: 0 < i < |keys| ==> VisitOk(keys, i, associations, edges, types, rank)
  {
    forall i | 0 < i < |keys| ensures VisitOk(keys, i, associations, edges, types, rank) {
      VisitShiftChecked(keys, i - 1, associations, edges, types, rank, c, next);
    }
  }

  /** When every visit gets through, the pass as written succeeds. */
  lemma {:induction false} PassOkComplete(keys: seq<string>, associations: JsMap.Map<nat>, edges: seq<MemberAssociation>,
                                          types: TypeMap, rank: string -> nat)
    requires JsMap.Valid(associations) && Indexes(associations, edges) && KeysMatch(associations, edges) && Ranked(types, rank)
    requires VisitsOk(keys, associations, edges, types, rank)
    ensures ProcessKeysAsWritten(keys, associations, edges, types, rank).Ok?
    decreases |keys|
  {
    if keys != [] {
      var k0 := keys[0];
      assert keys[..0] == [];
      assert VisitOk(keys, 0, associations, edges, types, rank);
      if k0 !in associations.at {
        forall i | 0 <= i < |keys| - 1 ensures VisitOk(keys[1..], i, associations, edges, types, rank) {
          VisitShift(keys, i, associations, edges, types, rank);
        }
        PassOkComplete(keys[1..], associations, edges, types, rank);
      } else {
        var e := edges[associations.at[k0]];
        WrittenOkExact(e.a.typeId, e.b.typeId, associations, edges, types, rank);
        var c := CheckInherited(e.a.typeId, e.b.typeId, associations, edges, types, rank);
        var next := if c.1 then JsMap.Delete(associations, k0) else associations;
        DeleteStep(associations, edges, k0, c.0, c.1);
        forall i | 0 <= i < |keys| - 1 ensures VisitOk(keys[1..], i, next, c.0, types, rank) {
          VisitShiftChecked(keys, i, associations, edges, types, rank, c, next);
        }
        PassOkComplete(keys[1..], next, c.0, types, rank);
        assert ProcessKeysAsWritten(keys, associations, edges, types, rank)
            == ProcessKeysAsWritten(keys[1..], next, c.0, types, rank);
      }
    }
  }

  /**
   * The pass as written fails when it visits a key whose edge starts at a
   * declared type without heritage clauses: a type alias or an enum.
   */
  lemma {:induction false} AliasOwnerFails(keys: seq<string>, associations: JsMap.Map<nat>, edges: seq<MemberAssociation>,
                                           types: TypeMap, rank: string -> nat, k: string)
    requires JsMap.Valid(associations) && Indexes(associations, edges) && KeysMatch(associations, edges) && Ranked(types, rank)
    requires k in keys && k in associations.at
    requires edges[associations.at[k]].a.typeId in types && types[edges[associations.at[k]].a.typeId].heritage.None?
    ensures ProcessKeysAsWritten(keys, associations, edges, types, rank).Err?
    decreases |keys|
  {
    var k0 := keys[0];
    if k0 !in associations.at {
      AliasOwnerFails(keys[1..], associations, edges, types, rank, k);
    } else if k0 != k {
      var e := edges[associations.at[k0]];
      match CheckInheritedAsWritten(e.a.typeId, e.b.typeId, associations, edges, types, rank)
      case Err(_) =>
      case Ok(c) =>
        var next := if c.1 then JsMap.Delete(associations, k0) else associations;
        DeleteStep(associations, edges, k0, c.0, c.1);
        assert c.0[next.at[k]].a == edges[associations.at[k]].a;
        AliasOwnerFails(keys[1..], next, c.0, types, rank, k);
    }
  }

  // Dropping inherited edges from the file lists

  /** The indices strictly increase: the list is in creation order. */
  predicate Increasing(list: seq<nat>) {
    forall i, j :: 0 <= i < j < |list| ==> list[i] < list[j]
  }

  /** The listed indices name existing edges. */
  predicate InBounds(list: seq<nat>, edges: seq<MemberAssociation>) {
    forall j :: 0 <= j < |list| ==> list[j] < |edges|
  }

  /**
   * The `filter(ass => !ass.inerhited)` of a file's list: exactly the
   * unflagged listed edges, in their listed order.
   */
  function Unflagged(list: seq<nat>, edges: seq<MemberAssociation>): (r: seq<nat>)
    requires InBounds(list, edges)
    ensures InBounds(r, edges)
    ensures forall i :: i in r <==> i in list && !edges[i].inherited
    ensures Increasing(list) ==> Increasing(r)
    ensures |r| <= |list|
    decreases |list|
  {
    if list == [] then []
    else
      var n := |list| - 1;
      var rest := Unflagged(list[..n], edges);
      assert forall i :: i in list <==> i in list[..n] || i == list[n];
      if edges[list[n]].inherited then rest
      else
        BelowLast(list, rest);
        rest + [list[n]]
  }

  /** Whatever is drawn from the front of an increasing list lies below its last element. */
  lemma BelowLast(list: seq<nat>, rest: seq<nat>)
    requires list != [] && forall i :: i in rest ==> i in list[..|list| - 1]
    ensures Increasing(list) ==> forall j :: 0 <= j < |rest| ==> rest[j] < list[|list| - 1]
  {
    if Increasing(list) {
      forall j | 0 <= j < |rest| ensures rest[j] < list[|list| - 1] {
        assert rest[j] in rest;
        var k :| 0 <= k < |list| - 1 && list[..|list| - 1][k] == rest[j];
      }
    }
  }

  /** The edge objects a list of indices stands for. */
  function Resolve(list: seq<nat>, edges: seq<MemberAssociation>): (r: seq<MemberAssociation>)
    requires InBounds(list, edges)
    ensures |r| == |list| && forall j :: 0 <= j < |list| ==> r[j] == edges[list[j]]
  {
    seq(|list|, j requires 0 <= j < |list| => edges[list[j]])
  }

  /** The file lists are in bounds and each in creation order. */
  ghost predicate ListsValid(lists: seq<seq<nat>>, edges: seq<MemberAssociation>) {
    forall i :: 0 <= i < |lists| ==> InBounds(lists[i], edges) && Increasing(lists[i])
  }

  /** Each file gets the unflagged edges of its own list; nothing else about the file changes. */
  function Deduplicated(declarations: seq<FileDeclaration>, lists: seq<seq<nat>>, edges: seq<MemberAssociation>)
    : (r: seq<FileDeclaration>)
    requires |lists| == |declarations| && ListsValid(lists, edges)
    ensures |r| == |declarations|
    ensures forall i :: 0 <= i < |r| ==>
      r[i] == declarations[i].(memberAssociations := Some(Resolve(Unflagged(lists[i], edges), edges)))
  {
    seq(|declarations|, i requires 0 <= i < |declarations| =>
      declarations[i].(memberAssociations := Some(Resolve(Unflagged(lists[i], edges), edges))))
  }

  /** `deduplicateAssociations`: the `forEach` over the files. */
  method DeduplicateAssociations(declarations: seq<FileDeclaration>, lists: seq<seq<nat>>, edges: seq<MemberAssociation>)
    returns (r: seq<FileDeclaration>)
    requires |lists| == |declarations| && ListsValid(lists, edges)
    ensures r == Deduplicated(declarations, lists, edges)
  {
    r := [];
    for i := 0 to |declarations|
      invariant r == Deduplicated(declarations[..i], lists[..i], edges)
    {
      r := r + [declarations[i].(memberAssociations := Some(Resolve(Unflagged(lists[i], edges), edges)))];
    }
    assert declarations[..|declarations|] == declarations && lists[..|lists|] == lists;
  }

  // The whole pass

  /** After the scan, the map is ready for the inheritance pass. */
  lemma ScanReady(p: Pass, types: TypeMap)
    requires PassValid(p) && Coherent(p.edges, p.associations, types)
    ensures JsMap.Valid(p.associations) && Indexes(p.associations, p.edges) && KeysMatch(p.associations, p.edges)
    ensures forall j :: 0 <= j < |p.edges| ==> p.edges[j].b.typeId in types
  {
  }

  /** Indices into the edges stay valid when only flags change. */
  lemma ListsKeepValid(lists: seq<seq<nat>>, edges: seq<MemberAssociation>, flagged: seq<MemberAssociation>)
    requires ListsValid(lists, edges) && |flagged| == |edges|
    ensures ListsValid(lists, flagged)
  {
  }

  /**
   * `parseAssociations`, corrected: scan every file, drop the inherited
   * edges from the map, then keep on each file the unflagged edges it
   * created. Every file keeps its other fields and gets a list of
   * associations; no listed edge is flagged and every listed edge points at
   * a declared type.
   */
  function ParsedAssociations(declarations: seq<FileDeclaration>, ghost rank: string -> nat): (r: seq<FileDeclaration>)
    requires Ranked(TypeMapOf(declarations), rank)
    ensures |r| == |declarations|
    ensures forall i :: 0 <= i < |r| ==>
      r[i].memberAssociations.Some? && r[i] == declarations[i].(memberAssociations := r[i].memberAssociations)
    ensures ListedEdges(r, TypeMapOf(declarations))
    ensures OneWayListed(r)
    // each file keeps the edges of its own scanned list that the inheritance pass left unflagged
    ensures var types := TypeMapOf(declarations);
      var p := ScanFiles(declarations, types);
      var q := ProcessKeys(p.associations.keys, p.associations, p.edges, types, rank);
      ListsValid(p.lists, q.1) &&
      forall i :: 0 <= i < |r| ==> r[i].memberAssociations == Some(Resolve(Unflagged(p.lists[i], q.1), q.1))
  {
    var types := TypeMapOf(declarations);
    var p := ScanFiles(declarations, types);
    ScanReady(p, types);
    var q := ProcessKeys(p.associations.keys, p.associations, p.edges, types, rank);
    ListsKeepValid(p.lists, p.edges, q.1);
    DeduplicatedEdges(declarations, p.lists, p.edges, q.1, types);
    DeduplicatedOneWay(declarations, p.lists, p.edges, q.1);
    Deduplicated(declarations, p.lists, q.1)
  }

  /** Every file has a list of associations, none flagged, each pointing at a declared type. */
  ghost predicate ListedEdges(declarations: seq<FileDeclaration>, types: TypeMap) {
    forall i :: 0 <= i < |declarations| ==>
      declarations[i].memberAssociations.Some? &&
      forall e :: e in declarations[i].memberAssociations.value ==> !e.inherited && e.b.typeId in types
  }

  /** What survives deduplication is unflagged and, when every edge points at a declared type, points at one. */
  lemma DeduplicatedEdges(declarations: seq<FileDeclaration>, lists: seq<seq<nat>>, edges: seq<MemberAssociation>,
                          flagged: seq<MemberAssociation>, types: TypeMap)
    requires |lists| == |declarations| && ListsValid(lists, flagged) && FlagsOnly(edges, flagged)
    requires forall j :: 0 <= j < |edges| ==> edges[j].b.typeId in types
    ensures ListedEdges(Deduplicated(declarations, lists, flagged), types)
  {
    var r := Deduplicated(declarations, lists, flagged);
    forall i, e | 0 <= i < |declarations| && e in r[i].memberAssociations.value
      ensures !e.inherited && e.b.typeId in types
    {
      var kept := Unflagged(lists[i], flagged);
      var n :| 0 <= n < |kept| && Resolve(kept, flagged)[n] == e;
      assert kept[n] in kept;
      assert flagged[kept[n]].b == edges[kept[n]].b;
    }
  }

  /**
   * No two listed edges, in one file or in two, join the same two types in
   * opposite directions: a pair is drawn once, from whichever side the scan
   * met first.
   */
  ghost predicate OneWayListed(declarations: seq<FileDeclaration>) {
    forall i1, i2, e1, e2 :: 0 <= i1 < |declarations| && 0 <= i2 < |declarations|
      && declarations[i1].memberAssociations.Some? && declarations[i2].memberAssociations.Some?
      && e1 in declarations[i1].memberAssociations.value && e2 in declarations[i2].memberAssociations.value
      ==> !Opposite(e1, e2)
  }

  /** Deduplication only drops edges and flags keep their ends, so no opposite pair appears. */
  lemma DeduplicatedOneWay(declarations: seq<FileDeclaration>, lists: seq<seq<nat>>, edges: seq<MemberAssociation>,
                           flagged: seq<MemberAssociation>)
    requires |lists| == |declarations| && ListsValid(lists, flagged) && FlagsOnly(edges, flagged)
    requires OneWay(edges)
    ensures OneWayListed(Deduplicated(declarations, lists, flagged))
  {
    var r := Deduplicated(declarations, lists, flagged);
    forall i1, i2, e1, e2 | 0 <= i1 < |r| && 0 <= i2 < |r|
      && e1 in r[i1].memberAssociations.value && e2 in r[i2].memberAssociations.value
      ensures !Opposite(e1, e2)
    {
      var k1 := Unflagged(lists[i1], flagged);
      var k2 := Unflagged(lists[i2], flagged);
      var n1 :| 0 <= n1 < |k1| && Resolve(k1, flagged)[n1] == e1;
      var n2 :| 0 <= n2 < |k2| && Resolve(k2, flagged)[n2] == e2;
      assert k1[n1] in k1 && k2[n2] in k2;
      assert !Opposite(edges[k1[n1]], edges[k2[n2]]);
    }
  }

  /** `parseAssociations` as written: the first failing inheritance check ends it. */
  function ParseAssociationsAsWritten(declarations: seq<FileDeclaration>, ghost rank: string -> nat)
    : (r: Result<seq<FileDeclaration>>)
    requires Ranked(TypeMapOf(declarations), rank)
    ensures r.Ok? ==> r.value == ParsedAssociations(declarations, rank)
    ensures r.Err? ==> CheckError(r.error)
  {
    var types := TypeMapOf(declarations);
    var p := ScanFiles(declarations, types);
    ScanReady(p, types);
    match ProcessKeysAsWritten(p.associations.keys, p.associations, p.edges, types, rank)
    case Err(m) => Err(m)
    case Ok(q) =>
      ListsKeepValid(p.lists, p.edges, q.1);
      Ok(Deduplicated(declarations, p.lists, q.1))
  }

  /**
   * Which scanned edges the corrected pass drops from the file lists. Only
   * an edge stored under its own key whose source inherits its target
   * (`InheritsEdge`) is flagged; and every edge stored under its own key
   * whose source inherits its target through the last resolving bases
   * (`InheritsLast`) is flagged and its key deleted. An edge that is not
   * the one stored under its key, such as the first of two edges between
   * the same two types, is never flagged.
   */
  lemma ParsedDrops(declarations: seq<FileDeclaration>, rank: string -> nat, j: nat)
    requires Ranked(TypeMapOf(declarations), rank) && PlainIds(TypeMapOf(declarations))
    ensures var types := TypeMapOf(declarations);
      var p := ScanFiles(declarations, types);
      var q := ProcessKeys(p.associations.keys, p.associations, p.edges, types, rank);
      j < |p.edges| ==>
        var key := EdgeKey(p.edges[j].a.typeId, p.edges[j].b.typeId);
        var stored := key in p.associations.at && p.associations.at[key] == j;
        (q.1[j].inherited ==> stored && InheritsEdge(types, rank, p.associations, p.edges[j].a.typeId, p.edges[j].b.typeId))
        && (stored && InheritsLast(types, rank, p.associations, p.edges[j].a.typeId, p.edges[j].b.typeId)
            ==> q.1[j].inherited && key !in q.0.at)
  {
    var types := TypeMapOf(declarations);
    var p := ScanFiles(declarations, types);
    ScanReady(p, types);
    var q := ProcessKeys(p.associations.keys, p.associations, p.edges, types, rank);
    if j < |p.edges| {
      var e := p.edges[j];
      var key := EdgeKey(e.a.typeId, e.b.typeId);
      ProcessFlagsSound(p.associations.keys, p.associations, p.edges, types, rank);
      assert q.1[j].inherited ==> q.1[j] != p.edges[j];
      if key in p.associations.at && p.associations.at[key] == j {
        ProcessKeysExact(p.associations.keys, p.associations, p.edges, types, rank, key);
      }
    }
  }

  /** Under single inheritance the pass drops an edge exactly when it is stored under its own key and inherited. */
  lemma ParsedDropsSingle(declarations: seq<FileDeclaration>, rank: string -> nat, j: nat)
    requires Ranked(TypeMapOf(declarations), rank) && PlainIds(TypeMapOf(declarations))
    requires SingleInheritance(TypeMapOf(declarations))
    ensures var types := TypeMapOf(declarations);
      var p := ScanFiles(declarations, types);
      var q := ProcessKeys(p.associations.keys, p.associations, p.edges, types, rank);
      j < |p.edges| ==>
        var key := EdgeKey(p.edges[j].a.typeId, p.edges[j].b.typeId);
        (q.1[j].inherited <==> key in p.associations.at && p.associations.at[key] == j
                               && InheritsEdge(types, rank, p.associations, p.edges[j].a.typeId, p.edges[j].b.typeId))
  {
    var types := TypeMapOf(declarations);
    var p := ScanFiles(declarations, types);
    ParsedDrops(declarations, rank, j);
    if j < |p.edges| {
      CheckLastDecides(p.edges[j].a.typeId, p.edges[j].b.typeId, p.associations, p.edges, types, rank);
      SingleInheritanceExact(p.edges[j].a.typeId, p.edges[j].b.typeId, p.associations, p.edges, types, rank);
    }
  }

  /** When `parseAssociations` as written succeeds, every visit of the inheritance pass got through. */
  lemma ParseOkSound(declarations: seq<FileDeclaration>, rank: string -> nat)
    requires Ranked(TypeMapOf(declarations), rank)
    ensures var types := TypeMapOf(declarations);
      var p := ScanFiles(declarations, types);
      ParseAssociationsAsWritten(declarations, rank).Ok? ==> VisitsOk(p.associations.keys, p.associations, p.edges, types, rank)
  {
    var types := TypeMapOf(declarations);
    var p := ScanFiles(declarations, types);
    ScanReady(p, types);
    assert ParseAssociationsAsWritten(declarations, rank).Ok?
        == ProcessKeysAsWritten(p.associations.keys, p.associations, p.edges, types, rank).Ok?;
    PassOkSound(p.associations.keys, p.associations, p.edges, types, rank);
  }

  /** When every visit of the inheritance pass gets through, `parseAssociations` as written succeeds. */
  lemma ParseOkComplete(declarations: seq<FileDeclaration>, rank: string -> nat)
    requires Ranked(TypeMapOf(declarations), rank)
    requires var types := TypeMapOf(declarations);
      var p := ScanFiles(declarations, types);
      VisitsOk(p.associations.keys, p.associations, p.edges, types, rank)
    ensures ParseAssociationsAsWritten(declarations, rank).Ok?
  {
    var types := TypeMapOf(declarations);
    var p := ScanFiles(declarations, types);
    ScanReady(p, types);
    PassOkComplete(p.associations.keys, p.associations, p.edges, types, rank);
    assert ParseAssociationsAsWritten(declarations, rank).Ok?
        == ProcessKeysAsWritten(p.associations.keys, p.associations, p.edges, types, rank).Ok?;
  }

  /**
   * `parseAssociations` as written fails on any project in which a type
   * alias or an enum owns an edge: the check reads the missing
   * `heritageClauses` of the edge's source.
   */
  lemma AliasOwnerCrashes(declarations: seq<FileDeclaration>, rank: string -> nat, j: nat)
    requires Ranked(TypeMapOf(declarations), rank) && PlainIds(TypeMapOf(declarations))
    requires var types := TypeMapOf(declarations);
      var p := ScanFiles(declarations, types);
      j < |p.edges| && p.edges[j].a.typeId in types && types[p.edges[j].a.typeId].heritage.None?
    ensures ParseAssociationsAsWritten(declarations, rank).Err?
  {
    var types := TypeMapOf(declarations);
    var p := ScanFiles(declarations, types);
    ScanReady(p, types);
    var e := p.edges[j];
    var key := EdgeKey(e.a.typeId, e.b.typeId);
    var f := p.edges[p.associations.at[key]];
    EdgeKeySplits(e.a.typeId, e.b.typeId, f.a.typeId, f.b.typeId);
    AliasOwnerFails(p.associations.keys, p.associations, p.edges, types, rank, key);
  }

  /**
   * The corrected pass keeps every edge whose source has no heritage
   * clauses, a type alias's edge among them: it is never flagged, so it
   * stays on every list that has it.
   */
  lemma AliasOwnerKept(declarations: seq<FileDeclaration>, rank: string -> nat, j: nat)
    requires Ranked(TypeMapOf(declarations), rank) && PlainIds(TypeMapOf(declarations))
    ensures var types := TypeMapOf(declarations);
      var p := ScanFiles(declarations, types);
      var q := ProcessKeys(p.associations.keys, p.associations, p.edges, types, rank);
      j < |p.edges| && Heritage(types, p.edges[j].a.typeId) == [] ==>
        !q.1[j].inherited && ListsValid(p.lists, q.1)
        && forall i :: 0 <= i < |p.lists| ==> (j in Unflagged(p.lists[i], q.1) <==> j in p.lists[i])
  {
    var types := TypeMapOf(declarations);
    var p := ScanFiles(declarations, types);
    var q := ProcessKeys(p.associations.keys, p.associations, p.edges, types, rank);
    ParsedDrops(declarations, rank, j);
    ListsKeepValid(p.lists, p.edges, q.1);
  }

  /**
   * `parseAssociations`, corrected. The source stores the raw lists on the
   * files before the inheritance pass and filters them after it; both
   * steps see the same edge objects, so the model keeps the lists as
   * indices and resolves them once, at the end.
   */
  method ParseAssociations(declarations: seq<FileDeclaration>, ghost rank: string -> nat) returns (r: seq<FileDeclaration>)
    requires Ranked(TypeMapOf(declarations), rank)
    ensures r == ParsedAssociations(declarations, rank)
  {
    var types := CreateTypeMap(declarations);
    var p := ScanDeclarations(declarations, types);
    ScanReady(p, types);
    var remaining, edges := ProcessAssociationInheritance(p.associations, p.edges, types, rank);
    ListsKeepValid(p.lists, p.edges, edges);
    r := DeduplicateAssociations(declarations, p.lists, edges);
  }
}
