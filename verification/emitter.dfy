/**
 * The emitter: it drives one notation over all declarations, file by file,
 * and joins the fragments into one document. Also the XML encoding of
 * names and the post-processor that turns the labels of a rendered SVG
 * into links to the declaring source files.
 */
module Emitter {
  import opened Wrappers
  import opened JsString
  import opened JsArray
  import opened Model
  import opened Template
  import MermaidTemplate
  import NomnomlTemplate

  /** An emitter is bound to one notation. */
  datatype Emitter = Emitter(template: Template)

  /** A class is drawn from its name, properties and methods alone, as the bound notation's class box. */
  function EmitSingleClass(e: Emitter, c: Clazz): (r: string)
    ensures r == e.template.classBox(c.name, c.properties, c.methods)
  {
    e.template.classBox(c.name, c.properties, c.methods)
  }

  /** An interface is drawn from its name, properties and methods alone, as the interface box. */
  function EmitSingleInterface(e: Emitter, i: Interface): (r: string)
    ensures r == e.template.interfaceBox(i.name, i.properties, i.methods)
  {
    e.template.interfaceBox(i.name, i.properties, i.methods)
  }

  /** A type alias is drawn from its name, properties and methods, as the type box. */
  function EmitSingleType(e: Emitter, t: TypeAlias): (r: string)
    ensures r == e.template.typeBox(t.name, t.properties, t.methods)
  {
    e.template.typeBox(t.name, t.properties, t.methods)
  }

  /** An enum is drawn from its name and items, as the enum box. */
  function EmitSingleEnum(e: Emitter, en: Enum): (r: string)
    ensures r == e.template.enumBox(en.name, en.items)
  {
    e.template.enumBox(en.name, en.items)
  }

  /** One clause: `Extends` is drawn as an extension edge, every other kind as an implementation edge. */
  function EmitHeritageClause(e: Emitter, h: HeritageClause): (r: string)
    ensures h.kind == Extends ==> r == e.template.extendsEdge(h.clause, h.className)
    ensures h.kind != Extends ==> r == e.template.implementsEdge(h.clause, h.className)
  {
    if h.kind == Extends then e.template.extendsEdge(h.clause, h.className)
    else e.template.implementsEdge(h.clause, h.className)
  }

  /** `emitHeritageClauses`: one edge per clause, in clause order, dispatched on the clause kind. */
  function EmitHeritageClauses(e: Emitter, clauses: seq<HeritageClause>): (r: seq<string>)
    ensures |r| == |clauses|
    ensures forall i :: 0 <= i < |clauses| ==>
      r[i] == (if clauses[i].kind == Extends then e.template.extendsEdge(clauses[i].clause, clauses[i].className)
               else e.template.implementsEdge(clauses[i].clause, clauses[i].className))
    decreases |clauses|
  {
    if clauses == [] then [] else [EmitHeritageClause(e, clauses[0])] + EmitHeritageClauses(e, clauses[1..])
  }

  /** The associations rendered one by one, in order. */
  function RenderAssociations(e: Emitter, associations: seq<MemberAssociation>): (r: seq<string>)
    ensures |r| == |associations|
    ensures forall i :: 0 <= i < |associations| ==> r[i] == e.template.memberAssociation(associations[i])
    decreases |associations|
  {
    if associations == [] then []
    else [e.template.memberAssociation(associations[0])] + RenderAssociations(e, associations[1..])
  }

  /**
   * `emitMemberAssociations` with the renderer called as a method of its
   * template: nothing for a file without an association list, otherwise one
   * fragment per association, in order.
   */
  function EmitMemberAssociations(e: Emitter, associations: Option<seq<MemberAssociation>>): (r: seq<string>)
    ensures associations.None? ==> r == []
    ensures associations.Some? ==> r == RenderAssociations(e, associations.value)
  {
    match associations
    case None => []
    case Some(list) => RenderAssociations(e, list)
  }

  const UnboundReceiverError: string := "TypeError: cannot read 'plainClassOrInterface' of undefined"

  /**
   * `emitMemberAssociations` as written: the renderer is passed to `map` as a
   * detached function, so a renderer that reaches its other members through
   * `this` throws on the first association it is given.
   */
  function EmitMemberAssociationsAsWritten(e: Emitter, associations: Option<seq<MemberAssociation>>): (r: Result<seq<string>>)
    ensures r.Err? <==> e.template.associationReadsReceiver && associations.Some? && associations.value != []
    ensures r.Ok? ==> r.value == EmitMemberAssociations(e, associations)
  {
    match associations
    case None => Ok([])
    case Some(list) =>
      if list != [] && e.template.associationReadsReceiver then Err(UnboundReceiverError)
      else Ok(RenderAssociations(e, list))
  }

  /**
   * The fragments of one file, in this order: one box per class, interface,
   * enum and type, in declaration order, then the heritage edges of each
   * clause list, then the associations.
   */
  function FileFragments(e: Emitter, d: FileDeclaration): (r: seq<string>)
    ensures var boxes := |d.classes| + |d.interfaces| + |d.enums| + |d.types|;
      boxes <= |r|
      && r[boxes..] == HeritageFragments(e, d.heritageClauses) + EmitMemberAssociations(e, d.memberAssociations)
    ensures forall i :: 0 <= i < |d.classes| ==> r[i] == EmitSingleClass(e, d.classes[i])
    ensures forall i :: 0 <= i < |d.interfaces| ==> r[|d.classes| + i] == EmitSingleInterface(e, d.interfaces[i])
    ensures forall i :: 0 <= i < |d.enums| ==>
      r[|d.classes| + |d.interfaces| + i] == EmitSingleEnum(e, d.enums[i])
    ensures forall i :: 0 <= i < |d.types| ==>
      r[|d.classes| + |d.interfaces| + |d.enums| + i] == EmitSingleType(e, d.types[i])
  {
    var boxes := Boxes(e, d);
    var rest := HeritageFragments(e, d.heritageClauses) + EmitMemberAssociations(e, d.memberAssociations);
    assert (boxes + rest)[|boxes|..] == rest;
    boxes + rest
  }

  /** The boxes of one file: its classes, then its interfaces, enums and types. */
  function Boxes(e: Emitter, d: FileDeclaration): (r: seq<string>)
    ensures |r| == |d.classes| + |d.interfaces| + |d.enums| + |d.types|
    ensures forall i :: 0 <= i < |d.classes| ==> r[i] == EmitSingleClass(e, d.classes[i])
    ensures forall i :: 0 <= i < |d.interfaces| ==> r[|d.classes| + i] == EmitSingleInterface(e, d.interfaces[i])
    ensures forall i :: 0 <= i < |d.enums| ==>
      r[|d.classes| + |d.interfaces| + i] == EmitSingleEnum(e, d.enums[i])
    ensures forall i :: 0 <= i < |d.types| ==>
      r[|d.classes| + |d.interfaces| + |d.enums| + i] == EmitSingleType(e, d.types[i])
  {
    var classes := seq(|d.classes|, i requires 0 <= i < |d.classes| => EmitSingleClass(e, d.classes[i]));
    var interfaces := seq(|d.interfaces|, i requires 0 <= i < |d.interfaces| => EmitSingleInterface(e, d.interfaces[i]));
    var enums := seq(|d.enums|, i requires 0 <= i < |d.enums| => EmitSingleEnum(e, d.enums[i]));
    var types := seq(|d.types|, i requires 0 <= i < |d.types| => EmitSingleType(e, d.types[i]));
    var front := classes + interfaces;
    var back := enums + types;
    assert forall i :: 0 <= i < |interfaces| ==> front[|classes| + i] == interfaces[i];
    assert forall i :: 0 <= i < |types| ==> back[|enums| + i] == types[i];
    front + back
  }

  /** The heritage edges of a file: each clause list's edges, list after list. */
  function HeritageFragments(e: Emitter, lists: seq<seq<HeritageClause>>): seq<string> {
    Flat(EdgeLists(e, lists))
  }

  function EdgeLists(e: Emitter, lists: seq<seq<HeritageClause>>): (r: seq<seq<string>>)
    ensures |r| == |lists| && forall i :: 0 <= i < |lists| ==> |r[i]| == |lists[i]|
  {
    seq(|lists|, i requires 0 <= i < |lists| => EmitHeritageClauses(e, lists[i]))
  }

  /** The number of associations a file renders. */
  function AssociationCount(d: FileDeclaration): nat {
    match d.memberAssociations
    case None => 0
    case Some(list) => |list|
  }

  /**
   * One fragment per entity: a file yields exactly as many fragments as it
   * has classes, interfaces, enums, types, heritage clauses and associations.
   */
  lemma FileFragmentCount(e: Emitter, d: FileDeclaration)
    ensures |FileFragments(e, d)| == |d.classes| + |d.interfaces| + |d.enums| + |d.types|
      + TotalLength(d.heritageClauses) + AssociationCount(d)
  {
    var edges := EdgeLists(e, d.heritageClauses);
    FlatLength(edges);
    SameTotalLength(edges, d.heritageClauses);
    var boxes := |d.classes| + |d.interfaces| + |d.enums| + |d.types|;
    var r := FileFragments(e, d);
    assert |r[boxes..]| == |HeritageFragments(e, d.heritageClauses)| + |EmitMemberAssociations(e, d.memberAssociations)|;
    assert |EmitMemberAssociations(e, d.memberAssociations)| == AssociationCount(d);
  }

  lemma {:induction false} SameTotalLength<S, T>(a: seq<seq<S>>, b: seq<seq<T>>)
    requires |a| == |b| && forall i :: 0 <= i < |a| ==> |a[i]| == |b[i]|
    ensures TotalLength(a) == TotalLength(b)
    decreases |a|
  {
    if a != [] {
      SameTotalLength(a[1..], b[1..]);
    }
  }

  /** All fragments of all files, file by file. */
  function Fragments(e: Emitter, declarations: seq<FileDeclaration>): seq<string> {
    Flat(seq(|declarations|, i requires 0 <= i < |declarations| => FileFragments(e, declarations[i])))
  }

  /** Files are emitted in order: the fragments of two groups of files are those of the first, then the second. */
  lemma FragmentsAppend(e: Emitter, d1: seq<FileDeclaration>, d2: seq<FileDeclaration>)
    ensures Fragments(e, d1 + d2) == Fragments(e, d1) + Fragments(e, d2)
  {
    var d := d1 + d2;
    var all := seq(|d|, i requires 0 <= i < |d| => FileFragments(e, d[i]));
    var s1 := seq(|d1|, i requires 0 <= i < |d1| => FileFragments(e, d1[i]));
    var s2 := seq(|d2|, i requires 0 <= i < |d2| => FileFragments(e, d2[i]));
    assert forall i :: 0 <= i < |d1| ==> d[i] == d1[i];
    assert forall i :: 0 <= i < |d2| ==> d[|d1| + i] == d2[i];
    assert all == s1 + s2;
    FlatAppend(s1, s2);
  }

  /** The first file's fragments come first. */
  lemma FragmentsCons(e: Emitter, declarations: seq<FileDeclaration>)
    requires declarations != []
    ensures Fragments(e, declarations) == FileFragments(e, declarations[0]) + Fragments(e, declarations[1..])
  {
    var all := seq(|declarations|, i requires 0 <= i < |declarations| => FileFragments(e, declarations[i]));
    var tail := seq(|declarations[1..]|, i requires 0 <= i < |declarations[1..]| => FileFragments(e, declarations[1..][i]));
    assert all[1..] == tail;
  }

  const ErrorMessage: string := "Could not process any class / interface / enum / type"

  /** The fragment that stands in for an empty document. */
  const Placeholder: string := "[" + ErrorMessage + "]"

  /**
   * `emit`: the fragments joined by newlines; with no fragment at all, the
   * placeholder alone.
   */
  function Emit(declarations: seq<FileDeclaration>, e: Emitter): (r: string)
    ensures Fragments(e, declarations) == [] ==> r == Placeholder
    ensures Fragments(e, declarations) != [] ==> r == Join(Fragments(e, declarations), "\n")
  {
    var entities := Fragments(e, declarations);
    var entities' := if |entities| == 0 then [Placeholder] else entities;
    Join(entities', "\n")
  }

  /**
   * The document reads back line by line: when no fragment holds a newline,
   * splitting the document at newlines gives the fragments back, in order.
   */
  lemma EmitReadsBack(declarations: seq<FileDeclaration>, e: Emitter)
    requires Fragments(e, declarations) != []
    requires forall i :: 0 <= i < |Fragments(e, declarations)| ==> '\n' !in Fragments(e, declarations)[i]
    ensures Split(Emit(declarations, e), '\n') == Fragments(e, declarations)
  {
    SplitJoin(Fragments(e, declarations), '\n');
  }

  /** A document made of non-empty fragments is never empty. */
  lemma {:induction false} EmitNeverEmpty(declarations: seq<FileDeclaration>, e: Emitter)
    requires forall i :: 0 <= i < |Fragments(e, declarations)| ==> Fragments(e, declarations)[i] != ""
    ensures Emit(declarations, e) != ""
  {
    var entities := Fragments(e, declarations);
    if entities != [] {
      assert |Join(entities, "\n")| >= |entities[0]|;
    }
  }

  /** A file with nothing in it and no association list contributes no fragment. */
  lemma EmptyFileContributesNothing(e: Emitter, fileName: string)
    ensures FileFragments(e, FileDeclaration(fileName, [], [], [], [], [], None)) == []
  {
  }

  /** So a set of empty files is emitted as the placeholder. */
  lemma {:induction false} EmptyFilesGivePlaceholder(e: Emitter, declarations: seq<FileDeclaration>)
    requires forall i :: 0 <= i < |declarations| ==> FileFragments(e, declarations[i]) == []
    ensures Fragments(e, declarations) == []
    ensures Emit(declarations, e) == Placeholder
    decreases |declarations|
  {
    if declarations != [] {
      EmptyFilesGivePlaceholder(e, declarations[1..]);
      FragmentsCons(e, declarations);
    }
  }

  /** `emit` as written: it throws as soon as a file's association list makes the detached renderer throw. */
  function EmitAsWritten(declarations: seq<FileDeclaration>, e: Emitter): (r: Result<string>)
    ensures r.Ok? ==> r.value == Emit(declarations, e)
    ensures r.Err? <==> exists i :: 0 <= i < |declarations| && EmitMemberAssociationsAsWritten(e, declarations[i].memberAssociations).Err?
  {
    if exists i :: 0 <= i < |declarations| && EmitMemberAssociationsAsWritten(e, declarations[i].memberAssociations).Err?
    then Err(UnboundReceiverError)
    else Ok(Emit(declarations, e))
  }

  /** Through nomnoml, whose renderer needs no receiver, the as-written emission always succeeds. */
  lemma NomnomlEmitSucceeds(declarations: seq<FileDeclaration>, settings: TemplateSettings)
    ensures EmitAsWritten(declarations, Emitter(NomnomlTemplate.Nomnoml(settings)))
         == Ok(Emit(declarations, Emitter(NomnomlTemplate.Nomnoml(settings))))
  {
  }

  /** Through Mermaid, the as-written emission throws once any file has an association. */
  lemma MermaidEmitThrows(declarations: seq<FileDeclaration>, settings: TemplateSettings, i: nat)
    requires i < |declarations| && declarations[i].memberAssociations.Some? && declarations[i].memberAssociations.value != []
    ensures EmitAsWritten(declarations, Emitter(MermaidTemplate.Mermaid(settings))).Err?
  {
    assert EmitMemberAssociationsAsWritten(Emitter(MermaidTemplate.Mermaid(settings)), declarations[i].memberAssociations).Err?;
  }

  /** A file holding nothing but associations renders exactly its associations. */
  lemma AssociationsOnlyFile(e: Emitter, d: FileDeclaration)
    requires d.classes == [] && d.interfaces == [] && d.enums == [] && d.types == [] && d.heritageClauses == []
    ensures Fragments(e, [d]) == EmitMemberAssociations(e, d.memberAssociations)
  {
    FragmentsCons(e, [d]);
    assert [d][1..] == [];
    var edges := seq(|d.heritageClauses|, i requires 0 <= i < |d.heritageClauses| => EmitHeritageClauses(e, d.heritageClauses[i]));
    assert edges == [];
  }

  /** The demo's `Ninja` holding a `Weapon`, as the association pass records it. */
  function NinjaWeapon(): MemberAssociation {
    MemberAssociation(AssociationEnd("\"demo/ninja\".Ninja", "Ninja", None),
                      AssociationEnd("\"demo/interfaces\".Weapon", "Weapon", None), false)
  }

  function NinjaFile(): FileDeclaration {
    FileDeclaration("demo/ninja.ts", [], [], [], [], [], Some([NinjaWeapon()]))
  }

  /**
   * With the renderer bound, the Mermaid document holds the line
   * `Ninja  --  Weapon`; as written, the same emission throws instead.
   */
  lemma NinjaWeaponAssociation(settings: TemplateSettings)
    ensures Fragments(Emitter(MermaidTemplate.Mermaid(settings)), [NinjaFile()]) == ["Ninja  --  Weapon"]
    ensures EmitAsWritten([NinjaFile()], Emitter(MermaidTemplate.Mermaid(settings))).Err?
  {
    var e := Emitter(MermaidTemplate.Mermaid(settings));
    var edge := NinjaWeapon();
    NinjaWeaponText();
    assert e.template.memberAssociation(edge) == MermaidTemplate.MemberAssociation(edge);
    assert [edge][0] == edge && [edge][1..] == [];
    assert RenderAssociations(e, [edge]) == [e.template.memberAssociation(edge)] + RenderAssociations(e, []);
    AssociationsOnlyFile(e, NinjaFile());
    MermaidEmitThrows([NinjaFile()], settings, 0);
  }

  lemma NinjaWeaponText()
    ensures MermaidTemplate.MemberAssociation(NinjaWeapon()) == "Ninja  --  Weapon"
  {
    NinjaNamesPlain();
    PlainAssociationText(NinjaWeapon());
  }

  /** The demo's two names hold no angle brackets, and joined by the connector they read `Ninja  --  Weapon`. */
  lemma NinjaNamesPlain()
    ensures '<' !in "Ninja" && '>' !in "Ninja" && '<' !in "Weapon" && '>' !in "Weapon"
    ensures "Ninja" + "  --  " + "Weapon" == "Ninja  --  Weapon"
  {
  }

  lemma PlainAssociationText(edge: MemberAssociation)
    requires !Truthy(edge.a.multiplicity) && !Truthy(edge.b.multiplicity)
    requires '<' !in edge.a.name && '>' !in edge.a.name && '<' !in edge.b.name && '>' !in edge.b.name
    ensures MermaidTemplate.MemberAssociation(edge) == edge.a.name + "  --  " + edge.b.name
  {
    MermaidTemplate.UnlabelledAssociation(edge);
    MermaidTemplate.EscapeMermaidIdentity(edge.a.name);
    MermaidTemplate.EscapeMermaidIdentity(edge.b.name);
  }

  // XML encoding

  /** The entity for each of the five characters XML 1.0 predefines (section 4.6), the character itself otherwise. */
  function EncodeChar(c: char): string {
    if c == '&' then "&amp;"
    else if c == '<' then "&lt;"
    else if c == '>' then "&gt;"
    else if c == '"' then "&quot;"
    else if c == '\'' then "&apos;"
    else [c]
  }

  /**
   * `xmlEncode`: five global replacements, `&` first so that no entity is
   * encoded twice. The chain is the same as encoding each character once.
   */
  function XmlEncode(s: string): (r: string)
    ensures r == EncodeEach(s)
  {
    StagesAreCharMap(s);
    ReplaceAll(ReplaceAll(ReplaceAll(ReplaceAll(ReplaceAll(s, '&', "&amp;"), '<', "&lt;"), '>', "&gt;"), '"', "&quot;"), '\'', "&apos;")
  }

  /** The reference encoding: every character replaced by its entity in one pass. */
  function EncodeEach(s: string): string
    decreases |s|
  {
    if s == [] then "" else EncodeChar(s[0]) + EncodeEach(s[1..])
  }

  lemma ReplaceAllSingle(x: char, c: char, rep: string)
    ensures ReplaceAll([x], c, rep) == (if x == c then rep else [x])
  {
    assert [x][1..] == [];
  }

  /** An entity that no later replacement touches survives to the end. */
  lemma {:induction false} EntitySurvives(s: string, entity: string, k: nat)
    requires k <= 5 && Stage(s, k) == entity
    requires forall j :: k <= j < 5 ==> Special(j) !in entity
    ensures Stage(s, 5) == entity
    decreases 5 - k
  {
    if k < 5 {
      ReplaceAllAbsent(entity, Special(k), SpecialEntity(k));
      EntitySurvives(s, entity, k + 1);
    }
  }

  /** The five replacements in their order. */
  function Special(k: nat): char {
    if k == 0 then '&' else if k == 1 then '<' else if k == 2 then '>' else if k == 3 then '"' else '\''
  }

  function SpecialEntity(k: nat): string {
    if k == 0 then "&amp;" else if k == 1 then "&lt;" else if k == 2 then "&gt;" else if k == 3 then "&quot;" else "&apos;"
  }

  /** The text after the first `k` replacements. */
  function Stage(s: string, k: nat): string
    decreases k
  {
    if k == 0 then s else ReplaceAll(Stage(s, k - 1), Special(k - 1), SpecialEntity(k - 1))
  }

  lemma XmlEncodeStaged(s: string)
    ensures XmlEncode(s) == Stage(s, 5)
  {
  }

  /** A character no replacement touches passes through all five. */
  lemma {:induction false} PlainThrough(c: char, k: nat)
    requires k <= 5
    requires forall j :: 0 <= j < 5 ==> c != Special(j)
    ensures Stage([c], k) == [c]
    decreases k
  {
    if k > 0 {
      PlainThrough(c, k - 1);
      ReplaceAllSingle(c, Special(k - 1), SpecialEntity(k - 1));
    }
  }

  /** A special character passes untouched until its own replacement. */
  lemma {:induction false} SpecialThrough(c: char, k: nat, own: nat)
    requires own < 5 && c == Special(own) && k <= own
    requires forall j :: 0 <= j < 5 && j != own ==> c != Special(j)
    ensures Stage([c], k) == [c]
    decreases k
  {
    if k > 0 {
      SpecialThrough(c, k - 1, own);
      ReplaceAllSingle(c, Special(k - 1), SpecialEntity(k - 1));
    }
  }

  /** No entity holds a character that a later replacement looks for. */
  lemma EntityFree(own: nat, j: nat)
    requires own < j < 5
    ensures Special(j) !in SpecialEntity(own)
  {
  }

  /** Each special character becomes its entity at its own replacement and stays so. */
  lemma SpecialEncoded(own: nat)
    requires own < 5
    ensures Stage([Special(own)], 5) == SpecialEntity(own)
  {
    var c := Special(own);
    assert forall j :: 0 <= j < 5 && j != own ==> c != Special(j);
    SpecialThrough(c, own, own);
    ReplaceAllSingle(c, Special(own), SpecialEntity(own));
    assert Stage([c], own + 1) == SpecialEntity(own);
    forall j | own + 1 <= j < 5
      ensures Special(j) !in SpecialEntity(own)
    {
      EntityFree(own, j);
    }
    EntitySurvives([c], SpecialEntity(own), own + 1);
  }

  /** The five replacements turn a single character into its entity, or leave it as it is. */
  lemma StageChar(c: char)
    ensures Stage([c], 5) == EncodeChar(c)
  {
    var own := if c == '&' then 0 else if c == '<' then 1 else if c == '>' then 2 else if c == '"' then 3 else if c == '\'' then 4 else 5;
    if own == 5 {
      PlainThrough(c, 5);
    } else {
      assert c == Special(own);
      SpecialEncoded(own);
    }
  }

  lemma {:induction false} StageAppend(a: string, b: string, k: nat)
    ensures Stage(a + b, k) == Stage(a, k) + Stage(b, k)
    decreases k
  {
    if k > 0 {
      StageAppend(a, b, k - 1);
      StageReplaces(a, b, Stage(a, k - 1), Stage(b, k - 1), k);
    }
  }

  /** One more replacement distributes over a concatenation that the earlier ones did. */
  lemma StageReplaces(a: string, b: string, x: string, y: string, k: nat)
    requires k > 0 && x == Stage(a, k - 1) && y == Stage(b, k - 1) && Stage(a + b, k - 1) == x + y
    ensures Stage(a + b, k) == Stage(a, k) + Stage(b, k)
  {
    ReplaceAllAppend(x, y, Special(k - 1), SpecialEntity(k - 1));
  }

  lemma XmlEncodeAppend(a: string, b: string)
    ensures XmlEncode(a + b) == XmlEncode(a) + XmlEncode(b)
  {
    XmlEncodeStaged(a + b);
    XmlEncodeStaged(a);
    XmlEncodeStaged(b);
    StageAppend(a, b, 5);
  }

  /** The five stages, one after the other, encode each character once. */
  lemma {:induction false} StagesAreCharMap(s: string)
    ensures Stage(s, 5) == EncodeEach(s)
    decreases |s|
  {
    if s != [] {
      assert s == [s[0]] + s[1..];
      StageAppend([s[0]], s[1..], 5);
      StageChar(s[0]);
      StagesAreCharMap(s[1..]);
    }
  }

  /** The encoding leaves none of `<`, `>`, `"` or `'` in its output. */
  lemma XmlEncodeClean(s: string)
    ensures '<' !in XmlEncode(s) && '>' !in XmlEncode(s) && '"' !in XmlEncode(s) && '\'' !in XmlEncode(s)
  {
    EncodeEachClean(s);
  }

  lemma EncodeCharClean(c: char)
    ensures '<' !in EncodeChar(c) && '>' !in EncodeChar(c) && '"' !in EncodeChar(c) && '\'' !in EncodeChar(c)
  {
  }

  lemma {:induction false} EncodeEachClean(s: string)
    ensures '<' !in EncodeEach(s) && '>' !in EncodeEach(s) && '"' !in EncodeEach(s) && '\'' !in EncodeEach(s)
    decreases |s|
  {
    if s != [] {
      EncodeEachClean(s[1..]);
      EncodeCharClean(s[0]);
      assert EncodeEach(s) == EncodeChar(s[0]) + EncodeEach(s[1..]);
    }
  }

  /** Decoding of the five predefined entities, the inverse of `XmlEncode`. */
  function XmlDecode(r: string): string
    decreases |r|
  {
    if r == [] then ""
    else if StartsWith(r, "&amp;") then "&" + XmlDecode(r[5..])
    else if StartsWith(r, "&lt;") then "<" + XmlDecode(r[4..])
    else if StartsWith(r, "&gt;") then ">" + XmlDecode(r[4..])
    else if StartsWith(r, "&quot;") then "\"" + XmlDecode(r[6..])
    else if StartsWith(r, "&apos;") then "'" + XmlDecode(r[6..])
    else [r[0]] + XmlDecode(r[1..])
  }

  /** The encoding loses nothing: decoding it gives the original text. */
  lemma {:induction false} XmlRoundTrip(s: string)
    ensures XmlDecode(XmlEncode(s)) == s
  {
    DecodeEncodeEach(s);
  }

  lemma DecodeAmp(rest: string)
    ensures XmlDecode("&amp;" + rest) == "&" + XmlDecode(rest)
  {
    var r := "&amp;" + rest;
    assert r[..5] == "&amp;" && r[5..] == rest;
  }

  lemma DecodeLt(rest: string)
    ensures XmlDecode("&lt;" + rest) == "<" + XmlDecode(rest)
  {
    var r := "&lt;" + rest;
    assert !StartsWith(r, "&amp;") by { assert r[1] == 'l'; }
    assert r[..4] == "&lt;" && r[4..] == rest;
  }

  lemma DecodeGt(rest: string)
    ensures XmlDecode("&gt;" + rest) == ">" + XmlDecode(rest)
  {
    var r := "&gt;" + rest;
    assert !StartsWith(r, "&amp;") && !StartsWith(r, "&lt;") by { assert r[1] == 'g'; }
    assert r[..4] == "&gt;" && r[4..] == rest;
  }

  lemma DecodeQuot(rest: string)
    ensures XmlDecode("&quot;" + rest) == "\"" + XmlDecode(rest)
  {
    var r := "&quot;" + rest;
    assert !StartsWith(r, "&amp;") && !StartsWith(r, "&lt;") && !StartsWith(r, "&gt;") by { assert r[1] == 'q'; }
    assert r[..6] == "&quot;" && r[6..] == rest;
  }

  lemma DecodeApos(rest: string)
    ensures XmlDecode("&apos;" + rest) == "'" + XmlDecode(rest)
  {
    var r := "&apos;" + rest;
    assert !StartsWith(r, "&amp;") by { assert r[2] == 'p'; }
    assert !StartsWith(r, "&lt;") && !StartsWith(r, "&gt;") && !StartsWith(r, "&quot;") by { assert r[1] == 'a'; }
    assert r[..6] == "&apos;" && r[6..] == rest;
  }

  lemma DecodePlain(c: char, rest: string)
    requires c != '&'
    ensures XmlDecode([c] + rest) == [c] + XmlDecode(rest)
  {
    var r := [c] + rest;
    assert r[0] == c && r[1..] == rest;
    assert !StartsWith(r, "&amp;") && !StartsWith(r, "&lt;") && !StartsWith(r, "&gt;") by {
      assert r[0] != '&';
    }
    assert !StartsWith(r, "&quot;") && !StartsWith(r, "&apos;") by {
      assert r[0] != '&';
    }
  }

  lemma {:induction false} DecodeEncodeEach(s: string)
    ensures XmlDecode(EncodeEach(s)) == s
    decreases |s|
  {
    if s != [] {
      DecodeEncodeEach(s[1..]);
      var c, rest := s[0], EncodeEach(s[1..]);
      assert EncodeEach(s) == EncodeChar(c) + rest;
      if c == '&' {
        DecodeAmp(rest);
      } else if c == '<' {
        DecodeLt(rest);
      } else if c == '>' {
        DecodeGt(rest);
      } else if c == '"' {
        DecodeQuot(rest);
      } else if c == '\'' {
        DecodeApos(rest);
      } else {
        DecodePlain(c, rest);
      }
      assert s == [c] + s[1..];
    }
  }

  // Link post-processing

  /** What a link needs of a declared type: its name and its id. */
  datatype LinkTarget = LinkTarget(name: string, id: string)

  /** The name-keyed dictionaries of classes, interfaces, enums and types. */
  datatype NameIndex = NameIndex(
    classes: map<string, LinkTarget>,
    interfaces: map<string, LinkTarget>,
    enums: map<string, LinkTarget>,
    types: map<string, LinkTarget>)

  /** The key a target is stored under: its encoded name. */
  function Key(t: LinkTarget): string {
    XmlEncode(t.name)
  }

  /** The dictionary after storing every entry in order: later entries overwrite earlier ones. */
  function Store(entries: seq<(string, LinkTarget)>): map<string, LinkTarget>
    decreases |entries|
  {
    if entries == [] then map[]
    else Store(entries[..|entries| - 1])[entries[|entries| - 1].0 := entries[|entries| - 1].1]
  }

  /** The dictionary holds exactly the keys of its entries. */
  lemma {:induction false} StoredKeys(entries: seq<(string, LinkTarget)>)
    ensures Store(entries).Keys == set i | 0 <= i < |entries| :: entries[i].0
    decreases |entries|
  {
    if entries != [] {
      var n := |entries| - 1;
      StoredKeys(entries[..n]);
      assert (set i | 0 <= i < |entries| :: entries[i].0)
          == (set i | 0 <= i < n :: entries[..n][i].0) + {entries[n].0};
    }
  }

  /** What is stored under a key is the last entry with that key. */
  lemma {:induction false} LastWriteWins(entries: seq<(string, LinkTarget)>, i: nat)
    requires i < |entries|
    requires forall j :: i < j < |entries| ==> entries[j].0 != entries[i].0
    ensures entries[i].0 in Store(entries) && Store(entries)[entries[i].0] == entries[i].1
    decreases |entries|
  {
    var n := |entries| - 1;
    if i < n {
      assert entries[..n][i] == entries[i];
      assert forall j :: i < j < n ==> entries[..n][j] == entries[j];
      LastWriteWins(entries[..n], i);
    }
  }

  /** Each target paired with its key, in order. */
  function Entries(targets: seq<LinkTarget>): (r: seq<(string, LinkTarget)>)
    ensures |r| == |targets| && forall i :: 0 <= i < |targets| ==> r[i] == (Key(targets[i]), targets[i])
  {
    seq(|targets|, i requires 0 <= i < |targets| => (Key(targets[i]), targets[i]))
  }

  /** Fills one dictionary, entry by entry (`dict[xmlEncode(x.name)] = x`). */
  method BuildIndex(targets: seq<LinkTarget>) returns (index: map<string, LinkTarget>)
    ensures index == Store(Entries(targets))
  {
    ghost var entries := Entries(targets);
    index := map[];
    var i := 0;
    while i < |targets|
      invariant 0 <= i <= |targets|
      invariant index == Store(entries[..i])
      decreases |targets| - i
    {
      assert entries[..i + 1][..i] == entries[..i];
      index := index[Key(targets[i]) := targets[i]];
      i := i + 1;
    }
    assert entries[..|targets|] == entries;
  }

  function ClassTargets(declarations: seq<FileDeclaration>): seq<LinkTarget> {
    Flat(seq(|declarations|, i requires 0 <= i < |declarations| =>
      seq(|declarations[i].classes|, k requires 0 <= k < |declarations[i].classes| =>
        LinkTarget(declarations[i].classes[k].name, declarations[i].classes[k].id))))
  }

  function InterfaceTargets(declarations: seq<FileDeclaration>): seq<LinkTarget> {
    Flat(seq(|declarations|, i requires 0 <= i < |declarations| =>
      seq(|declarations[i].interfaces|, k requires 0 <= k < |declarations[i].interfaces| =>
        LinkTarget(declarations[i].interfaces[k].name, declarations[i].interfaces[k].id))))
  }

  function EnumTargets(declarations: seq<FileDeclaration>): seq<LinkTarget> {
    Flat(seq(|declarations|, i requires 0 <= i < |declarations| =>
      seq(|declarations[i].enums|, k requires 0 <= k < |declarations[i].enums| =>
        LinkTarget(declarations[i].enums[k].name, declarations[i].enums[k].id))))
  }

  function TypeTargets(declarations: seq<FileDeclaration>): seq<LinkTarget> {
    Flat(seq(|declarations|, i requires 0 <= i < |declarations| =>
      seq(|declarations[i].types|, k requires 0 <= k < |declarations[i].types| =>
        LinkTarget(declarations[i].types[k].name, declarations[i].types[k].id))))
  }

  /** The four dictionaries; each one sees its own kind in declaration order. */
  function IndexDeclarations(declarations: seq<FileDeclaration>): NameIndex {
    NameIndex(Store(Entries(ClassTargets(declarations))), Store(Entries(InterfaceTargets(declarations))),
              Store(Entries(EnumTargets(declarations))), Store(Entries(TypeTargets(declarations))))
  }

  /** The target for a label: classes first, then interfaces, enums and types. */
  function Lookup(index: NameIndex, key: string): (r: Option<LinkTarget>)
    ensures key in index.classes ==> r == Some(index.classes[key])
    ensures key !in index.classes && key in index.interfaces ==> r == Some(index.interfaces[key])
    ensures r.None? <==> key !in index.classes && key !in index.interfaces && key !in index.enums && key !in index.types
  {
    if key in index.classes then Some(index.classes[key])
    else if key in index.interfaces then Some(index.interfaces[key])
    else if key in index.enums then Some(index.enums[key])
    else if key in index.types then Some(index.types[key])
    else None
  }

  /**
   * A label is linked exactly when some declared type's encoded name is the
   * label, and a class wins over every other kind with that name: the last
   * such class is the target.
   */
  lemma ClassesComeFirst(declarations: seq<FileDeclaration>, i: nat)
    requires i < |ClassTargets(declarations)|
    requires forall j :: i < j < |ClassTargets(declarations)| ==>
      Key(ClassTargets(declarations)[j]) != Key(ClassTargets(declarations)[i])
    ensures Lookup(IndexDeclarations(declarations), Key(ClassTargets(declarations)[i])) == Some(ClassTargets(declarations)[i])
  {
    LastWriteWins(Entries(ClassTargets(declarations)), i);
  }

  /** A label is linked exactly when some declared class, interface, enum or type has it as its encoded name. */
  lemma LinkedLabels(declarations: seq<FileDeclaration>, text: string)
    ensures Lookup(IndexDeclarations(declarations), text).Some? <==>
      text in Keys(ClassTargets(declarations)) || text in Keys(InterfaceTargets(declarations))
      || text in Keys(EnumTargets(declarations)) || text in Keys(TypeTargets(declarations))
  {
    IndexHoldsKeys(ClassTargets(declarations));
    IndexHoldsKeys(InterfaceTargets(declarations));
    IndexHoldsKeys(EnumTargets(declarations));
    IndexHoldsKeys(TypeTargets(declarations));
  }

  /** The keys of the targets, in order. */
  function Keys(targets: seq<LinkTarget>): (r: seq<string>)
    ensures |r| == |targets| && forall i :: 0 <= i < |targets| ==> r[i] == Key(targets[i])
  {
    seq(|targets|, i requires 0 <= i < |targets| => Key(targets[i]))
  }

  lemma IndexHoldsKeys(targets: seq<LinkTarget>)
    ensures forall k :: k in Store(Entries(targets)) <==> k in Keys(targets)
  {
    var entries := Entries(targets);
    StoredKeys(entries);
    forall k
      ensures k in Store(entries) <==> k in Keys(targets)
    {
      if k in Keys(targets) {
        var i :| 0 <= i < |targets| && Keys(targets)[i] == k;
        assert entries[i].0 == k;
      }
      if k in Store(entries) {
        var i :| 0 <= i < |entries| && entries[i].0 == k;
        assert Keys(targets)[i] == k;
      }
    }
  }

  /**
   * The anchor wrapped around a matching label: the opening tag carries the
   * path, `.` and the encoded name as its id and the path as its link, then
   * the line, then `</a>`.
   */
  function Anchor(relPath: string, name: string, line: string): (r: string)
    ensures StartsWith(r, "<a id=\"" + relPath + "." + EncodeEach(name) + "\" xlink:href=\"" + relPath + "\">")
    ensures EndsWith(r, line + "</a>") && r != line
    ensures |r| == |"<a id=\"" + relPath + "." + EncodeEach(name) + "\" xlink:href=\"" + relPath + "\">"| + |line| + 4
    ensures r[|"<a id=\"" + relPath + "." + EncodeEach(name) + "\" xlink:href=\"" + relPath + "\">"|..|r| - 4] == line
  {
    var head := "<a id=\"" + relPath + "." + XmlEncode(name) + "\" xlink:href=\"" + relPath + "\">";
    Framed(head, line, "</a>");
    assert EndsWith(head + line + "</a>", line + "</a>") by {
      assert (head + line + "</a>")[|head|..] == line + "</a>";
    }
    head + line + "</a>"
  }

  const PathError: string := "Could not compute path to class / interface definition"

  /**
   * One line of the SVG: trimmed; a `<text` line whose text between its
   * first `>` and last `<` names a declared type is wrapped in an anchor;
   * `Err` stands for the error the link computation throws.
   */
  function RewriteLine(index: NameIndex, diagramPath: string, relativePath: (string, string) -> string, raw: string): (r: Result<string>)
    ensures r != Ok(Trim(raw)) ==> LabelNamesTarget(index, Trim(raw))
    ensures r.Err? <==> LabelNamesTarget(index, Trim(raw)) && TargetSourceFile(LabelTarget(index, Trim(raw)).id).None?
    ensures r.Err? ==> r.error == PathError
    ensures LabelNamesTarget(index, Trim(raw)) && TargetSourceFile(LabelTarget(index, Trim(raw)).id).Some? ==>
      var target := LabelTarget(index, Trim(raw));
      r == Ok(Anchor(relativePath(diagramPath, TargetSourceFile(target.id).value), target.name, Trim(raw)))
  {
    var line := Trim(raw);
    if StartsWith(line, "<text") && DelimitedGroup(line, '>', '<').Some? then
      match Lookup(index, DelimitedGroup(line, '>', '<').value)
      case None => Ok(line)
      case Some(target) =>
        match GetRelativeFilePath(target.id, diagramPath, relativePath)
        case None => Err(PathError)
        case Some(relPath) => Ok(Anchor(relPath, target.name, line))
    else Ok(line)
  }

  /** A trimmed line is a `<text` line whose label, between its first `>` and last `<`, names a declared type. */
  predicate LabelNamesTarget(index: NameIndex, line: string) {
    StartsWith(line, "<text") && DelimitedGroup(line, '>', '<').Some?
    && Lookup(index, DelimitedGroup(line, '>', '<').value).Some?
  }

  function LabelTarget(index: NameIndex, line: string): LinkTarget
    requires LabelNamesTarget(index, line)
  {
    Lookup(index, DelimitedGroup(line, '>', '<').value).value
  }

  /** Strips an anchor: the text after its first `>` and before the closing `</a>`. */
  function Unwrap(out: string): string {
    if StartsWith(out, "<a id=\"") && EndsWith(out, "</a>") && '>' in out && IndexOf(out, '>') + 1 <= |out| - 4
    then out[IndexOf(out, '>') + 1..|out| - 4]
    else out
  }

  /** Unwrapping an anchor whose opening tag holds no `>` gives back what it wraps. */
  lemma UnwrapAround(head: string, line: string)
    requires StartsWith(head, "<a id=\"") && '>' !in head
    ensures Unwrap(head + ">" + line + "</a>") == line
  {
    var a := head + ">" + line + "</a>";
    assert a[|head|] == '>';
    assert forall k :: 0 <= k < |head| ==> a[k] == head[k];
    IndexOfUnique(a, '>', |head|);
    assert a[..7] == head[..7];
    assert a[|a| - 4..] == "</a>";
    assert a[|head| + 1..|a| - 4] == line;
  }

  /** The anchor keeps the label line intact: unwrapping it gives the line back when the path has no `>`. */
  lemma AnchorUnwraps(relPath: string, name: string, line: string)
    requires '>' !in relPath
    ensures Unwrap(Anchor(relPath, name, line)) == line
  {
    var encoded := XmlEncode(name);
    XmlEncodeClean(name);
    var head := "<a id=\"" + relPath + "." + encoded + "\" xlink:href=\"" + relPath + "\"";
    assert '>' !in head;
    assert head[..7] == "<a id=\"";
    assert Anchor(relPath, name, line) == head + ">" + line + "</a>";
    UnwrapAround(head, line);
  }

  /** The lines collected until the first failure: `Err` once a line has thrown. */
  function Collect(results: seq<Result<string>>): Result<seq<string>>
    decreases |results|
  {
    if results == [] then Ok([])
    else
      match Collect(results[..|results| - 1])
      case Err(e) => Err(e)
      case Ok(done) =>
        match results[|results| - 1]
        case Err(e) => Err(e)
        case Ok(line) => Ok(done + [line])
  }

  /** Collection succeeds exactly when every line does, and then keeps every line in place. */
  lemma {:induction false} CollectPointwise(results: seq<Result<string>>)
    ensures Collect(results).Ok? <==> forall k :: 0 <= k < |results| ==> results[k].Ok?
    ensures Collect(results).Ok? ==>
      |Collect(results).value| == |results| && forall k :: 0 <= k < |results| ==> Collect(results).value[k] == results[k].value
    decreases |results|
  {
    if results != [] {
      var n := |results| - 1;
      CollectPointwise(results[..n]);
      assert forall k :: 0 <= k < n ==> results[..n][k] == results[k];
    }
  }

  lemma CollectStep(results: seq<Result<string>>, i: nat, done: seq<string>)
    requires i < |results| && Collect(results[..i]) == Ok(done)
    ensures results[i].Err? ==> Collect(results[..i + 1]) == Err(results[i].error)
    ensures results[i].Ok? ==> Collect(results[..i + 1]) == Ok(done + [results[i].value])
  {
    assert results[..i + 1][..i] == results[..i];
  }

  lemma TerminatedAppend(lines: seq<string>, line: string)
    ensures Terminated(lines + [line]) == Terminated(lines) + [line + "\n"]
  {
  }

  /** Once a line has thrown, the whole collection has thrown. */
  lemma {:induction false} FailureIsFinal(results: seq<Result<string>>, n: nat)
    requires n <= |results| && Collect(results[..n]).Err?
    ensures Collect(results) == Collect(results[..n])
    decreases |results| - n
  {
    if n < |results| {
      assert results[..n + 1][..n] == results[..n];
      FailureIsFinal(results, n + 1);
    } else {
      assert results[..n] == results;
    }
  }

  /** The rewrite of one SVG line against the four dictionaries. */
  function LineRewriter(index: NameIndex, diagramPath: string, relativePath: (string, string) -> string): string -> Result<string> {
    line => RewriteLine(index, diagramPath, relativePath, line)
  }

  /** Every line rewritten, in order. */
  function RewriteAll(rewrite: string -> Result<string>, lines: seq<string>): (r: seq<Result<string>>)
    ensures |r| == |lines| && forall k :: 0 <= k < |lines| ==> r[k] == rewrite(lines[k])
  {
    seq(|lines|, k requires 0 <= k < |lines| => rewrite(lines[k]))
  }

  /** The output text: every line followed by a newline. */
  function Terminated(lines: seq<string>): (r: seq<string>)
    ensures |r| == |lines| && forall k :: 0 <= k < |lines| ==> r[k] == lines[k] + "\n"
  {
    seq(|lines|, k requires 0 <= k < |lines| => lines[k] + "\n")
  }

  /** The rewritten text, or the error the first failing line throws. */
  function Rewritten(rewrite: string -> Result<string>, lines: seq<string>): Result<string> {
    match Collect(RewriteAll(rewrite, lines))
    case Err(e) => Err(e)
    case Ok(out) => Ok(Concat(Terminated(out)))
  }

  /** What `postProcessSvg` returns for the given SVG text. */
  function PostProcessed(svg: string, diagramPath: string, declarations: seq<FileDeclaration>, relativePath: (string, string) -> string): Result<string> {
    Rewritten(LineRewriter(IndexDeclarations(declarations), diagramPath, relativePath), Split(svg, '\n'))
  }

  /**
   * `postProcessSvg`: fills the four dictionaries, then rewrites the SVG
   * line by line.
   */
  method PostProcessSvg(svg: string, diagramPath: string, declarations: seq<FileDeclaration>, relativePath: (string, string) -> string)
    returns (r: Result<string>)
    ensures r == PostProcessed(svg, diagramPath, declarations, relativePath)
  {
    var classes := BuildIndex(ClassTargets(declarations));
    var interfaces := BuildIndex(InterfaceTargets(declarations));
    var enums := BuildIndex(EnumTargets(declarations));
    var types := BuildIndex(TypeTargets(declarations));
    var index := NameIndex(classes, interfaces, enums, types);
    r := RewriteLines(LineRewriter(index, diagramPath, relativePath), Split(svg, '\n'));
  }

  /** The loop of `postProcessSvg`: each line is rewritten and collected with its newline; the first failure ends it. */
  method RewriteLines(rewrite: string -> Result<string>, lines: seq<string>) returns (r: Result<string>)
    ensures r == Rewritten(rewrite, lines)
  {
    ghost var results := RewriteAll(rewrite, lines);
    var arOut: seq<string> := [];
    ghost var done: seq<string> := [];
    var i := 0;
    while i < |lines|
      invariant 0 <= i <= |lines|
      invariant Collect(results[..i]) == Ok(done)
      invariant arOut == Terminated(done)
      decreases |lines| - i
    {
      var line := rewrite(lines[i]);
      CollectStep(results, i, done);
      if line.Err? {
        FailureIsFinal(results, i + 1);
        return Err(line.error);
      }
      TerminatedAppend(done, line.value);
      arOut := arOut + [line.value + "\n"];
      done := done + [line.value];
      i := i + 1;
    }
    assert results[..|lines|] == results;
    r := Ok(Concat(arOut));
  }

  /** Each line's rewrite, or nothing for a line that failed. */
  function Outputs(rewrite: string -> Result<string>, lines: seq<string>): (r: seq<string>)
    ensures |r| == |lines|
  {
    seq(|lines|, k requires 0 <= k < |lines| => match rewrite(lines[k]) case Ok(v) => v case Err(_) => "")
  }

  /**
   * The output holds one line per input line, in order, each the rewrite
   * of that line followed by a newline; it fails exactly when some line
   * fails.
   */
  lemma RewrittenLines(rewrite: string -> Result<string>, lines: seq<string>)
    ensures Rewritten(rewrite, lines).Ok? <==> forall k :: 0 <= k < |lines| ==> rewrite(lines[k]).Ok?
    ensures Rewritten(rewrite, lines).Ok? ==> Rewritten(rewrite, lines).value == Concat(Terminated(Outputs(rewrite, lines)))
  {
    var results := RewriteAll(rewrite, lines);
    CollectPointwise(results);
    if Collect(results).Ok? {
      assert Collect(results).value == Outputs(rewrite, lines);
    }
  }
}
