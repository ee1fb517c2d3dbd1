/**
 * The diagram engine: it turns the parsed source files of a project into
 * declarations (optionally keeping exported declarations only and running
 * the association pass), builds the nomnoml and Mermaid documents
 * (header, newline, emitted body) and decides whether the rendered SVG is
 * given type links.
 */
module DiagramEngine {
  import opened Wrappers
  import opened JsString
  import opened JsArray
  import opened Model
  import opened Template
  import Parser
  import Associations
  import Emitter
  import NomnomlTemplate
  import MermaidTemplate

  /** The settings the engine reads. */
  datatype Settings = Settings(
    propertyTypes: bool,
    modifiers: bool,
    typeLinks: bool,
    memberAssociations: bool,
    exportedTypesOnly: bool,
    nomnoml: seq<string>,
    mermaid: seq<string>)

  /** The two switches the notations read. */
  function TemplateSettingsOf(settings: Settings): TemplateSettings {
    TemplateSettings(settings.propertyTypes, settings.modifiers)
  }

  // ---------------------------------------------------------------------
  // Parsing a project

  /** A declaration node of a source file, with its `isExported()` answer. */
  datatype Exportable<T> = Exportable(node: T, isExported: bool)

  /** What one source file of the project declares, in declaration order. */
  datatype ProjectFile = ProjectFile(
    filePath: string,
    classes: seq<Exportable<Parser.ClassNode>>,
    interfaces: seq<Exportable<Parser.InterfaceNode>>,
    enums: seq<Exportable<Parser.EnumNode>>,
    types: seq<Exportable<Parser.TypeAliasNode>>)

  /** `removeNonExportedNodes`: the exported nodes, and only those. */
  function RemoveNonExportedNodes<T>(nodes: seq<Exportable<T>>): (r: seq<Exportable<T>>)
    ensures forall i :: 0 <= i < |r| ==> r[i] in nodes && r[i].isExported
    ensures forall i :: 0 <= i < |nodes| && nodes[i].isExported ==> nodes[i] in r
    ensures |r| <= |nodes|
    decreases |nodes|
  {
    if nodes == [] then []
    else
      var rest := RemoveNonExportedNodes(nodes[1..]);
      assert forall i :: 1 <= i < |nodes| ==> nodes[i] == nodes[1..][i - 1];
      if nodes[0].isExported then [nodes[0]] + rest else rest
  }

  /** The filter keeps the order of the nodes: it distributes over concatenation. */
  lemma {:induction false} RemoveNonExportedAppend<T>(a: seq<Exportable<T>>, b: seq<Exportable<T>>)
    ensures RemoveNonExportedNodes(a + b) == RemoveNonExportedNodes(a) + RemoveNonExportedNodes(b)
    decreases |a|
  {
    if a == [] {
      assert a + b == b;
    } else {
      assert (a + b)[0] == a[0];
      assert (a + b)[1..] == a[1..] + b;
      RemoveNonExportedAppend(a[1..], b);
    }
  }

  /** When every node is exported, the filter changes nothing. */
  lemma {:induction false} AllExportedKept<T>(nodes: seq<Exportable<T>>)
    requires forall i :: 0 <= i < |nodes| ==> nodes[i].isExported
    ensures RemoveNonExportedNodes(nodes) == nodes
    decreases |nodes|
  {
    if nodes != [] {
      AllExportedKept(nodes[1..]);
    }
  }

  lemma ExportedKept<T>(nodes: seq<Exportable<T>>)
    ensures (forall i :: 0 <= i < |nodes| ==> nodes[i].isExported) ==> RemoveNonExportedNodes(nodes) == nodes
  {
    if forall i :: 0 <= i < |nodes| ==> nodes[i].isExported {
      AllExportedKept(nodes);
    }
  }

  /** Filtering twice is filtering once. */
  lemma {:induction false} RemoveNonExportedIdempotent<T>(nodes: seq<Exportable<T>>)
    ensures RemoveNonExportedNodes(RemoveNonExportedNodes(nodes)) == RemoveNonExportedNodes(nodes)
  {
    var r := RemoveNonExportedNodes(nodes);
    AllExportedKept(r);
  }

  /**
   * The nodes a file hands to the parser: all of them, in order, or with
   * `exportedTypesOnly` only exported ones, which is all of them when every
   * node is exported.
   */
  function Selected<T>(nodes: seq<Exportable<T>>, exportedTypesOnly: bool): (r: seq<T>)
    ensures |r| <= |nodes|
    ensures !exportedTypesOnly || (forall i :: 0 <= i < |nodes| ==> nodes[i].isExported) ==>
      |r| == |nodes| && forall i :: 0 <= i < |nodes| ==> r[i] == nodes[i].node
    ensures exportedTypesOnly ==>
      forall i :: 0 <= i < |r| ==> exists j :: 0 <= j < |nodes| && nodes[j].isExported && nodes[j].node == r[i]
  {
    ExportedKept(nodes);
    var kept := if exportedTypesOnly then RemoveNonExportedNodes(nodes) else nodes;
    seq(|kept|, i requires 0 <= i < |kept| => kept[i].node)
  }

  function ClassesOf(nodes: seq<Parser.ClassNode>): (r: seq<Clazz>)
    ensures |r| == |nodes| && forall i :: 0 <= i < |nodes| ==> r[i] == Parser.ClassOf(nodes[i])
  {
    seq(|nodes|, i requires 0 <= i < |nodes| => Parser.ClassOf(nodes[i]))
  }

  function InterfacesOf(nodes: seq<Parser.InterfaceNode>): (r: seq<Interface>)
    ensures |r| == |nodes| && forall i :: 0 <= i < |nodes| ==> r[i] == Parser.InterfaceOf(nodes[i])
  {
    seq(|nodes|, i requires 0 <= i < |nodes| => Parser.InterfaceOf(nodes[i]))
  }

  function EnumsOf(nodes: seq<Parser.EnumNode>): (r: seq<Enum>)
    ensures |r| == |nodes| && forall i :: 0 <= i < |nodes| ==> r[i] == Parser.EnumOf(nodes[i])
  {
    seq(|nodes|, i requires 0 <= i < |nodes| => Parser.EnumOf(nodes[i]))
  }

  function TypesOf(nodes: seq<Parser.TypeAliasNode>): (r: seq<Option<TypeAlias>>)
    ensures |r| == |nodes| && forall i :: 0 <= i < |nodes| ==> r[i] == Parser.ParseType(nodes[i])
  {
    seq(|nodes|, i requires 0 <= i < |nodes| => Parser.ParseType(nodes[i]))
  }

  /**
   * The heritage clause lists of the declarations that have any, in
   * declaration order. Every list kept is non-empty, and every non-empty
   * list is kept.
   */
  function HeritageLists(declarations: seq<Interface>): (r: seq<seq<HeritageClause>>)
    ensures forall i :: 0 <= i < |r| ==> r[i] != []
    ensures forall d :: d in declarations && d.heritageClauses != [] ==> d.heritageClauses in r
    ensures |r| <= |declarations|
    decreases |declarations|
  {
    if declarations == [] then []
    else
      var rest := HeritageLists(declarations[1..]);
      assert forall d :: d in declarations ==> d == declarations[0] || d in declarations[1..];
      if declarations[0].heritageClauses != [] then [declarations[0].heritageClauses] + rest else rest
  }

  /** Every clause of the declarations, in order. */
  function AllClauses(declarations: seq<Interface>): seq<HeritageClause>
    decreases |declarations|
  {
    if declarations == [] then [] else declarations[0].heritageClauses + AllClauses(declarations[1..])
  }

  /** Dropping the empty lists loses no clause: flattened, the lists hold every clause in order. */
  lemma {:induction false} HeritageListsKeepClauses(declarations: seq<Interface>)
    ensures Flat(HeritageLists(declarations)) == AllClauses(declarations)
    decreases |declarations|
  {
    if declarations != [] {
      HeritageListsKeepClauses(declarations[1..]);
      var rest := HeritageLists(declarations[1..]);
      if declarations[0].heritageClauses != [] {
        assert ([declarations[0].heritageClauses] + rest)[1..] == rest;
      }
    }
  }

  /**
   * The declaration `parseProject` builds for one file, before the
   * association pass: the selected classes, interfaces and enums parsed
   * one for one, the type aliases that parse to one, and the heritage
   * lists of the classes, then of the interfaces.
   */
  function FileDeclarationOf(f: ProjectFile, settings: Settings): (d: FileDeclaration)
    ensures d.fileName == f.filePath && d.memberAssociations.None?
    ensures d.classes == ClassesOf(Selected(f.classes, settings.exportedTypesOnly))
    ensures d.interfaces == InterfacesOf(Selected(f.interfaces, settings.exportedTypesOnly))
    ensures d.enums == EnumsOf(Selected(f.enums, settings.exportedTypesOnly))
    ensures d.types == Parser.Present(TypesOf(Selected(f.types, settings.exportedTypesOnly)))
    ensures d.heritageClauses == HeritageLists(d.classes) + HeritageLists(d.interfaces)
  {
    var classes := ClassesOf(Selected(f.classes, settings.exportedTypesOnly));
    var interfaces := InterfacesOf(Selected(f.interfaces, settings.exportedTypesOnly));
    FileDeclaration(
      f.filePath,
      classes,
      interfaces,
      EnumsOf(Selected(f.enums, settings.exportedTypesOnly)),
      Parser.Present(TypesOf(Selected(f.types, settings.exportedTypesOnly))),
      HeritageLists(classes) + HeritageLists(interfaces),
      None)
  }

  /** A file's heritage lists hold every clause of its classes, then every clause of its interfaces. */
  lemma FileHeritageClauses(f: ProjectFile, settings: Settings)
    ensures Flat(FileDeclarationOf(f, settings).heritageClauses)
         == AllClauses(FileDeclarationOf(f, settings).classes) + AllClauses(FileDeclarationOf(f, settings).interfaces)
  {
    var d := FileDeclarationOf(f, settings);
    FlatAppend(HeritageLists(d.classes), HeritageLists(d.interfaces));
    HeritageListsKeepClauses(d.classes);
    HeritageListsKeepClauses(d.interfaces);
  }

  /** With `exportedTypesOnly`, every class of a file comes from one of its exported class nodes. */
  lemma ExportedClassesOnly(f: ProjectFile, settings: Settings, i: nat)
    requires settings.exportedTypesOnly && i < |FileDeclarationOf(f, settings).classes|
    ensures exists n :: n in f.classes && n.isExported && FileDeclarationOf(f, settings).classes[i] == Parser.ClassOf(n.node)
  {
    var kept := RemoveNonExportedNodes(f.classes);
    assert kept[i] in f.classes && kept[i].isExported;
  }

  /** The filter only matters when something is not exported: over exported nodes both settings agree. */
  lemma ExportFilterNoOp(f: ProjectFile, settings: Settings)
    requires forall i :: 0 <= i < |f.classes| ==> f.classes[i].isExported
    requires forall i :: 0 <= i < |f.interfaces| ==> f.interfaces[i].isExported
    requires forall i :: 0 <= i < |f.enums| ==> f.enums[i].isExported
    requires forall i :: 0 <= i < |f.types| ==> f.types[i].isExported
    ensures FileDeclarationOf(f, settings) == FileDeclarationOf(f, settings.(exportedTypesOnly := false))
  {
    AllExportedKept(f.classes);
    AllExportedKept(f.interfaces);
    AllExportedKept(f.enums);
    AllExportedKept(f.types);
  }

  /** The declarations of all files, in file order, before the association pass. */
  function FileDeclarations(files: seq<ProjectFile>, settings: Settings): (r: seq<FileDeclaration>)
    ensures |r| == |files| && forall i :: 0 <= i < |files| ==> r[i] == FileDeclarationOf(files[i], settings)
  {
    seq(|files|, i requires 0 <= i < |files| => FileDeclarationOf(files[i], settings))
  }

  /**
   * What `parseProject` returns. Without `memberAssociations` the files
   * carry no association list; with it, every file gets one and keeps
   * everything else, no listed edge is inherited or points at an
   * undeclared type, and no two listed edges join the same two types in
   * opposite directions; which edges the pass drops is stated by
   * `Associations.ParsedDrops`. `rank` orders the heritage relation so that
   * the association pass terminates.
   */
  function ParsedProject(files: seq<ProjectFile>, settings: Settings, ghost rank: string -> nat): (r: seq<FileDeclaration>)
    requires settings.memberAssociations ==> Associations.Ranked(Associations.TypeMapOf(FileDeclarations(files, settings)), rank)
    ensures |r| == |files|
    ensures !settings.memberAssociations ==> r == FileDeclarations(files, settings)
    ensures forall i :: 0 <= i < |r| ==> (r[i].memberAssociations.Some? <==> settings.memberAssociations)
    ensures forall i :: 0 <= i < |r| ==>
      r[i] == FileDeclarations(files, settings)[i].(memberAssociations := r[i].memberAssociations)
    ensures settings.memberAssociations ==>
      Associations.ListedEdges(r, Associations.TypeMapOf(FileDeclarations(files, settings)))
      && Associations.OneWayListed(r)
    // with the pass on, the result is the association pass's, so its lemmas carry over
    ensures settings.memberAssociations ==> r == Associations.ParsedAssociations(FileDeclarations(files, settings), rank)
  {
    var declarations := FileDeclarations(files, settings);
    if settings.memberAssociations then Associations.ParsedAssociations(declarations, rank) else declarations
  }

  /** `parseProject`: the files are mapped to declarations, then the association pass runs when it is switched on. */
  method ParseProject(files: seq<ProjectFile>, settings: Settings, ghost rank: string -> nat) returns (declarations: seq<FileDeclaration>)
    requires settings.memberAssociations ==> Associations.Ranked(Associations.TypeMapOf(FileDeclarations(files, settings)), rank)
    ensures declarations == ParsedProject(files, settings, rank)
  {
    declarations := FileDeclarations(files, settings);
    if settings.memberAssociations {
      declarations := Associations.ParseAssociations(declarations, rank);
    }
  }

  // ---------------------------------------------------------------------
  // The documents

  /** The three style lines every nomnoml document starts with. */
  const NomnomlStyles: seq<string> := ["#.interface: fill=lightblue", "#.enumeration: fill=lightgreen", "#.type: fill=lightgray"]

  /** Joining two non-empty lists puts one separator between the two joins. */
  lemma {:induction false} JoinAppend(a: seq<string>, b: seq<string>, sep: string)
    requires a != [] && b != []
    ensures Join(a + b, sep) == Join(a, sep) + sep + Join(b, sep)
    decreases |a|
  {
    if |a| == 1 {
      assert (a + b)[1..] == b;
    } else {
      assert (a + b)[1..] == a[1..] + b;
      JoinAppend(a[1..], b, sep);
    }
  }

  /** No style line holds a newline. */
  lemma StylesOneLine()
    ensures forall i :: 0 <= i < |NomnomlStyles| ==> '\n' !in NomnomlStyles[i]
  {
  }

  lemma JoinAppendIf(a: seq<string>, b: seq<string>, sep: string)
    requires a != []
    ensures b != [] ==> Join(a + b, sep) == Join(a, sep) + sep + Join(b, sep)
  {
    if b != [] {
      JoinAppend(a, b, sep);
    }
  }

  /**
   * The nomnoml header: the style lines, then the user's nomnoml lines; line
   * by line, with user lines, the style lines followed by the user's lines,
   * and without, the style lines each ended by a newline.
   */
  function NomnomlHeader(nomnoml: seq<string>): (r: string)
    ensures nomnoml != [] ==> r == Join(NomnomlStyles + nomnoml, "\n")
    ensures nomnoml == [] ==> r == Join(NomnomlStyles, "\n") + "\n"
  {
    StylesJoined();
    JoinAppendIf(NomnomlStyles, nomnoml, "\n");
    "#.interface: fill=lightblue\n" + "#.enumeration: fill=lightgreen\n" + "#.type: fill=lightgray\n" + Join(nomnoml, "\n")
  }

  /** The style lines, joined, with the newline that ends the last one. */
  lemma StylesJoined()
    ensures Join(NomnomlStyles, "\n") + "\n"
         == "#.interface: fill=lightblue\n" + "#.enumeration: fill=lightgreen\n" + "#.type: fill=lightgray\n"
  {
    assert NomnomlStyles[1..][1..] == ["#.type: fill=lightgray"];
  }

  /**
   * The Mermaid header: an empty line, `classDiagram`, the user's lines, and
   * a closing newline; line by line, with user lines, an empty line,
   * `classDiagram`, the user's lines and an empty line.
   */
  function MermaidHeader(mermaid: seq<string>): (r: string)
    ensures mermaid != [] ==> r == Join(["", "classDiagram"] + mermaid + [""], "\n")
    ensures mermaid == [] ==> r == Join(["", "classDiagram", "", ""], "\n")
  {
    MermaidLinesJoined(mermaid);
    MermaidEmptyJoined();
    "\nclassDiagram\n" + Join(mermaid, "\n") + "\n"
  }

  lemma MermaidLinesJoined(mermaid: seq<string>)
    ensures mermaid != [] ==>
      "\nclassDiagram\n" + Join(mermaid, "\n") + "\n" == Join(["", "classDiagram"] + mermaid + [""], "\n")
  {
    if mermaid == [] {
      return;
    }
    assert Join(["", "classDiagram"], "\n") == "\nclassDiagram" by {
      assert ["", "classDiagram"][1..] == ["classDiagram"];
    }
    JoinAppend(["", "classDiagram"], mermaid, "\n");
    JoinAppend(["", "classDiagram"] + mermaid, [""], "\n");
  }

  lemma MermaidEmptyJoined()
    ensures "\nclassDiagram\n" + Join([], "\n") + "\n" == Join(["", "classDiagram", "", ""], "\n")
  {
    assert Join(["", "classDiagram"], "\n") == "\nclassDiagram" by {
      assert ["", "classDiagram"][1..] == ["classDiagram"];
    }
    assert ["", "classDiagram", "", ""] == ["", "classDiagram"] + ["", ""];
    assert Join(["", ""], "\n") == "\n" by {
      assert ["", ""][1..] == [""];
    }
    JoinAppend(["", "classDiagram"], ["", ""], "\n");
  }

  function NomnomlEmitter(settings: Settings): Emitter.Emitter {
    Emitter.Emitter(NomnomlTemplate.Nomnoml(TemplateSettingsOf(settings)))
  }

  function MermaidEmitter(settings: Settings): Emitter.Emitter {
    Emitter.Emitter(MermaidTemplate.Mermaid(TemplateSettingsOf(settings)))
  }

  /**
   * `getNomnomlDSL`: the header, a newline, and the emitted body. Line by
   * line: the style lines, the user's lines (or one empty line when there
   * are none), then the fragments (or the placeholder).
   */
  function GetNomnomlDSL(declarations: seq<FileDeclaration>, settings: Settings): (r: string)
    ensures settings.nomnoml != [] ==>
      r == Join(NomnomlStyles + settings.nomnoml + BodyLines(NomnomlEmitter(settings), declarations), "\n")
    ensures settings.nomnoml == [] ==>
      r == Join(NomnomlStyles + [""] + BodyLines(NomnomlEmitter(settings), declarations), "\n")
  {
    EmitIsBodyJoined(NomnomlEmitter(settings), declarations);
    NomnomlLinesJoined(settings.nomnoml, BodyLines(NomnomlEmitter(settings), declarations));
    NomnomlHeader(settings.nomnoml) + "\n" + Emitter.Emit(declarations, NomnomlEmitter(settings))
  }

  lemma NomnomlLinesJoined(nomnoml: seq<string>, body: seq<string>)
    requires body != []
    ensures nomnoml != [] ==> NomnomlHeader(nomnoml) + "\n" + Join(body, "\n") == Join(NomnomlStyles + nomnoml + body, "\n")
    ensures nomnoml == [] ==> NomnomlHeader(nomnoml) + "\n" + Join(body, "\n") == Join(NomnomlStyles + [""] + body, "\n")
  {
    if nomnoml != [] {
      JoinAppend(NomnomlStyles + nomnoml, body, "\n");
    } else {
      JoinAppend(NomnomlStyles, [""], "\n");
      JoinAppend(NomnomlStyles + [""], body, "\n");
    }
  }

  /**
   * `getMermaidDSL`, with the corrected association rendering: the header, a
   * newline, and the emitted body. Line by line: an empty line,
   * `classDiagram`, the user's lines, an empty line, then the fragments (or
   * the placeholder); without user lines the empty line is doubled.
   */
  function GetMermaidDSL(declarations: seq<FileDeclaration>, settings: Settings): (r: string)
    ensures settings.mermaid != [] ==>
      r == Join(["", "classDiagram"] + settings.mermaid + [""] + BodyLines(MermaidEmitter(settings), declarations), "\n")
    ensures settings.mermaid == [] ==>
      r == Join(["", "classDiagram", "", ""] + BodyLines(MermaidEmitter(settings), declarations), "\n")
  {
    var body := BodyLines(MermaidEmitter(settings), declarations);
    EmitIsBodyJoined(MermaidEmitter(settings), declarations);
    JoinAppend(["", "classDiagram"] + settings.mermaid + [""], body, "\n");
    JoinAppend(["", "classDiagram", "", ""], body, "\n");
    MermaidHeader(settings.mermaid) + "\n" + Emitter.Emit(declarations, MermaidEmitter(settings))
  }

  /** `getMermaidDSL` as written: the emission throws on the first association through the detached renderer. */
  function GetMermaidDSLAsWritten(declarations: seq<FileDeclaration>, settings: Settings): (r: Result<string>)
    ensures r.Ok? ==> r.value == GetMermaidDSL(declarations, settings)
    ensures r.Err? <==> Emitter.EmitAsWritten(declarations, MermaidEmitter(settings)).Err?
  {
    match Emitter.EmitAsWritten(declarations, MermaidEmitter(settings))
    case Err(e) => Err(e)
    case Ok(body) => Ok(MermaidHeader(settings.mermaid) + "\n" + body)
  }

  /** The lines of the emitted body: the fragments, or the placeholder alone. */
  function BodyLines(e: Emitter.Emitter, declarations: seq<FileDeclaration>): (r: seq<string>)
    ensures r != []
  {
    var fragments := Emitter.Fragments(e, declarations);
    if fragments == [] then [Emitter.Placeholder] else fragments
  }

  lemma EmitIsBodyJoined(e: Emitter.Emitter, declarations: seq<FileDeclaration>)
    ensures Emitter.Emit(declarations, e) == Join(BodyLines(e, declarations), "\n")
  {
    if Emitter.Fragments(e, declarations) == [] {
      JoinSingle(Emitter.Placeholder, "\n");
    }
  }

  /**
   * When there are fragments and no line holds a newline, splitting the
   * nomnoml document at newlines gives the style lines, the user's lines
   * and the fragments back.
   */
  lemma NomnomlDocumentReadsBack(declarations: seq<FileDeclaration>, settings: Settings)
    requires settings.nomnoml != []
    requires forall i :: 0 <= i < |settings.nomnoml| ==> '\n' !in settings.nomnoml[i]
    requires Emitter.Fragments(NomnomlEmitter(settings), declarations) != []
    requires forall i :: 0 <= i < |Emitter.Fragments(NomnomlEmitter(settings), declarations)| ==>
      '\n' !in Emitter.Fragments(NomnomlEmitter(settings), declarations)[i]
    ensures Split(GetNomnomlDSL(declarations, settings), '\n')
         == NomnomlStyles + settings.nomnoml + Emitter.Fragments(NomnomlEmitter(settings), declarations)
  {
    var frags := Emitter.Fragments(NomnomlEmitter(settings), declarations);
    var lines := NomnomlStyles + settings.nomnoml + frags;
    assert GetNomnomlDSL(declarations, settings) == Join(lines, "\n") by {
      assert BodyLines(NomnomlEmitter(settings), declarations) == frags;
    }
    StylesOneLine();
    forall i | 0 <= i < |lines|
      ensures '\n' !in lines[i]
    {
      if i < 3 {
        assert lines[i] == NomnomlStyles[i];
      } else if i < 3 + |settings.nomnoml| {
        assert lines[i] == settings.nomnoml[i - 3];
      } else {
        assert lines[i] == frags[i - 3 - |settings.nomnoml|];
      }
    }
    SplitJoin(lines, '\n');
  }

  // ---------------------------------------------------------------------
  // Rendering

  /**
   * `renderNomnomlSvgFromDeclarations`: the nomnoml document, rendered by
   * `render`; the SVG gets type links only when `typeLinks` is on and a
   * non-empty diagram path is given (`None` stands for both `null` and
   * `undefined`). Link targets are computed by `relativePath`.
   */
  method RenderNomnomlSvgFromDeclarations(declarations: seq<FileDeclaration>, settings: Settings,
                                          diagramPathForLinks: Option<string>, render: string -> string,
                                          relativePath: (string, string) -> string)
    returns (dsl: string, svg: Result<string>)
    ensures dsl == GetNomnomlDSL(declarations, settings)
    ensures settings.typeLinks && Truthy(diagramPathForLinks) ==>
      svg == Emitter.PostProcessed(render(dsl), diagramPathForLinks.value, declarations, relativePath)
    ensures !(settings.typeLinks && Truthy(diagramPathForLinks)) ==> svg == Ok(render(dsl))
  {
    dsl := GetNomnomlDSL(declarations, settings);
    svg := Ok(render(dsl));
    if settings.typeLinks && Truthy(diagramPathForLinks) {
      svg := Emitter.PostProcessSvg(render(dsl), diagramPathForLinks.value, declarations, relativePath);
    }
  }
}
