/**
 * The Mermaid class-diagram notation: escaping, edges, boxes, members
 * and modifier marks.
 */
module MermaidTemplate {
  import opened Wrappers
  import opened JsString
  import opened Model
  import opened Template

  predicate IsAngle(c: char) {
    c == '<' || c == '>'
  }

  /** `escapeMermaid`: every `<` and `>` becomes `~`; nothing else changes. */
  function EscapeMermaid(s: string): (r: string)
    ensures |r| == |s|
    ensures forall i :: 0 <= i < |s| ==> r[i] == (if IsAngle(s[i]) then '~' else s[i])
    decreases |s|
  {
    if s == [] then [] else [if IsAngle(s[0]) then '~' else s[0]] + EscapeMermaid(s[1..])
  }

  /** An escaped string holds no angle bracket, and escaping it again changes nothing. */
  lemma EscapeMermaidClean(s: string)
    ensures '<' !in EscapeMermaid(s) && '>' !in EscapeMermaid(s)
    ensures EscapeMermaid(EscapeMermaid(s)) == EscapeMermaid(s)
  {
    var r := EscapeMermaid(s);
    assert forall i :: 0 <= i < |r| ==> !IsAngle(r[i]);
  }

  /** A string without angle brackets is left as it is. */
  lemma EscapeMermaidIdentity(s: string)
    requires '<' !in s && '>' !in s
    ensures EscapeMermaid(s) == s
  {
  }

  /** `plainClassOrInterface`: the escaped name. */
  function PlainClassOrInterface(name: string): (r: string)
    ensures r == EscapeMermaid(name)
  {
    EscapeMermaid(name)
  }

  /**
   * `implements`: interface, then the realisation glyph `<|..`, then the
   * implementation. The edge reads back: it splits at its first `<` into the
   * escaped interface, the glyph and the escaped implementation.
   */
  function Implements(interf: string, implementation: string): (r: string)
    ensures |r| == |interf| + 4 + |implementation| && '<' in r && IndexOf(r, '<') == |interf|
    ensures r[..|interf|] == EscapeMermaid(interf) && r[|interf|..|interf| + 4] == "<|.."
    ensures r[|interf| + 4..] == EscapeMermaid(implementation)
  {
    EdgeSplitsAtGlyph(interf, implementation, "<|..");
    PlainClassOrInterface(interf) + "<|.." + PlainClassOrInterface(implementation)
  }

  /**
   * `extends`: base, then the generalisation glyph `<|--`, then the derived
   * type; it splits at its first `<` into the escaped base, the glyph and
   * the escaped derived name.
   */
  function Extends(base: string, derived: string): (r: string)
    ensures |r| == |base| + 4 + |derived| && '<' in r && IndexOf(r, '<') == |base|
    ensures r[..|base|] == EscapeMermaid(base) && r[|base|..|base| + 4] == "<|--"
    ensures r[|base| + 4..] == EscapeMermaid(derived)
  {
    EdgeSplitsAtGlyph(base, derived, "<|--");
    PlainClassOrInterface(base) + "<|--" + PlainClassOrInterface(derived)
  }

  /**
   * Since escaping removes every `<`, an edge splits at its first `<`: the
   * text before it is the escaped first name, the four glyph characters
   * follow, and the rest is the escaped second name.
   */
  lemma EdgeSplitsAtGlyph(x: string, y: string, glyph: string)
    requires |glyph| == 4 && glyph[0] == '<'
    ensures '<' in EscapeMermaid(x) + glyph + EscapeMermaid(y)
    ensures IndexOf(EscapeMermaid(x) + glyph + EscapeMermaid(y), '<') == |x|
    ensures (EscapeMermaid(x) + glyph + EscapeMermaid(y))[..|x|] == EscapeMermaid(x)
    ensures (EscapeMermaid(x) + glyph + EscapeMermaid(y))[|x|..|x| + 4] == glyph
    ensures (EscapeMermaid(x) + glyph + EscapeMermaid(y))[|x| + 4..] == EscapeMermaid(y)
  {
    EscapeMermaidClean(x);
    SplitAtFirstAngle(EscapeMermaid(x), glyph, EscapeMermaid(y));
  }

  lemma SplitAtFirstAngle(ex: string, glyph: string, ey: string)
    requires |glyph| == 4 && glyph[0] == '<' && '<' !in ex
    ensures '<' in ex + glyph + ey
    ensures IndexOf(ex + glyph + ey, '<') == |ex|
    ensures (ex + glyph + ey)[..|ex|] == ex
    ensures (ex + glyph + ey)[|ex|..|ex| + 4] == glyph
    ensures (ex + glyph + ey)[|ex| + 4..] == ey
  {
    var r := ex + glyph + ey;
    assert r[|ex|] == '<';
    assert forall k :: 0 <= k < |ex| ==> r[k] == ex[k];
    IndexOfUnique(r, '<', |ex|);
    assert r[..|ex|] == ex;
    assert r[|ex|..|ex| + 4] == glyph;
  }

  /** The two heritage glyphs never produce the same line. */
  lemma ExtendsIsNotImplements(a: string, b: string, c: string, d: string)
    ensures Extends(a, b) != Implements(c, d)
  {
    var e, i := Extends(a, b), Implements(c, d);
    assert e[IndexOf(e, '<') + 3] == '-';
    assert i[IndexOf(i, '<') + 3] == '.';
  }

  /** The visibility mark: `-` private, else `#` protected, else `+`. */
  function Visibility(flags: ModifierFlags): (mark: string)
    ensures |mark| == 1
    ensures mark == "-" <==> flags.isPrivate
    ensures mark == "#" <==> !flags.isPrivate && flags.isProtected
    ensures mark == "+" <==> !flags.isPrivate && !flags.isProtected
  {
    if flags.isPrivate then "-" else if flags.isProtected then "#" else "+"
  }

  /**
   * `applyModifiers`: the text unchanged when modifiers are off; otherwise
   * one visibility mark in front, then `$` if static and `*` if abstract.
   */
  function ApplyModifiers(settings: TemplateSettings, flags: ModifierFlags, text: string): (r: string)
    ensures !settings.modifiers ==> r == text
    ensures settings.modifiers ==>
      |r| == 1 + |text| + (if flags.isStatic then 1 else 0) + (if flags.isAbstract then 1 else 0)
      && r[..1] == Visibility(flags) && r[1..|text| + 1] == text
      && (flags.isAbstract ==> r[|r| - 1] == '*')
      && (flags.isStatic ==> r[|text| + 1] == '$')
  {
    if !settings.modifiers then text
    else
      var marked := Visibility(flags) + text;
      var withStatic := if flags.isStatic then marked + "$" else marked;
      if flags.isAbstract then withStatic + "*" else withStatic
  }

  /** The type annotation after a member's name: shown only for a non-empty type when member types are on. */
  function TypeShown(settings: TemplateSettings, t: Option<string>): bool {
    Truthy(t) && settings.propertyTypes
  }

  /**
   * `propertyTemplate`: the unescaped name, then, when the type is shown,
   * `?` for an optional property and `: ` with the escaped type; with
   * modifiers on, that text gets its marks (`ApplyModifiers`).
   */
  function PropertyTemplate(settings: TemplateSettings, p: PropertyDetails): (r: string)
    ensures !TypeShown(settings, p.propertyType) ==> r == ApplyModifiers(settings, p.modifierFlags, p.name)
    ensures TypeShown(settings, p.propertyType) ==>
      r == ApplyModifiers(settings, p.modifierFlags,
                          p.name + (if p.optional then "?" else "") + ": " + EscapeMermaid(p.propertyType.value))
    ensures !settings.modifiers && !TypeShown(settings, p.propertyType) ==> r == p.name
    ensures !settings.modifiers && TypeShown(settings, p.propertyType) ==>
      r == p.name + (if p.optional then "?" else "") + ": " + EscapeMermaid(p.propertyType.value)
  {
    var text :=
      if TypeShown(settings, p.propertyType) then
        p.name + (if p.optional then "?" else "") + ": " + EscapeMermaid(p.propertyType.value)
      else p.name;
    ApplyModifiers(settings, p.modifierFlags, text)
  }

  /**
   * `methodTemplate`: `name()`, then a space and the escaped return type when
   * it is shown; with modifiers on, that text gets its marks.
   */
  function MethodTemplate(settings: TemplateSettings, m: MethodDetails): (r: string)
    ensures !TypeShown(settings, m.returnType) ==> r == ApplyModifiers(settings, m.modifierFlags, m.name + "()")
    ensures TypeShown(settings, m.returnType) ==>
      r == ApplyModifiers(settings, m.modifierFlags, m.name + "() " + EscapeMermaid(m.returnType.value))
    ensures !settings.modifiers && !TypeShown(settings, m.returnType) ==> r == m.name + "()"
    ensures !settings.modifiers && TypeShown(settings, m.returnType) ==>
      r == m.name + "() " + EscapeMermaid(m.returnType.value)
  {
    var text :=
      if TypeShown(settings, m.returnType) then m.name + "() " + EscapeMermaid(m.returnType.value)
      else m.name + "()";
    ApplyModifiers(settings, m.modifierFlags, text)
  }

  /** With member types off, no member line carries a type: a method is its marks around `name()`. */
  lemma MethodWithoutTypes(settings: TemplateSettings, m: MethodDetails)
    requires !settings.propertyTypes && settings.modifiers
    ensures MethodTemplate(settings, m)[1..|m.name| + 3] == m.name + "()"
    ensures |MethodTemplate(settings, m)| <= |m.name| + 5
  {
  }

  function PropertyLines(settings: TemplateSettings, props: seq<PropertyDetails>): string {
    Join(seq(|props|, i requires 0 <= i < |props| => PropertyTemplate(settings, props[i])), "\n")
  }

  function MethodLines(settings: TemplateSettings, methods: seq<MethodDetails>): string {
    Join(seq(|methods|, i requires 0 <= i < |methods| => MethodTemplate(settings, methods[i])), "\n")
  }

  /** The body shared by classes, interfaces and types, after the opening line. */
  function MemberBody(settings: TemplateSettings, props: seq<PropertyDetails>, methods: seq<MethodDetails>): string {
    "\n            " + PropertyLines(settings, props) + "\n            " + MethodLines(settings, methods) + "\n        }"
  }

  /**
   * A box opened by `open` and closed by the member body: the compartment
   * between the indented line break after `open` and the closing line is the
   * property lines, an indented line break, and the method lines.
   */
  lemma BodyFramed(open: string, settings: TemplateSettings, props: seq<PropertyDetails>, methods: seq<MethodDetails>)
    ensures |open + MemberBody(settings, props, methods)|
         == |open + "\n            "| + |PropertyLines(settings, props) + "\n            " + MethodLines(settings, methods)| + |"\n        }"|
    ensures (open + MemberBody(settings, props, methods))[|open + "\n            "|..|open + MemberBody(settings, props, methods)| - |"\n        }"|]
         == PropertyLines(settings, props) + "\n            " + MethodLines(settings, methods)
  {
    var m := PropertyLines(settings, props) + "\n            " + MethodLines(settings, methods);
    assert open + MemberBody(settings, props, methods) == (open + "\n            ") + m + "\n        }";
    Framed(open + "\n            ", m, "\n        }");
  }

  /**
   * `class`: `class <name>{`, the property lines, the method lines, `}`; the
   * text between the opening line and the closing line is exactly the
   * property lines and the method lines.
   */
  function ClassBox(settings: TemplateSettings, name: string, props: seq<PropertyDetails>, methods: seq<MethodDetails>): (r: string)
    ensures StartsWith(r, "class " + EscapeMermaid(name) + "{\n")
    ensures EndsWith(r, "\n        }")
    ensures |r| == |"class " + EscapeMermaid(name) + "{\n            "|
                 + |PropertyLines(settings, props) + "\n            " + MethodLines(settings, methods)| + |"\n        }"|
    ensures r[|"class " + EscapeMermaid(name) + "{\n            "|..|r| - |"\n        }"|]
         == PropertyLines(settings, props) + "\n            " + MethodLines(settings, methods)
  {
    BodyFramed("class " + EscapeMermaid(name) + "{", settings, props, methods);
    "class " + EscapeMermaid(name) + "{" + MemberBody(settings, props, methods)
  }

  /** `interface`: like a class with a space before `{` and the `<<interface>>` stereotype. */
  function InterfaceBox(settings: TemplateSettings, name: string, props: seq<PropertyDetails>, methods: seq<MethodDetails>): (r: string)
    ensures StartsWith(r, "class " + EscapeMermaid(name) + " {\n            <<interface>>\n")
    ensures EndsWith(r, "\n        }")
    ensures |r| == |"class " + EscapeMermaid(name) + " {\n            <<interface>>\n            "|
                 + |PropertyLines(settings, props) + "\n            " + MethodLines(settings, methods)| + |"\n        }"|
    ensures r[|"class " + EscapeMermaid(name) + " {\n            <<interface>>\n            "|..|r| - |"\n        }"|]
         == PropertyLines(settings, props) + "\n            " + MethodLines(settings, methods)
  {
    BodyFramed("class " + EscapeMermaid(name) + " {\n            <<interface>>", settings, props, methods);
    "class " + EscapeMermaid(name) + " {\n            <<interface>>" + MemberBody(settings, props, methods)
  }

  /** `type`: like an interface with the `<<type>>` stereotype. */
  function TypeBox(settings: TemplateSettings, name: string, props: seq<PropertyDetails>, methods: seq<MethodDetails>): (r: string)
    ensures StartsWith(r, "class " + EscapeMermaid(name) + " {\n            <<type>>\n")
    ensures EndsWith(r, "\n        }")
    ensures |r| == |"class " + EscapeMermaid(name) + " {\n            <<type>>\n            "|
                 + |PropertyLines(settings, props) + "\n            " + MethodLines(settings, methods)| + |"\n        }"|
    ensures r[|"class " + EscapeMermaid(name) + " {\n            <<type>>\n            "|..|r| - |"\n        }"|]
         == PropertyLines(settings, props) + "\n            " + MethodLines(settings, methods)
  {
    BodyFramed("class " + EscapeMermaid(name) + " {\n            <<type>>", settings, props, methods);
    "class " + EscapeMermaid(name) + " {\n            <<type>>" + MemberBody(settings, props, methods)
  }

  /**
   * `enum`: the `<<enumeration>>` stereotype, then the items one per line,
   * unescaped; between the stereotype line and the closing line there is
   * exactly the joined items.
   */
  function EnumBox(name: string, items: seq<string>): (r: string)
    ensures StartsWith(r, "class " + EscapeMermaid(name) + " {\n        <<enumeration>>\n        ")
    ensures EndsWith(r, Join(items, "\n") + "\n      }")
    ensures |r| == |"class " + EscapeMermaid(name) + " {\n        <<enumeration>>\n        "| + |Join(items, "\n")| + |"\n      }"|
    ensures r[|"class " + EscapeMermaid(name) + " {\n        <<enumeration>>\n        "|..|r| - |"\n      }"|] == Join(items, "\n")
  {
    Framed("class " + EscapeMermaid(name) + " {\n        <<enumeration>>\n        ", Join(items, "\n"), "\n      }");
    "class " + EscapeMermaid(name) + " {\n        <<enumeration>>\n        " + Join(items, "\n") + "\n      }"
  }

  /** A multiplicity text in quotes, or nothing when it is unset or empty. */
  function QuotedMultiplicity(m: Option<string>): (r: string)
    ensures Truthy(m) ==> r == "\"" + m.value + "\""
    ensures !Truthy(m) ==> r == ""
  {
    if Truthy(m) then "\"" + m.value + "\"" else ""
  }

  /** `memberAssociation`: the two escaped names around `--`, each with its optional quoted text. */
  function MemberAssociation(association: Model.MemberAssociation): (r: string)
    ensures StartsWith(r, EscapeMermaid(association.a.name) + " ")
    ensures EndsWith(r, " " + EscapeMermaid(association.b.name))
    ensures |r| == |EscapeMermaid(association.a.name)| + 1
                 + |QuotedMultiplicity(association.a.multiplicity) + " -- " + QuotedMultiplicity(association.b.multiplicity)|
                 + 1 + |EscapeMermaid(association.b.name)|
    ensures r[|EscapeMermaid(association.a.name)| + 1..|r| - |EscapeMermaid(association.b.name)| - 1]
         == QuotedMultiplicity(association.a.multiplicity) + " -- " + QuotedMultiplicity(association.b.multiplicity)
  {
    var head := EscapeMermaid(association.a.name) + " ";
    var middle := QuotedMultiplicity(association.a.multiplicity) + " -- " + QuotedMultiplicity(association.b.multiplicity);
    var tail := " " + EscapeMermaid(association.b.name);
    Framed(head, middle, tail);
    ConnectorRegrouped(EscapeMermaid(association.a.name), QuotedMultiplicity(association.a.multiplicity),
                       QuotedMultiplicity(association.b.multiplicity), EscapeMermaid(association.b.name));
    PlainClassOrInterface(association.a.name)
      + Connector(association.a.multiplicity, association.b.multiplicity)
      + PlainClassOrInterface(association.b.name)
  }

  /** The text between the two names: ` <source text> -- <target text> `. */
  function Connector(source: Option<string>, target: Option<string>): string {
    " " + QuotedMultiplicity(source) + " -- " + QuotedMultiplicity(target) + " "
  }

  /** The connector's outer spaces belong to the names beside it. */
  lemma ConnectorRegrouped(x: string, q1: string, q2: string, y: string)
    ensures x + (" " + q1 + " -- " + q2 + " ") + y == (x + " ") + (q1 + " -- " + q2) + (" " + y)
  {
  }

  /** Without labels an association is the two names around `  --  ` (two spaces on each side). */
  lemma UnlabelledAssociation(association: Model.MemberAssociation)
    requires !Truthy(association.a.multiplicity) && !Truthy(association.b.multiplicity)
    ensures MemberAssociation(association)
         == EscapeMermaid(association.a.name) + "  --  " + EscapeMermaid(association.b.name)
  {
  }

  /** A collection end shows its text in quotes next to its own name. */
  lemma LabelledTargetEnd(association: Model.MemberAssociation)
    requires !Truthy(association.a.multiplicity) && association.b.multiplicity == Some("0..*")
    ensures MemberAssociation(association)
         == EscapeMermaid(association.a.name) + "  -- \"0..*\" " + EscapeMermaid(association.b.name)
  {
    CollectionConnector(association.a.multiplicity, association.b.multiplicity);
  }

  /** The connector of an edge whose target end is a collection. */
  lemma CollectionConnector(source: Option<string>, target: Option<string>)
    requires !Truthy(source) && target == Some("0..*")
    ensures Connector(source, target) == "  -- \"0..*\" "
  {
    assert QuotedMultiplicity(source) == "";
    assert QuotedMultiplicity(target) == "\"0..*\"";
  }

  /** The Mermaid notation as a capability record; its association renderer reads `this`. */
  function Mermaid(settings: TemplateSettings): (t: Template)
    ensures t.composition == "+->" && t.associationReadsReceiver
  {
    Template(
      "+->",
      (interf, implementation) => Implements(interf, implementation),
      (base, derived) => Extends(base, derived),
      name => PlainClassOrInterface(name),
      (name, props, methods) => ClassBox(settings, name, props, methods),
      (name, props, methods) => InterfaceBox(settings, name, props, methods),
      (name, props, methods) => TypeBox(settings, name, props, methods),
      (name, items) => EnumBox(name, items),
      association => MemberAssociation(association),
      true)
  }
}
