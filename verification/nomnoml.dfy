/**
 * The nomnoml notation: escaping of member types, edges, boxes, members
 * and modifier marks. The notation reads the two rendering switches from
 * global settings; here they are the `settings` parameter.
 */
module NomnomlTemplate {
  import opened Wrappers
  import opened JsString
  import opened Model
  import opened Template

  /** The characters nomnoml's grammar gives a meaning to: `|`, `[`, `]` and `#`. */
  predicate IsSpecial(c: char) {
    c == '|' || c == '[' || c == ']' || c == '#'
  }

  /** `escapeNomnoml`: a backslash in front of every special character, all else unchanged. */
  function EscapeNomnoml(s: string): (r: string)
    ensures |r| >= |s|
    ensures (forall i :: 0 <= i < |s| ==> !IsSpecial(s[i])) ==> r == s
    ensures r != [] ==> !IsSpecial(r[0])
    ensures forall i :: 0 <= i < |r| && IsSpecial(r[i]) ==> i > 0 && r[i - 1] == '\\'
    decreases |s|
  {
    if s == [] then []
    else if IsSpecial(s[0]) then ['\\', s[0]] + EscapeNomnoml(s[1..])
    else [s[0]] + EscapeNomnoml(s[1..])
  }

  /** Removes the backslash in front of each special character. */
  function UnescapeNomnoml(r: string): string
    decreases |r|
  {
    if r == [] then []
    else if |r| >= 2 && r[0] == '\\' && IsSpecial(r[1]) then [r[1]] + UnescapeNomnoml(r[2..])
    else [r[0]] + UnescapeNomnoml(r[1..])
  }

  /** The escape loses nothing: unescaping gives the original text back. */
  lemma {:induction false} EscapeRoundTrip(s: string)
    ensures UnescapeNomnoml(EscapeNomnoml(s)) == s
    decreases |s|
  {
    if s != [] {
      EscapeRoundTrip(s[1..]);
      var rest := EscapeNomnoml(s[1..]);
      if IsSpecial(s[0]) {
        UnescapePair(s[0], rest);
      } else {
        UnescapePlain(s[0], rest);
      }
      assert [s[0]] + s[1..] == s;
    }
  }

  /** An escaped special character unescapes to itself. */
  lemma UnescapePair(c: char, rest: string)
    requires IsSpecial(c)
    ensures UnescapeNomnoml(['\\', c] + rest) == [c] + UnescapeNomnoml(rest)
  {
    assert (['\\', c] + rest)[2..] == rest;
  }

  /** A plain character not followed by a special one unescapes to itself. */
  lemma UnescapePlain(c: char, rest: string)
    requires !IsSpecial(c) && (rest == [] || !IsSpecial(rest[0]))
    ensures UnescapeNomnoml([c] + rest) == [c] + UnescapeNomnoml(rest)
  {
    assert ([c] + rest)[1..] == rest;
  }

  /** Escaping is not idempotent: text with a special character grows again when escaped twice. */
  lemma {:induction false} EscapeGrows(s: string, i: nat)
    requires i < |s| && IsSpecial(s[i])
    ensures |EscapeNomnoml(s)| > |s|
    decreases |s|
  {
    if i > 0 {
      EscapeGrows(s[1..], i - 1);
    }
  }

  lemma EscapeTwiceDiffers(s: string, i: nat)
    requires i < |s| && IsSpecial(s[i])
    ensures EscapeNomnoml(EscapeNomnoml(s)) != EscapeNomnoml(s)
  {
    EscapeGrows(s, i);
    var r := EscapeNomnoml(s);
    var j :| 0 <= j < |r| && IsSpecial(r[j]) by {
      SpecialSurvives(s, i);
    }
    EscapeGrows(r, j);
  }

  /** Escaping keeps every special character (behind its backslash). */
  lemma {:induction false} SpecialSurvives(s: string, i: nat)
    requires i < |s| && IsSpecial(s[i])
    ensures exists j :: 0 <= j < |EscapeNomnoml(s)| && IsSpecial(EscapeNomnoml(s)[j])
    decreases |s|
  {
    if i == 0 {
      assert IsSpecial(EscapeNomnoml(s)[1]);
    } else {
      SpecialSurvives(s[1..], i - 1);
      var rest := EscapeNomnoml(s[1..]);
      var j :| 0 <= j < |rest| && IsSpecial(rest[j]);
      var k := if IsSpecial(s[0]) then 2 else 1;
      assert EscapeNomnoml(s)[j + k] == rest[j];
    }
  }

  /** `plainClassOrInterface`: the name in brackets, not escaped. */
  function PlainClassOrInterface(name: string): (r: string)
    ensures |r| == |name| + 2 && r[0] == '[' && r[|r| - 1] == ']' && r[1..|r| - 1] == name
  {
    "[" + name + "]"
  }

  /**
   * `implements`: `[interface]<:--[implementation]`. For an interface name
   * without `]` the edge reads back: the first `]` closes that name.
   */
  function Implements(interf: string, implementation: string): (r: string)
    ensures |r| == |interf| + |implementation| + 8
    ensures r[..|interf| + 2] == PlainClassOrInterface(interf) && r[|interf| + 2..|interf| + 6] == "<:--"
    ensures r[|interf| + 6..] == PlainClassOrInterface(implementation)
    ensures ']' !in interf ==> IndexOf(r, ']') == |interf| + 1
  {
    var r := PlainClassOrInterface(interf) + "<:--" + PlainClassOrInterface(implementation);
    EdgeSplit(interf, "<:--", implementation);
    r
  }

  /**
   * `extends`: `[base]<:-[derived]`; the glyph after the first name is
   * `<:-[`, which tells it from `implements` (`<:--`).
   */
  function Extends(base: string, derived: string): (r: string)
    ensures |r| == |base| + |derived| + 7
    ensures r[..|base| + 2] == PlainClassOrInterface(base) && r[|base| + 2..|base| + 5] == "<:-"
    ensures r[|base| + 5..] == PlainClassOrInterface(derived) && r[|base| + 5] == '['
    ensures ']' !in base ==> IndexOf(r, ']') == |base| + 1
  {
    var r := PlainClassOrInterface(base) + "<:-" + PlainClassOrInterface(derived);
    EdgeSplit(base, "<:-", derived);
    r
  }

  /** An edge `[x]<glyph>[y]` splits into its three parts; the first `]` closes `x` when `x` has none. */
  lemma EdgeSplit(x: string, glyph: string, y: string)
    requires ']' !in glyph
    ensures var r := PlainClassOrInterface(x) + glyph + PlainClassOrInterface(y);
      r[..|x| + 2] == PlainClassOrInterface(x) && r[|x| + 2..|x| + 2 + |glyph|] == glyph
      && r[|x| + 2 + |glyph|..] == PlainClassOrInterface(y)
      && (']' !in x ==> ']' in r && IndexOf(r, ']') == |x| + 1)
  {
    var r := PlainClassOrInterface(x) + glyph + PlainClassOrInterface(y);
    assert r[..|x| + 2] == PlainClassOrInterface(x);
    assert r[|x| + 2..|x| + 2 + |glyph|] == glyph;
    assert r[|x| + 2 + |glyph|..] == PlainClassOrInterface(y);
    if ']' !in x {
      assert forall k :: 1 <= k <= |x| ==> r[k] == x[k - 1];
      IndexOfUnique(r, ']', |x| + 1);
    }
  }

  /** The visibility mark: `-` private, else `\#` protected, else `+`. */
  function Visibility(flags: ModifierFlags): (mark: string)
    ensures mark == "-" <==> flags.isPrivate
    ensures mark == "\\#" <==> !flags.isPrivate && flags.isProtected
    ensures mark == "+" <==> !flags.isPrivate && !flags.isProtected
  {
    if flags.isPrivate then "-" else if flags.isProtected then "\\#" else "+"
  }

  /**
   * `modifierTemplate`: nothing when modifiers are off; otherwise the
   * visibility mark, then `abstract ` for an abstract member, else
   * `static ` for a static one. Abstract replaces static.
   */
  function ModifierTemplate(settings: TemplateSettings, flags: ModifierFlags): (r: string)
    ensures !settings.modifiers ==> r == ""
    ensures settings.modifiers && flags.isAbstract ==> r == Visibility(flags) + "abstract "
    ensures settings.modifiers && !flags.isAbstract && flags.isStatic ==> r == Visibility(flags) + "static "
    ensures settings.modifiers && !flags.isAbstract && !flags.isStatic ==> r == Visibility(flags)
  {
    if !settings.modifiers then ""
    else
      var keyword := if flags.isStatic then "static " else "";
      var keyword' := if flags.isAbstract then "abstract " else keyword;
      Visibility(flags) + keyword'
  }

  /** `escapePropertyDetails`: the record with a non-empty type replaced by its escaped form. */
  function EscapePropertyDetails(p: PropertyDetails): (r: PropertyDetails)
    ensures r.name == p.name && r.modifierFlags == p.modifierFlags && r.optional == p.optional && r.typeIds == p.typeIds
    ensures Truthy(p.propertyType) ==> r.propertyType == Some(EscapeNomnoml(p.propertyType.value))
    ensures !Truthy(p.propertyType) ==> r == p
  {
    if Truthy(p.propertyType) then p.(propertyType := Some(EscapeNomnoml(p.propertyType.value))) else p
  }

  /** `escapeMethodDetails`: the record with a non-empty return type replaced by its escaped form. */
  function EscapeMethodDetails(m: MethodDetails): (r: MethodDetails)
    ensures r.name == m.name && r.modifierFlags == m.modifierFlags && r.returnTypeIds == m.returnTypeIds
    ensures Truthy(m.returnType) ==> r.returnType == Some(EscapeNomnoml(m.returnType.value))
    ensures !Truthy(m.returnType) ==> r == m
  {
    if Truthy(m.returnType) then m.(returnType := Some(EscapeNomnoml(m.returnType.value))) else m
  }

  /** The type annotation after a member's name: shown only for a non-empty type when member types are on. */
  function TypeShown(settings: TemplateSettings, t: Option<string>): bool {
    Truthy(t) && settings.propertyTypes
  }

  /** The property text rendered from a record as it stands. */
  function PropertyText(settings: TemplateSettings, p: PropertyDetails): string {
    if TypeShown(settings, p.propertyType)
    then ModifierTemplate(settings, p.modifierFlags) + p.name + (if p.optional then "?" else "") + ": " + p.propertyType.value
    else ModifierTemplate(settings, p.modifierFlags) + p.name
  }

  /** The method text rendered from a record as it stands. */
  function MethodText(settings: TemplateSettings, m: MethodDetails): string {
    if TypeShown(settings, m.returnType)
    then ModifierTemplate(settings, m.modifierFlags) + m.name + "()" + ": " + m.returnType.value
    else ModifierTemplate(settings, m.modifierFlags) + m.name + "()"
  }

  /**
   * `propertyTemplate` as written: the text is rendered from the escaped
   * record, and the escaped record is what the caller's object holds
   * afterwards (the second component).
   */
  function PropertyTemplateAsWritten(settings: TemplateSettings, p: PropertyDetails): (r: (string, PropertyDetails))
    ensures r.1 == EscapePropertyDetails(p)
    ensures r.0 == PropertyText(settings, r.1)
  {
    var escaped := EscapePropertyDetails(p);
    (PropertyText(settings, escaped), escaped)
  }

  /** `methodTemplate` as written: rendered from, and leaving behind, the escaped record. */
  function MethodTemplateAsWritten(settings: TemplateSettings, m: MethodDetails): (r: (string, MethodDetails))
    ensures r.1 == EscapeMethodDetails(m)
    ensures r.0 == MethodText(settings, r.1)
  {
    var escaped := EscapeMethodDetails(m);
    (MethodText(settings, escaped), escaped)
  }

  /**
   * Because the escape is written back, rendering the same property a second
   * time (a second nomnoml emission of the same declarations) escapes its
   * type again: the two texts differ as soon as the shown type holds a
   * special character.
   */
  lemma SecondRenderingDiffers(settings: TemplateSettings, p: PropertyDetails, i: nat)
    requires TypeShown(settings, p.propertyType)
    requires i < |p.propertyType.value| && IsSpecial(p.propertyType.value[i])
    ensures PropertyTemplateAsWritten(settings, PropertyTemplateAsWritten(settings, p).1).0
         != PropertyTemplateAsWritten(settings, p).0
  {
    var t := p.propertyType.value;
    var j := SomeSpecial(t, i);
    EscapeGrows(EscapeNomnoml(t), j);
  }

  /** The position of a special character in the escaped text. */
  lemma SomeSpecial(s: string, i: nat) returns (j: nat)
    requires i < |s| && IsSpecial(s[i])
    ensures j < |EscapeNomnoml(s)| && IsSpecial(EscapeNomnoml(s)[j])
  {
    SpecialSurvives(s, i);
    j :| 0 <= j < |EscapeNomnoml(s)| && IsSpecial(EscapeNomnoml(s)[j]);
  }

  /**
   * `propertyTemplate` without the write-back: the modifier mark, the
   * unescaped name, and, when the type is shown, `?` for an optional
   * property and `: ` with the type escaped exactly once. The record is
   * left as it was, so every rendering gives the same text.
   */
  function PropertyTemplate(settings: TemplateSettings, p: PropertyDetails): (r: string)
    ensures r == PropertyTemplateAsWritten(settings, p).0
    ensures TypeShown(settings, p.propertyType) ==>
      r == ModifierTemplate(settings, p.modifierFlags) + p.name + (if p.optional then "?" else "") + ": "
           + EscapeNomnoml(p.propertyType.value)
    ensures !TypeShown(settings, p.propertyType) ==> r == ModifierTemplate(settings, p.modifierFlags) + p.name
  {
    PropertyText(settings, EscapePropertyDetails(p))
  }

  /** `methodTemplate` without the write-back: `name()` and, when shown, `: ` with the return type escaped once. */
  function MethodTemplate(settings: TemplateSettings, m: MethodDetails): (r: string)
    ensures r == MethodTemplateAsWritten(settings, m).0
    ensures TypeShown(settings, m.returnType) ==>
      r == ModifierTemplate(settings, m.modifierFlags) + m.name + "()" + ": " + EscapeNomnoml(m.returnType.value)
    ensures !TypeShown(settings, m.returnType) ==> r == ModifierTemplate(settings, m.modifierFlags) + m.name + "()"
  {
    MethodText(settings, EscapeMethodDetails(m))
  }

  /** The type text of a rendered property can be recovered: it is escaped once, not twice. */
  lemma PropertyTypeRecoverable(settings: TemplateSettings, p: PropertyDetails)
    requires TypeShown(settings, p.propertyType)
    ensures var r := PropertyTemplate(settings, p);
      var k := |ModifierTemplate(settings, p.modifierFlags) + p.name + (if p.optional then "?" else "") + ": "|;
      k <= |r| && UnescapeNomnoml(r[k..]) == p.propertyType.value
  {
    var prefix := ModifierTemplate(settings, p.modifierFlags) + p.name + (if p.optional then "?" else "") + ": ";
    var r := PropertyTemplate(settings, p);
    assert r[|prefix|..] == EscapeNomnoml(p.propertyType.value);
    EscapeRoundTrip(p.propertyType.value);
  }

  /** The properties compartment of a box: one line per property, separated by `;`. */
  function PropertyLines(settings: TemplateSettings, props: seq<PropertyDetails>): string {
    Join(PropertyTexts(settings, props), ";")
  }

  function PropertyTexts(settings: TemplateSettings, props: seq<PropertyDetails>): (lines: seq<string>)
    ensures |lines| == |props| && forall i :: 0 <= i < |props| ==> lines[i] == PropertyTemplate(settings, props[i])
  {
    seq(|props|, i requires 0 <= i < |props| => PropertyTemplate(settings, props[i]))
  }

  /**
   * The properties compartment reads back: when no property line holds a
   * `;`, splitting it at `;` gives each property's line, in order.
   */
  lemma PropertyLinesReadBack(settings: TemplateSettings, props: seq<PropertyDetails>)
    requires props != []
    requires forall i :: 0 <= i < |props| ==> ';' !in PropertyTemplate(settings, props[i])
    ensures |Split(PropertyLines(settings, props), ';')| == |props|
    ensures forall i :: 0 <= i < |props| ==> Split(PropertyLines(settings, props), ';')[i] == PropertyTemplate(settings, props[i])
  {
    SplitJoin(PropertyTexts(settings, props), ';');
  }

  function MethodLines(settings: TemplateSettings, methods: seq<MethodDetails>): string {
    Join(seq(|methods|, i requires 0 <= i < |methods| => MethodTemplate(settings, methods[i])), ";")
  }

  /** `class`: `[name|properties|methods]`, members separated by `;`. */
  function ClassBox(settings: TemplateSettings, name: string, props: seq<PropertyDetails>, methods: seq<MethodDetails>): (r: string)
    ensures StartsWith(r, "[" + name + "|") && EndsWith(r, "|" + MethodLines(settings, methods) + "]")
    ensures |r| == |"[" + name + "|"| + |PropertyLines(settings, props)| + |MethodLines(settings, methods)| + 2
    ensures r[|"[" + name + "|"|..|"[" + name + "|"| + |PropertyLines(settings, props)|] == PropertyLines(settings, props)
  {
    var head, tail := "[" + name + "|", "|" + MethodLines(settings, methods) + "]";
    Framed(head, PropertyLines(settings, props), tail);
    head + PropertyLines(settings, props) + tail
  }

  /** `interface`: a class box tagged `<interface>`. */
  function InterfaceBox(settings: TemplateSettings, name: string, props: seq<PropertyDetails>, methods: seq<MethodDetails>): (r: string)
    ensures StartsWith(r, "[<interface>" + name + "|") && EndsWith(r, "|" + MethodLines(settings, methods) + "]")
    ensures |r| == |"[<interface>" + name + "|"| + |PropertyLines(settings, props)| + |MethodLines(settings, methods)| + 2
    ensures r[|"[<interface>" + name + "|"|..|"[<interface>" + name + "|"| + |PropertyLines(settings, props)|] == PropertyLines(settings, props)
  {
    var head, tail := "[<interface>" + name + "|", "|" + MethodLines(settings, methods) + "]";
    Framed(head, PropertyLines(settings, props), tail);
    head + PropertyLines(settings, props) + tail
  }

  /** `type`: a class box tagged `<type>`. */
  function TypeBox(settings: TemplateSettings, name: string, props: seq<PropertyDetails>, methods: seq<MethodDetails>): (r: string)
    ensures StartsWith(r, "[<type>" + name + "|") && EndsWith(r, "|" + MethodLines(settings, methods) + "]")
    ensures |r| == |"[<type>" + name + "|"| + |PropertyLines(settings, props)| + |MethodLines(settings, methods)| + 2
    ensures r[|"[<type>" + name + "|"|..|"[<type>" + name + "|"| + |PropertyLines(settings, props)|] == PropertyLines(settings, props)
  {
    var head, tail := "[<type>" + name + "|", "|" + MethodLines(settings, methods) + "]";
    Framed(head, PropertyLines(settings, props), tail);
    head + PropertyLines(settings, props) + tail
  }

  /** `enum`: `[<enumeration>name|items]`, items separated by `;`. */
  function EnumBox(name: string, items: seq<string>): (r: string)
    ensures StartsWith(r, "[<enumeration>" + name + "|") && EndsWith(r, Join(items, ";") + "]")
    ensures |r| == |"[<enumeration>" + name + "|"| + |Join(items, ";")| + 1
    ensures r[|"[<enumeration>" + name + "|"|..|r| - 1] == Join(items, ";")
  {
    Framed("[<enumeration>" + name + "|", Join(items, ";"), "]");
    "[<enumeration>" + name + "|" + Join(items, ";") + "]"
  }

  /** A box's name is everything between the tag and the first `|`, for a name without `|`. */
  lemma ClassBoxName(settings: TemplateSettings, name: string, props: seq<PropertyDetails>, methods: seq<MethodDetails>)
    requires '|' !in name
    ensures IndexOf(ClassBox(settings, name, props, methods), '|') == |name| + 1
    ensures ClassBox(settings, name, props, methods)[1..|name| + 1] == name
  {
    var r := ClassBox(settings, name, props, methods);
    assert forall k :: 1 <= k <= |name| ==> r[k] == name[k - 1];
    IndexOfUnique(r, '|', |name| + 1);
  }

  /** An unset multiplicity renders as nothing (`?? ''`); a set one, even empty, as itself. */
  function MultiplicityText(m: Option<string>): (r: string)
    ensures m.None? ==> r == ""
    ensures m.Some? ==> r == m.value
  {
    match m
    case None => ""
    case Some(v) => v
  }

  /** `memberAssociation`: `[a] <a-label> - <b-label> [b]`. */
  function MemberAssociation(association: Model.MemberAssociation): (r: string)
    ensures StartsWith(r, PlainClassOrInterface(association.a.name) + " ")
    ensures EndsWith(r, " " + PlainClassOrInterface(association.b.name))
    ensures |r| == |PlainClassOrInterface(association.a.name)| + 1
                 + |MultiplicityText(association.a.multiplicity) + " - " + MultiplicityText(association.b.multiplicity)|
                 + 1 + |PlainClassOrInterface(association.b.name)|
    ensures r[|PlainClassOrInterface(association.a.name)| + 1..|r| - |PlainClassOrInterface(association.b.name)| - 1]
         == MultiplicityText(association.a.multiplicity) + " - " + MultiplicityText(association.b.multiplicity)
  {
    var head, tail := PlainClassOrInterface(association.a.name) + " ", " " + PlainClassOrInterface(association.b.name);
    var middle := MultiplicityText(association.a.multiplicity) + " - " + MultiplicityText(association.b.multiplicity);
    Framed(head, middle, tail);
    assert head + middle + tail
        == PlainClassOrInterface(association.a.name) + " " + MultiplicityText(association.a.multiplicity)
           + " - " + MultiplicityText(association.b.multiplicity) + " " + PlainClassOrInterface(association.b.name);
    head + middle + tail
  }

  /** A collection-valued target end: `[A]  - 0..* [B]`. */
  lemma CollectionAssociation(association: Model.MemberAssociation)
    requires association.a.multiplicity.None? && association.b.multiplicity == Some("0..*")
    ensures MemberAssociation(association) == "[" + association.a.name + "]  - 0..* [" + association.b.name + "]"
  {
  }

  /** The nomnoml notation as a capability record; its association renderer needs no receiver. */
  function Nomnoml(settings: TemplateSettings): (t: Template)
    ensures t.composition == "+->" && !t.associationReadsReceiver
  {
    Template(
      "+->",
      (interf, implementation) => Implements(interf, implementation),
      (base, derived) => Extends(base, derived),
      name => PlainClassOrInterface(name),
      (name, props, methods) => ClassBox(settings, name, props, methods),
      (name, props, methods) => InterfaceBox(settings, name, props, methods),
      (name, props, methods) => TypeBox(settings, name, props, methods),
      (name, items) => EnumBox(name, items),
      association => MemberAssociation(association),
      false)
  }
}
