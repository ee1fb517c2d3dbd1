/**
 * The parts of the declaration parser that do not depend on the TypeScript
 * compiler: type ids, the walk over a type's structure that collects the ids
 * it refers to, the optional-property suffix, the generic-parameter suffix,
 * and the order in which properties, heritage clauses and enum items are
 * assembled. Compiler objects (symbols, types, declarations) are given here
 * as plain data holding exactly the answers the parser asks of them.
 */
module Parser {
  import opened Wrappers
  import opened JsString
  import opened Model
  import opened JsArray

  /** A source file as the parser sees it: its directory and its base name. */
  datatype SourceFile = SourceFile(directoryPath: string, baseNameWithoutExtension: string)

  /** A compiler symbol: its fully qualified name and the file of its first declaration. */
  datatype Symbol = Symbol(fullyQualifiedName: string, declarationFile: SourceFile)

  /**
   * A compiler type, by the first of the parser's tests it passes
   * (class or interface, enum, union or intersection, array, anonymous,
   * type parameter, anything else).
   */
  datatype TsType =
    | ClassOrInterfaceType(symbol: Option<Symbol>)
    | EnumType(symbol: Option<Symbol>)
    | UnionOrIntersectionType(unionTypes: seq<TsType>, intersectionTypes: seq<TsType>)
    | ArrayType(elementType: Option<TsType>)
    | AnonymousType(aliasSymbol: Option<Symbol>)
    | TypeParameterType
    | OtherType(symbol: Option<Symbol>)

  /**
   * `getTypeIdFromTypeName`: a name that already starts with a double quote
   * is an id; any other name is qualified with the quoted file path.
   */
  function GetTypeIdFromTypeName(sourceFile: SourceFile, typeName: string): (id: string)
    ensures StartsWith(id, "\"")
    ensures StartsWith(typeName, "\"") ==> id == typeName
    ensures !StartsWith(typeName, "\"") ==> EndsWith(id, "." + typeName)
  {
    if StartsWith(typeName, "\"") then typeName
    else "\"" + sourceFile.directoryPath + "/" + sourceFile.baseNameWithoutExtension + "\"." + typeName
  }

  /** Every id starts with a quote, so qualifying an id again changes nothing. */
  lemma TypeIdIdempotent(sourceFile: SourceFile, other: SourceFile, typeName: string)
    ensures GetTypeIdFromTypeName(other, GetTypeIdFromTypeName(sourceFile, typeName))
         == GetTypeIdFromTypeName(sourceFile, typeName)
  {
  }

  /**
   * A qualified id leads back to its file: for a directory, base name and
   * type name without quotes or line breaks, the quoted part of the id is
   * the file path, so the link target is `<dir>/<base>.ts`.
   */
  lemma TypeIdLeadsToSourceFile(sourceFile: SourceFile, typeName: string)
    requires '"' !in sourceFile.directoryPath && '"' !in sourceFile.baseNameWithoutExtension && '"' !in typeName
    requires NoLineTerminator(sourceFile.directoryPath) && NoLineTerminator(sourceFile.baseNameWithoutExtension)
    requires NoLineTerminator(typeName)
    ensures TargetSourceFile(GetTypeIdFromTypeName(sourceFile, typeName))
         == Some(sourceFile.directoryPath + "/" + sourceFile.baseNameWithoutExtension + ".ts")
  {
    var dir, base := sourceFile.directoryPath, sourceFile.baseNameWithoutExtension;
    var path := dir + "/" + base;
    var rest := "." + typeName;
    forall k | 0 <= k < |path|
      ensures path[k] != '"' && !IsLineTerminator(path[k])
    {
      if k < |dir| {
        assert path[k] == dir[k];
      } else if k > |dir| {
        assert path[k] == base[k - |dir| - 1];
      }
    }
    forall k | 0 <= k < |rest|
      ensures rest[k] != '"' && !IsLineTerminator(rest[k])
    {
      if k > 0 {
        assert rest[k] == typeName[k - 1];
      }
    }
    assert !StartsWith(typeName, "\"") by {
      if |typeName| >= 1 {
        assert typeName[..1][0] == typeName[0] != '"';
      }
    }
    assert GetTypeIdFromTypeName(sourceFile, typeName) == "\"" + path + "\"" + rest;
    QuotedPathTarget(path, rest);
  }

  /**
   * `getFullyQualifiedNameNormalized`: no symbol gives no id; a fully
   * qualified name without the quoted module prefix is qualified with the
   * file of the symbol's first declaration.
   */
  function GetFullyQualifiedNameNormalized(symbol: Option<Symbol>): (id: Option<string>)
    ensures id.Some? <==> symbol.Some?
    ensures id.Some? ==> StartsWith(id.value, "\"")
    ensures id.Some? && StartsWith(symbol.value.fullyQualifiedName, "\"") ==> id.value == symbol.value.fullyQualifiedName
  {
    match symbol
    case None => None
    case Some(s) =>
      if StartsWith(s.fullyQualifiedName, "\"") then Some(s.fullyQualifiedName)
      else Some(GetTypeIdFromTypeName(s.declarationFile, s.fullyQualifiedName))
  }

  /** The ids an optional symbol contributes: none when it is missing (the final `filter`). */
  function IdOf(symbol: Option<Symbol>): (ids: seq<string>)
    ensures |ids| == (if symbol.Some? then 1 else 0)
    ensures symbol.Some? ==> ids == [GetFullyQualifiedNameNormalized(symbol).value]
  {
    match GetFullyQualifiedNameNormalized(symbol)
    case None => []
    case Some(id) => [id]
  }

  /** Every id of a list starts with a double quote. */
  predicate AllQuoted(ids: seq<string>) {
    forall i :: 0 <= i < |ids| ==> StartsWith(ids[i], "\"")
  }

  /**
   * `getTypeIdsFromType`: the ids of the declared types a type refers to,
   * after looking through arrays, unions and intersections. Type
   * parameters and missing types refer to nothing.
   */
  function GetTypeIdsFromType(t: Option<TsType>): (ids: seq<string>)
    ensures AllQuoted(ids)
    ensures t.None? ==> ids == []
    ensures t.Some? ==> ids == TypeIds(t.value)
  {
    match t
    case None => []
    case Some(ty) => TypeIds(ty)
  }

  /**
   * The ids of a type that is present, case by case: a class, interface,
   * enum or other type refers to its symbol, an anonymous type to its alias
   * symbol, a type parameter to nothing, a union or intersection to its
   * members' ids in order, an array to its element type's ids, and an array
   * without a type argument to nothing.
   */
  function TypeIds(t: TsType): (ids: seq<string>)
    ensures AllQuoted(ids)
    ensures t.ClassOrInterfaceType? || t.EnumType? || t.OtherType? ==> ids == IdOf(t.symbol)
    ensures t.AnonymousType? ==> ids == IdOf(t.aliasSymbol)
    ensures t.TypeParameterType? ==> ids == []
    ensures t.UnionOrIntersectionType? ==> ids == IdsOfAll(t.unionTypes) + IdsOfAll(t.intersectionTypes)
    ensures t.ArrayType? && t.elementType.None? ==> ids == []
    ensures t.ArrayType? && t.elementType.Some? ==> ids == TypeIds(t.elementType.value)
    decreases t
  {
    match t
    case ClassOrInterfaceType(symbol) => IdOf(symbol)
    case EnumType(symbol) => IdOf(symbol)
    case UnionOrIntersectionType(u, i) => IdsOfAll(u) + IdsOfAll(i)
    case ArrayType(elem) => (match elem case None => [] case Some(e) => TypeIds(e))
    case AnonymousType(alias) => IdOf(alias)
    case TypeParameterType => []
    case OtherType(symbol) => IdOf(symbol)
  }

  /** The ids of a list of member types, in order (`map(getTypeIdsFromType).flat()`). */
  function IdsOfAll(ts: seq<TsType>): (ids: seq<string>)
    ensures AllQuoted(ids)
    decreases ts
  {
    if ts == [] then [] else TypeIds(ts[0]) + IdsOfAll(ts[1..])
  }

  /** The ids of a union are the concatenation of its members' ids, member by member in order. */
  lemma {:induction false} IdsOfAllIsFlatMap(ts: seq<TsType>)
    ensures IdsOfAll(ts) == Flat(seq(|ts|, k requires 0 <= k < |ts| => TypeIds(ts[k])))
    decreases |ts|
  {
    if ts != [] {
      IdsOfAllIsFlatMap(ts[1..]);
      var all := seq(|ts|, k requires 0 <= k < |ts| => TypeIds(ts[k]));
      var rest := seq(|ts| - 1, k requires 0 <= k < |ts| - 1 => TypeIds(ts[1..][k]));
      assert all[1..] == rest;
      assert Flat(all) == all[0] + Flat(rest);
      assert IdsOfAll(ts) == TypeIds(ts[0]) + IdsOfAll(ts[1..]);
    }
  }

  /** Arrays are transparent: an array of any depth refers to what its element type refers to. */
  lemma {:induction false} ArraysAreTransparent(elem: TsType, depth: nat)
    ensures GetTypeIdsFromType(Some(Nest(elem, depth))) == GetTypeIdsFromType(Some(elem))
    decreases depth
  {
    if depth > 0 {
      ArraysAreTransparent(elem, depth - 1);
    }
  }

  /** `elem` wrapped in `depth` array types. */
  function Nest(elem: TsType, depth: nat): TsType
    decreases depth
  {
    if depth == 0 then elem else ArrayType(Some(Nest(elem, depth - 1)))
  }

  const OptParameterEnding: string := " | undefined"

  /**
   * The fix-up `parseProperty` applies to the type text: for an optional
   * property, one trailing `" | undefined"` is removed; anything else is
   * left as it is.
   */
  function StripOptionalEnding(optional: bool, propertyType: Option<string>): (r: Option<string>)
    ensures r.Some? <==> propertyType.Some?
    ensures optional && propertyType.Some? && EndsWith(propertyType.value, OptParameterEnding) ==>
      r.value + OptParameterEnding == propertyType.value
    ensures !(optional && propertyType.Some? && EndsWith(propertyType.value, OptParameterEnding)) ==>
      r == propertyType
  {
    if optional && Truthy(propertyType) && EndsWith(propertyType.value, OptParameterEnding) then
      Some(propertyType.value[..|propertyType.value| - |OptParameterEnding|])
    else propertyType
  }

  /** The suffix is removed exactly once: a doubled ending keeps its first copy. */
  lemma StripOnlyOnce(t: string)
    ensures StripOptionalEnding(true, Some(t + OptParameterEnding + OptParameterEnding))
         == Some(t + OptParameterEnding)
  {
    var s := t + OptParameterEnding + OptParameterEnding;
    assert s[|s| - |OptParameterEnding|..] == OptParameterEnding;
    assert s[..|s| - |OptParameterEnding|] == t + OptParameterEnding;
  }

  /**
   * A property, parameter or property signature as the parser reads it: its
   * symbol's name if it has a symbol, its modifier flags, the type text and
   * type of its value declaration if there is one, whether it carries `?`,
   * and whether it carries any modifier keyword (for constructor parameters).
   */
  datatype PropertyNode = PropertyNode(
    symbolName: Option<string>,
    modifierFlags: ModifierFlags,
    typeText: Option<string>,
    valueType: Option<TsType>,
    hasQuestionToken: bool,
    hasModifiers: bool)

  /** A method or method signature: its symbol's name if any, its flags and its return type text. */
  datatype MethodNode = MethodNode(symbolName: Option<string>, modifierFlags: ModifierFlags, returnTypeText: string)

  /** `parseProperty`: nothing without a symbol; the ids come from the value declaration's type. */
  function ParseProperty(p: PropertyNode): (r: Option<PropertyDetails>)
    ensures r.Some? <==> p.symbolName.Some?
    ensures r.Some? ==> r.value.name == p.symbolName.value && r.value.optional == p.hasQuestionToken
    ensures r.Some? ==> r.value.modifierFlags == p.modifierFlags
    ensures r.Some? ==> r.value.propertyType == StripOptionalEnding(p.hasQuestionToken, p.typeText)
    ensures r.Some? ==> AllQuoted(r.value.typeIds)
    ensures r.Some? ==> r.value.typeIds == GetTypeIdsFromType(p.valueType)
  {
    match p.symbolName
    case None => None
    case Some(name) =>
      Some(PropertyDetails(p.modifierFlags, name, StripOptionalEnding(p.hasQuestionToken, p.typeText),
                           GetTypeIdsFromType(p.valueType), p.hasQuestionToken))
  }

  /** `parseMethod`: nothing without a symbol; the return type ids are never filled in. */
  function ParseMethod(m: MethodNode): (r: Option<MethodDetails>)
    ensures r.Some? <==> m.symbolName.Some?
    ensures r.Some? ==> r.value.name == m.symbolName.value && r.value.returnType == Some(m.returnTypeText)
    ensures r.Some? ==> r.value.modifierFlags == m.modifierFlags && r.value.returnTypeIds.None?
  {
    match m.symbolName
    case None => None
    case Some(name) => Some(MethodDetails(m.modifierFlags, name, Some(m.returnTypeText), None))
  }

  /**
   * The values of the present entries, in order (`filter(p => p !== undefined)`):
   * a value is kept exactly when some entry holds it, a list of present
   * entries is kept whole and in order, and a list of missing ones vanishes.
   */
  function Present<T>(os: seq<Option<T>>): (r: seq<T>)
    ensures |r| <= |os|
    ensures forall k :: 0 <= k < |r| ==> Some(r[k]) in os
    ensures forall i :: 0 <= i < |os| && os[i].Some? ==> os[i].value in r
    ensures (forall i :: 0 <= i < |os| ==> os[i].Some?) ==>
      |r| == |os| && forall i :: 0 <= i < |os| ==> r[i] == os[i].value
    ensures (forall i :: 0 <= i < |os| ==> os[i].None?) ==> r == []
    decreases |os|
  {
    if os == [] then []
    else
      assert os == [os[0]] + os[1..];
      if os[0].Some? then [os[0].value] + Present(os[1..])
      else Present(os[1..])
  }

  /** The filter keeps exactly the present values, in order. */
  lemma {:induction false} PresentAppend<T>(a: seq<Option<T>>, b: seq<Option<T>>)
    ensures Present(a + b) == Present(a) + Present(b)
    decreases |a|
  {
    if a != [] {
      var rest := a[1..];
      var h: seq<T> := if a[0].Some? then [a[0].value] else [];
      assert a == [a[0]] + rest;
      assert a + b == [a[0]] + (rest + b);
      PresentCons(a[0], rest + b);
      PresentCons(a[0], rest);
      PresentAppend(rest, b);
      calc {
        Present(a + b);
        Present([a[0]] + (rest + b));
        h + Present(rest + b);
        h + (Present(rest) + Present(b));
        (h + Present(rest)) + Present(b);
        Present([a[0]] + rest) + Present(b);
        Present(a) + Present(b);
      }
    } else {
      assert a + b == b;
    }
  }

  /** One step of the filter: the head is kept when present, then the rest is filtered. */
  lemma PresentCons<T>(o: Option<T>, os: seq<Option<T>>)
    ensures Present([o] + os) == (if o.Some? then [o.value] else []) + Present(os)
  {
    assert ([o] + os)[1..] == os;
  }

  /** `properties.map(parseProperty)`: a declared property yields a result exactly when it has a symbol. */
  function ParsePropertyEach(ps: seq<PropertyNode>): (r: seq<Option<PropertyDetails>>)
    ensures |r| == |ps|
    ensures forall i :: 0 <= i < |ps| ==> (r[i].Some? <==> ps[i].symbolName.Some?)
    ensures forall i :: 0 <= i < |ps| ==> r[i].Some? ==> r[i].value.name == ps[i].symbolName.value
    ensures (forall i :: 0 <= i < |ps| ==> ps[i].symbolName.Some?) ==> |Present(r)| == |ps|
  {
    seq(|ps|, i requires 0 <= i < |ps| => ParseProperty(ps[i]))
  }

  /** A constructor parameter becomes a property only when it carries a modifier keyword and a symbol. */
  function ParseParameterEach(ps: seq<PropertyNode>): (r: seq<Option<PropertyDetails>>)
    ensures |r| == |ps|
    ensures forall i :: 0 <= i < |ps| ==> (r[i].Some? <==> ps[i].hasModifiers && ps[i].symbolName.Some?)
    ensures forall i :: 0 <= i < |ps| ==> r[i].Some? ==> r[i].value.name == ps[i].symbolName.value
    ensures (forall i :: 0 <= i < |ps| ==> !ps[i].hasModifiers) ==> Present(r) == []
  {
    seq(|ps|, i requires 0 <= i < |ps| => if ps[i].hasModifiers then ParseProperty(ps[i]) else None)
  }

  /** `methods.map(parseMethod)`: a declared method yields a result exactly when it has a symbol. */
  function ParseMethodEach(ms: seq<MethodNode>): (r: seq<Option<MethodDetails>>)
    ensures |r| == |ms|
    ensures forall i :: 0 <= i < |ms| ==> (r[i].Some? <==> ms[i].symbolName.Some?)
    ensures forall i :: 0 <= i < |ms| ==> r[i].Some? ==> r[i].value.name == ms[i].symbolName.value
    ensures (forall i :: 0 <= i < |ms| ==> ms[i].symbolName.Some?) ==> |Present(r)| == |ms|
  {
    seq(|ms|, i requires 0 <= i < |ms| => ParseMethod(ms[i]))
  }

  /**
   * `getClassOrInterfaceName` on a declaration: the declared name, followed
   * by `<` + the type parameter names joined by `,` + `>` when there are any.
   * `None` stands for the cases where the helper gives up (it returns
   * undefined for mapped types and when the compiler throws).
   */
  function WithGenerics(name: string, generics: seq<string>): (r: string)
    ensures StartsWith(r, name)
    ensures generics == [] ==> r == name
    ensures generics != [] ==> EndsWith(r, ">") && |r| > |name| && r[|name|] == '<'
    ensures generics != [] ==> |r| == |name| + |Join(generics, ",")| + 2
    ensures generics != [] ==> r[|name| + 1..|r| - 1] == Join(generics, ",")
  {
    if |generics| > 0 then
      Framed(name + "<", Join(generics, ","), ">");
      name + "<" + Join(generics, ",") + ">"
    else name
  }

  /** The generic suffix can be split off again: a name without `<` is everything before the first `<`. */
  lemma GenericsSplitOff(name: string, generics: seq<string>)
    requires '<' !in name && generics != []
    ensures '<' in WithGenerics(name, generics)
    ensures WithGenerics(name, generics)[..IndexOf(WithGenerics(name, generics), '<')] == name
  {
    var r := WithGenerics(name, generics);
    assert r[|name|] == '<';
    assert forall k :: 0 <= k < |name| ==> r[k] == name[k];
    assert IndexOf(r, '<') == |name|;
  }

  /** The answer of the name helper for a declaration, before the callers' `|| "undefined"`. */
  datatype DeclaredName = DeclaredName(name: string, typeParameters: seq<string>) | NoName

  function NameOf(d: DeclaredName): Option<string> {
    match d
    case NoName => None
    case DeclaredName(name, ps) => Some(WithGenerics(name, ps))
  }

  /** The callers' fallback `getClassOrInterfaceName(...) || "undefined"`. */
  function NameOrUndefined(d: DeclaredName): (r: string)
    ensures Truthy(NameOf(d)) ==> r == NameOf(d).value
    ensures !Truthy(NameOf(d)) ==> r == "undefined"
  {
    if Truthy(NameOf(d)) then NameOf(d).value else "undefined"
  }

  /** The base class of a class declaration: the name helper's answer for it and its symbol. */
  datatype BaseClassNode = BaseClassNode(name: Option<string>, symbol: Option<Symbol>)

  /** An `implements` entry: the name helper's answer for its (target) type, and the type itself. */
  datatype ImplementsNode = ImplementsNode(name: Option<string>, implementedType: TsType)

  /** A base declaration of an interface: the name helper's answer for it, and its type. */
  datatype InterfaceBaseNode = InterfaceBaseNode(name: Option<string>, baseType: TsType)

  datatype ClassNode = ClassNode(
    declaredName: DeclaredName,
    symbol: Option<Symbol>,
    sourceFile: SourceFile,
    properties: seq<PropertyNode>,
    methods: seq<MethodNode>,
    constructorParameters: seq<seq<PropertyNode>>,
    baseClass: Option<BaseClassNode>,
    implementsClauses: seq<ImplementsNode>)

  datatype InterfaceNode = InterfaceNode(
    declaredName: DeclaredName,
    symbol: Option<Symbol>,
    sourceFile: SourceFile,
    properties: seq<PropertyNode>,
    methods: seq<MethodNode>,
    baseDeclarations: seq<InterfaceBaseNode>)

  /** A type alias: its members when its type node is a type literal, `None` otherwise. */
  datatype TypeAliasNode = TypeAliasNode(
    declaredName: DeclaredName,
    sourceFile: SourceFile,
    typeLiteral: Option<(seq<PropertyNode>, seq<MethodNode>)>)

  datatype EnumNode = EnumNode(symbolName: string, sourceFile: SourceFile, memberNames: seq<string>)

  /** The first id a type refers to, if any (`getTypeIdsFromType(...)?.[0]`). */
  function FirstTypeId(t: TsType): (r: Option<string>)
    ensures r.Some? <==> GetTypeIdsFromType(Some(t)) != []
    ensures r.Some? ==> r.value == GetTypeIdsFromType(Some(t))[0] && StartsWith(r.value, "\"")
  {
    var ids := GetTypeIdsFromType(Some(t));
    if ids == [] then None else Some(ids[0])
  }

  /** The id every clause of a declaration carries as `classTypeId` (`?? ""`). */
  function OwnTypeId(symbol: Option<Symbol>): (r: string)
    ensures symbol.None? ==> r == ""
    ensures symbol.Some? ==> StartsWith(r, "\"")
  {
    match GetFullyQualifiedNameNormalized(symbol)
    case None => ""
    case Some(id) => id
  }

  /**
   * The clause one `implements` entry contributes: one exactly when its type
   * has a name, naming that type and its first id, owned by the class.
   */
  function ImplementsClause(i: ImplementsNode, className: string, classTypeId: string): (r: Option<HeritageClause>)
    ensures r.Some? <==> Truthy(i.name)
    ensures r.Some? ==> (r.value.kind == Implements && r.value.clause == i.name.value
                         && r.value.clauseTypeId == FirstTypeId(i.implementedType)
                         && r.value.className == className && r.value.classTypeId == classTypeId)
  {
    if Truthy(i.name) then
      Some(HeritageClause(i.name.value, FirstTypeId(i.implementedType), className, classTypeId, Implements))
    else None
  }

  /**
   * The `extends` clause of a class: one clause exactly when the base class
   * has a name, naming the base and carrying the class's name and id.
   */
  function ExtendsClause(c: ClassNode, className: string, classTypeId: string): (r: seq<HeritageClause>)
    ensures |r| <= 1
    ensures r != [] <==> c.baseClass.Some? && Truthy(c.baseClass.value.name)
    ensures r != [] ==> (r[0].kind == Extends && r[0].clause == c.baseClass.value.name.value
                         && r[0].clauseTypeId == GetFullyQualifiedNameNormalized(c.baseClass.value.symbol)
                         && r[0].className == className && r[0].classTypeId == classTypeId)
  {
    match c.baseClass
    case None => []
    case Some(b) =>
      if Truthy(b.name) then
        [HeritageClause(b.name.value, GetFullyQualifiedNameNormalized(b.symbol), className, classTypeId, Extends)]
      else []
  }

  /**
   * The clauses of the `implements` entries from position `n` on: at most one
   * per entry, all `Implements`, all carrying the class name and id.
   */
  function ImplementsFrom(clauses: seq<ImplementsNode>, n: nat, className: string, classTypeId: string): (r: seq<HeritageClause>)
    requires n <= |clauses|
    ensures |r| <= |clauses| - n
    ensures forall k :: 0 <= k < |r| ==>
      r[k].kind == Implements && r[k].className == className && r[k].classTypeId == classTypeId
    ensures r == Present(ImplementsEach(clauses[n..], className, classTypeId))
    decreases |clauses| - n
  {
    if n == |clauses| then []
    else
      ImplementsEachStep(clauses, n, className, classTypeId);
      PresentCons(ImplementsClause(clauses[n], className, classTypeId), ImplementsEach(clauses[n + 1..], className, classTypeId));
      match ImplementsClause(clauses[n], className, classTypeId)
      case None => ImplementsFrom(clauses, n + 1, className, classTypeId)
      case Some(h) => [h] + ImplementsFrom(clauses, n + 1, className, classTypeId)
  }

  /** One turn of the loop over the `implements` entries: the entry's clause, if any, then the rest. */
  lemma ImplementsFromStep(clauses: seq<ImplementsNode>, n: nat, className: string, classTypeId: string)
    requires n < |clauses|
    ensures ImplementsFrom(clauses, n, className, classTypeId)
         == (if Truthy(clauses[n].name) then [ImplementsClause(clauses[n], className, classTypeId).value] else [])
            + ImplementsFrom(clauses, n + 1, className, classTypeId)
  {
  }

  /** The clause each `implements` entry would contribute, entry by entry (the loop's body). */
  function ImplementsEach(clauses: seq<ImplementsNode>, className: string, classTypeId: string): (r: seq<Option<HeritageClause>>)
    ensures |r| == |clauses|
    ensures forall k :: 0 <= k < |clauses| ==> r[k] == ImplementsClause(clauses[k], className, classTypeId)
  {
    seq(|clauses|, k requires 0 <= k < |clauses| => ImplementsClause(clauses[k], className, classTypeId))
  }

  /** The candidate clauses from an entry on: that entry's, then the rest. */
  lemma ImplementsEachStep(clauses: seq<ImplementsNode>, n: nat, className: string, classTypeId: string)
    requires n < |clauses|
    ensures ImplementsEach(clauses[n..], className, classTypeId)
         == [ImplementsClause(clauses[n], className, classTypeId)] + ImplementsEach(clauses[n + 1..], className, classTypeId)
  {
    assert clauses[n..][1..] == clauses[n + 1..];
  }

  /**
   * What `parseClassHeritageClauses` returns. Its clause order: at most one
   * `Extends` clause and only at the front, every clause names the class as
   * its owner, an unnamed class has none, and there is at most one clause
   * per base.
   */
  function ClassHeritageClauses(c: ClassNode): (r: seq<HeritageClause>)
    ensures !Truthy(NameOf(c.declaredName)) ==> r == []
    ensures |r| <= (if c.baseClass.Some? then 1 else 0) + |c.implementsClauses|
    ensures forall k :: 0 < k < |r| ==> r[k].kind == Implements
    ensures forall k :: 0 <= k < |r| ==>
      r[k].className == NameOf(c.declaredName).value && r[k].classTypeId == OwnTypeId(c.symbol)
    ensures Truthy(NameOf(c.declaredName)) ==>
      r == ExtendsClause(c, NameOf(c.declaredName).value, OwnTypeId(c.symbol))
         + Present(ImplementsEach(c.implementsClauses, NameOf(c.declaredName).value, OwnTypeId(c.symbol)))
    ensures |r| > 0 && r[0].kind == Extends ==>
      Truthy(NameOf(c.declaredName)) && c.baseClass.Some? && Truthy(c.baseClass.value.name)
    ensures Truthy(NameOf(c.declaredName)) && c.baseClass.Some? && Truthy(c.baseClass.value.name) ==>
      |r| > 0 && r[0].kind == Extends && r[0].clause == c.baseClass.value.name.value
  {
    var className := NameOf(c.declaredName);
    if !Truthy(className) then []
    else
      var id := OwnTypeId(c.symbol);
      assert c.implementsClauses[0..] == c.implementsClauses;
      ExtendsClause(c, className.value, id) + ImplementsFrom(c.implementsClauses, 0, className.value, id)
  }

  /**
   * `parseClassHeritageClauses`: the `extends` clause first, then one
   * `Implements` clause per named implemented type, in source order.
   */
  method ParseClassHeritageClauses(c: ClassNode) returns (heritageClauses: seq<HeritageClause>)
    ensures heritageClauses == ClassHeritageClauses(c)
  {
    var className := NameOf(c.declaredName);
    var classTypeId := OwnTypeId(c.symbol);
    heritageClauses := [];
    if !Truthy(className) {
      return;
    }
    heritageClauses := ExtendsClause(c, className.value, classTypeId);
    var i := 0;
    while i < |c.implementsClauses|
      invariant 0 <= i <= |c.implementsClauses|
      invariant heritageClauses + ImplementsFrom(c.implementsClauses, i, className.value, classTypeId)
             == ClassHeritageClauses(c)
      decreases |c.implementsClauses| - i
    {
      var clause := ImplementsClause(c.implementsClauses[i], className.value, classTypeId);
      ImplementsFromStep(c.implementsClauses, i, className.value, classTypeId);
      if clause.Some? {
        heritageClauses := heritageClauses + [clause.value];
      }
      i := i + 1;
    }
  }

  /**
   * The clauses of the base declarations from position `n` on: at most one
   * per base, and all, even those of the bases it `extends`, recorded as
   * `Implements` clauses carrying the interface's name and id.
   */
  function InterfaceBasesFrom(bs: seq<InterfaceBaseNode>, n: nat, ifName: string, classTypeId: string): (r: seq<HeritageClause>)
    requires n <= |bs|
    ensures |r| <= |bs| - n
    ensures forall k :: 0 <= k < |r| ==>
      r[k].kind == Implements && r[k].className == ifName && r[k].classTypeId == classTypeId
    ensures r == Present(BasesEach(bs[n..], ifName, classTypeId))
    decreases |bs| - n
  {
    if n == |bs| then []
    else
      BasesEachStep(bs, n, ifName, classTypeId);
      PresentCons(BaseClause(bs[n], ifName, classTypeId), BasesEach(bs[n + 1..], ifName, classTypeId));
      match BaseClause(bs[n], ifName, classTypeId)
      case None => InterfaceBasesFrom(bs, n + 1, ifName, classTypeId)
      case Some(h) => [h] + InterfaceBasesFrom(bs, n + 1, ifName, classTypeId)
  }

  /** One turn of the loop over the base declarations keeps the clauses collected so far plus the rest unchanged. */
  lemma BasesFromAccumulate(acc: seq<HeritageClause>, bs: seq<InterfaceBaseNode>, n: nat, ifName: string, classTypeId: string)
    requires n < |bs|
    ensures (if Truthy(bs[n].name) then acc + [BaseClause(bs[n], ifName, classTypeId).value] else acc)
            + InterfaceBasesFrom(bs, n + 1, ifName, classTypeId)
         == acc + InterfaceBasesFrom(bs, n, ifName, classTypeId)
  {
    if Truthy(bs[n].name) {
      var h := BaseClause(bs[n], ifName, classTypeId).value;
      assert InterfaceBasesFrom(bs, n, ifName, classTypeId) == [h] + InterfaceBasesFrom(bs, n + 1, ifName, classTypeId);
      assert acc + [h] + InterfaceBasesFrom(bs, n + 1, ifName, classTypeId)
          == acc + ([h] + InterfaceBasesFrom(bs, n + 1, ifName, classTypeId));
    }
  }

  /**
   * The clause one base declaration of an interface contributes: one exactly
   * when it has a name, always of kind `Implements`, owned by the interface.
   */
  function BaseClause(b: InterfaceBaseNode, ifName: string, classTypeId: string): (r: Option<HeritageClause>)
    ensures r.Some? <==> Truthy(b.name)
    ensures r.Some? ==> (r.value.kind == Implements && r.value.clause == b.name.value
                         && r.value.clauseTypeId == FirstTypeId(b.baseType)
                         && r.value.className == ifName && r.value.classTypeId == classTypeId)
  {
    if Truthy(b.name) then Some(HeritageClause(b.name.value, FirstTypeId(b.baseType), ifName, classTypeId, Implements))
    else None
  }

  /** The clause each base declaration would contribute, base by base. */
  function BasesEach(bs: seq<InterfaceBaseNode>, ifName: string, classTypeId: string): (r: seq<Option<HeritageClause>>)
    ensures |r| == |bs|
    ensures forall k :: 0 <= k < |bs| ==> r[k] == BaseClause(bs[k], ifName, classTypeId)
  {
    seq(|bs|, k requires 0 <= k < |bs| => BaseClause(bs[k], ifName, classTypeId))
  }

  /** The candidate clauses from a base on: that base's, then the rest. */
  lemma BasesEachStep(bs: seq<InterfaceBaseNode>, n: nat, ifName: string, classTypeId: string)
    requires n < |bs|
    ensures BasesEach(bs[n..], ifName, classTypeId)
         == [BaseClause(bs[n], ifName, classTypeId)] + BasesEach(bs[n + 1..], ifName, classTypeId)
  {
    assert bs[n..][1..] == bs[n + 1..];
  }

  /** What `parseInterfaceHeritageClauses` returns: nothing for an unnamed interface, else only `Implements` clauses it owns. */
  function InterfaceHeritageClauses(d: InterfaceNode): (r: seq<HeritageClause>)
    ensures !Truthy(NameOf(d.declaredName)) ==> r == []
    ensures |r| <= |d.baseDeclarations|
    ensures forall k :: 0 <= k < |r| ==>
      r[k].kind == Implements && r[k].className == NameOf(d.declaredName).value && r[k].classTypeId == OwnTypeId(d.symbol)
    ensures Truthy(NameOf(d.declaredName)) ==>
      r == Present(BasesEach(d.baseDeclarations, NameOf(d.declaredName).value, OwnTypeId(d.symbol)))
  {
    var ifName := NameOf(d.declaredName);
    assert d.baseDeclarations[0..] == d.baseDeclarations;
    if !Truthy(ifName) then [] else InterfaceBasesFrom(d.baseDeclarations, 0, ifName.value, OwnTypeId(d.symbol))
  }

  /** `parseInterfaceHeritageClauses`: one `Implements` clause per named base declaration, in order. */
  method ParseInterfaceHeritageClauses(d: InterfaceNode) returns (heritageClauses: seq<HeritageClause>)
    ensures heritageClauses == InterfaceHeritageClauses(d)
  {
    var ifName := NameOf(d.declaredName);
    heritageClauses := [];
    if !Truthy(ifName) {
      return;
    }
    heritageClauses := CollectBaseClauses(d.baseDeclarations, ifName.value, OwnTypeId(d.symbol));
  }

  /** The `forEach` over the base declarations: the clause of every named base, in order. */
  method CollectBaseClauses(bs: seq<InterfaceBaseNode>, ifName: string, classTypeId: string) returns (heritageClauses: seq<HeritageClause>)
    ensures heritageClauses == InterfaceBasesFrom(bs, 0, ifName, classTypeId)
  {
    heritageClauses := [];
    var i := 0;
    while i < |bs|
      invariant 0 <= i <= |bs|
      invariant heritageClauses + InterfaceBasesFrom(bs, i, ifName, classTypeId) == InterfaceBasesFrom(bs, 0, ifName, classTypeId)
      decreases |bs| - i
    {
      var clause := BaseClause(bs[i], ifName, classTypeId);
      BasesFromAccumulate(heritageClauses, bs, i, ifName, classTypeId);
      if clause.Some? {
        heritageClauses := heritageClauses + [clause.value];
      }
      i := i + 1;
    }
  }

  /** The properties of a class: its declared properties, then the first constructor's modifier parameters. */
  function ClassProperties(c: ClassNode): seq<PropertyDetails> {
    Present(ParsePropertyEach(c.properties))
      + (if |c.constructorParameters| > 0 then Present(ParseParameterEach(c.constructorParameters[0])) else [])
  }

  /**
   * Property order of a class: the declared properties come first, in
   * order, and are all kept when they have symbols; a constructor
   * parameter without a modifier keyword never becomes a property.
   */
  lemma ClassPropertiesOrder(c: ClassNode)
    requires forall i :: 0 <= i < |c.properties| ==> c.properties[i].symbolName.Some?
    ensures |ClassProperties(c)| >= |c.properties|
    ensures forall i :: 0 <= i < |c.properties| ==> ClassProperties(c)[i] == ParseProperty(c.properties[i]).value
    ensures |c.constructorParameters| > 0 && (forall i :: 0 <= i < |c.constructorParameters[0]| ==> !c.constructorParameters[0][i].hasModifiers)
      ==> |ClassProperties(c)| == |c.properties|
  {
    var parsed := ParsePropertyEach(c.properties);
    var front := Present(parsed);
    assert forall i :: 0 <= i < |parsed| ==> parsed[i].Some?;
    assert |front| == |c.properties| && forall i :: 0 <= i < |front| ==> front[i] == parsed[i].value;
    var back := if |c.constructorParameters| > 0 then Present(ParseParameterEach(c.constructorParameters[0])) else [];
    assert ClassProperties(c) == front + back;
    if |c.constructorParameters| > 0 {
      var ps := c.constructorParameters[0];
      var params := ParseParameterEach(ps);
      if forall i :: 0 <= i < |ps| ==> !ps[i].hasModifiers {
        assert back == [];
      }
    }
  }

  /** The class `parseClasses` builds. */
  function ClassOf(c: ClassNode): (r: Clazz)
    ensures r.name == NameOrUndefined(c.declaredName)
    ensures r.id == GetTypeIdFromTypeName(c.sourceFile, r.name) && |r.id| > 0
    ensures r.properties == ClassProperties(c) && r.methods == Present(ParseMethodEach(c.methods))
    ensures r.heritageClauses == ClassHeritageClauses(c)
  {
    var name := NameOrUndefined(c.declaredName);
    NewInterface(ClassOrIfOptions(name, GetTypeIdFromTypeName(c.sourceFile, name), ClassProperties(c),
                                  Present(ParseMethodEach(c.methods)), ClassHeritageClauses(c)))
  }

  /**
   * `parseClasses`: the declared properties, with the first constructor's
   * modifier parameters pushed after them, the methods, the id from the
   * name, and the heritage clauses. The id is never empty, so the
   * "missing class id" report cannot fire.
   */
  method ParseClass(c: ClassNode) returns (clazz: Clazz)
    ensures clazz == ClassOf(c)
    ensures clazz.name == NameOrUndefined(c.declaredName)
    ensures clazz.id == GetTypeIdFromTypeName(c.sourceFile, clazz.name) && |clazz.id| > 0
    ensures clazz.properties == ClassProperties(c)
    ensures clazz.methods == Present(ParseMethodEach(c.methods))
    ensures clazz.heritageClauses == ClassHeritageClauses(c)
  {
    var className := NameOrUndefined(c.declaredName);
    var id := GetTypeIdFromTypeName(c.sourceFile, className);
    var properties := Present(ParsePropertyEach(c.properties));
    if |c.constructorParameters| > 0 {
      var ctorProperties := Present(ParseParameterEach(c.constructorParameters[0]));
      properties := properties + ctorProperties;
    }
    var methods := Present(ParseMethodEach(c.methods));
    var heritageClauses := ParseClassHeritageClauses(c);
    clazz := NewInterface(ClassOrIfOptions(className, id, properties, methods, heritageClauses));
  }

  /** The interface `parseInterfaces` builds. */
  function InterfaceOf(d: InterfaceNode): (r: Interface)
    ensures r.name == NameOrUndefined(d.declaredName)
    ensures r.id == GetTypeIdFromTypeName(d.sourceFile, r.name) && |r.id| > 0
    ensures r.properties == Present(ParsePropertyEach(d.properties)) && r.methods == Present(ParseMethodEach(d.methods))
    ensures r.heritageClauses == InterfaceHeritageClauses(d)
  {
    var name := NameOrUndefined(d.declaredName);
    NewInterface(ClassOrIfOptions(name, GetTypeIdFromTypeName(d.sourceFile, name), Present(ParsePropertyEach(d.properties)),
                                  Present(ParseMethodEach(d.methods)), InterfaceHeritageClauses(d)))
  }

  /** `parseInterfaces`: the same as for a class, without constructor parameters. */
  method ParseInterface(d: InterfaceNode) returns (interface: Interface)
    ensures interface == InterfaceOf(d)
    ensures interface.name == NameOrUndefined(d.declaredName)
    ensures interface.id == GetTypeIdFromTypeName(d.sourceFile, interface.name) && |interface.id| > 0
    ensures interface.properties == Present(ParsePropertyEach(d.properties))
    ensures interface.methods == Present(ParseMethodEach(d.methods))
    ensures interface.heritageClauses == InterfaceHeritageClauses(d)
  {
    var interfaceName := NameOrUndefined(d.declaredName);
    var id := GetTypeIdFromTypeName(d.sourceFile, interfaceName);
    var heritageClauses := ParseInterfaceHeritageClauses(d);
    interface := NewInterface(ClassOrIfOptions(interfaceName, id, Present(ParsePropertyEach(d.properties)),
                                               Present(ParseMethodEach(d.methods)), heritageClauses));
  }

  /** `parseTypes`: only an alias of a type literal becomes a `TypeAlias`. */
  function ParseType(t: TypeAliasNode): (r: Option<TypeAlias>)
    ensures r.Some? <==> t.typeLiteral.Some?
    ensures r.Some? ==> r.value.name == NameOrUndefined(t.declaredName)
    ensures r.Some? ==> r.value.id == GetTypeIdFromTypeName(t.sourceFile, r.value.name)
    ensures r.Some? ==> r.value.properties == Present(ParsePropertyEach(t.typeLiteral.value.0))
    ensures r.Some? ==> r.value.methods == Present(ParseMethodEach(t.typeLiteral.value.1))
  {
    match t.typeLiteral
    case None => None
    case Some(members) =>
      var name := NameOrUndefined(t.declaredName);
      Some(TypeAlias(name, GetTypeIdFromTypeName(t.sourceFile, name),
                     Present(ParsePropertyEach(members.0)), Present(ParseMethodEach(members.1))))
  }

  /** The enum `parseEnum` builds. */
  function EnumOf(e: EnumNode): (r: Enum)
    ensures r.name == e.symbolName && r.items == e.memberNames
    ensures r.id == GetTypeIdFromTypeName(e.sourceFile, e.symbolName) && StartsWith(r.id, "\"")
  {
    Enum(e.symbolName, GetTypeIdFromTypeName(e.sourceFile, e.symbolName), e.memberNames)
  }

  /** `parseEnum`: the items are the member names, pushed one by one in declaration order. */
  method ParseEnum(e: EnumNode) returns (r: Enum)
    ensures r == EnumOf(e)
    ensures r.name == e.symbolName && r.id == GetTypeIdFromTypeName(e.sourceFile, e.symbolName)
    ensures r.items == e.memberNames
  {
    var id := GetTypeIdFromTypeName(e.sourceFile, e.symbolName);
    var enumItems: seq<string> := [];
    var i := 0;
    while i < |e.memberNames|
      invariant 0 <= i <= |e.memberNames|
      invariant enumItems == e.memberNames[..i]
      decreases |e.memberNames| - i
    {
      enumItems := enumItems + [e.memberNames[i]];
      i := i + 1;
    }
    r := Enum(e.symbolName, id, enumItems);
  }
}
