/**
 * The declaration model: members, heritage clauses, the four kinds of
 * declared types, association edges and the per-file grouping.
 *
 * Where model.ts itself lacks a shape that the rest of the code uses
 * (`TypeAlias`, `Enum`, `MemberAssociation`, `HeritageClause.clauseTypeId`,
 * the `enums`/`types`/`memberAssociations` fields of a file), the shape is
 * the one its use sites construct and read.
 */
module Model {
  import opened Wrappers
  import opened JsString

  /**
   * The modifier bits the templates test with `modifierFlags & ModifierFlags.X`.
   * Only whether each bit is set matters; TypeScript's bit positions do not.
   */
  datatype ModifierFlags = ModifierFlags(isPrivate: bool, isProtected: bool, isStatic: bool, isAbstract: bool)

  /** A property: `typeIds` is always present (possibly empty), the type text is optional. */
  datatype PropertyDetails = PropertyDetails(
    modifierFlags: ModifierFlags,
    name: string,
    propertyType: Option<string>,
    typeIds: seq<string>,
    optional: bool)

  /** A method: the return type text is optional. */
  datatype MethodDetails = MethodDetails(
    modifierFlags: ModifierFlags,
    name: string,
    returnType: Option<string>,
    returnTypeIds: Option<seq<string>>)

  /** Exactly two kinds of heritage clause. */
  datatype HeritageClauseType = Extends | Implements

  /**
   * A heritage edge from `className` to the named base `clause`. The parser
   * fills `clauseTypeId` with a non-null assertion over a lookup that can
   * come back empty, so at run time it may be undefined.
   */
  datatype HeritageClause = HeritageClause(
    clause: string,
    clauseTypeId: Option<string>,
    className: string,
    classTypeId: string,
    kind: HeritageClauseType)

  /** The options object the parser hands to the `Interface`/`Clazz` constructor, heritage clauses included. */
  datatype ClassOrIfOptions = ClassOrIfOptions(
    name: string,
    id: string,
    properties: seq<PropertyDetails>,
    methods: seq<MethodDetails>,
    heritageClauses: seq<HeritageClause>)

  /**
   * A class or interface. The record also keeps the heritage clauses the
   * parser hands over in its options: every caller passes them and every
   * reader (the file grouping, the inheritance pass) reads them back.
   */
  datatype Interface = Interface(
    name: string,
    id: string,
    properties: seq<PropertyDetails>,
    methods: seq<MethodDetails>,
    heritageClauses: seq<HeritageClause>)

  /** `class Clazz extends Interface {}`: a class has exactly the shape of an interface. */
  type Clazz = Interface

  /** A type alias over a type literal; it carries no heritage clauses. */
  datatype TypeAlias = TypeAlias(
    name: string,
    id: string,
    properties: seq<PropertyDetails>,
    methods: seq<MethodDetails>)

  datatype Enum = Enum(name: string, id: string, items: seq<string>)

  /** One end of an association: the type it attaches to and an optional multiplicity label. */
  datatype AssociationEnd = AssociationEnd(typeId: string, name: string, multiplicity: Option<string>)

  /** An association edge; `inherited` is the source's `inerhited` flag (initially unset). */
  datatype MemberAssociation = MemberAssociation(a: AssociationEnd, b: AssociationEnd, inherited: bool)

  /** Everything declared in one source file; `memberAssociations` is filled by the association pass. */
  datatype FileDeclaration = FileDeclaration(
    fileName: string,
    classes: seq<Clazz>,
    interfaces: seq<Interface>,
    enums: seq<Enum>,
    types: seq<TypeAlias>,
    heritageClauses: seq<seq<HeritageClause>>,
    memberAssociations: Option<seq<MemberAssociation>>)

  /** The `Interface` (and so `Clazz`) constructor: every field is copied from the options unchanged. */
  function NewInterface(options: ClassOrIfOptions): (r: Interface)
    ensures r.name == options.name && r.id == options.id
    ensures r.properties == options.properties && r.methods == options.methods
    ensures r.heritageClauses == options.heritageClauses
  {
    Interface(options.name, options.id, options.properties, options.methods, options.heritageClauses)
  }

  /**
   * The file a type id points at: the text between the id's first and last
   * double quote (`/"(.*)"/`) with `.ts` appended; `None` stands for the
   * "Could not compute path" error thrown when the id has no quoted part.
   */
  function TargetSourceFile(id: string): (r: Option<string>)
    ensures '"' !in id ==> r.None?
    ensures r.Some? ==> EndsWith(r.value, ".ts") && |r.value| <= |id| + 1
  {
    match DelimitedGroup(id, '"', '"')
    case None => None
    case Some(path) => Some(path + ".ts")
  }

  /** On a one-line id the target is found exactly when the id holds two quotes. */
  lemma TargetSourceFileOfQuotedId(id: string)
    requires NoLineTerminator(id)
    ensures TargetSourceFile(id).Some? <==> ('"' in id && '"' in id[IndexOf(id, '"') + 1..])
    ensures TargetSourceFile(id).Some? ==>
      TargetSourceFile(id).value == id[IndexOf(id, '"') + 1..LastIndexOf(id, '"')] + ".ts"
  {
    DelimitedGroupOnOneLine(id, '"', '"');
  }

  /** An id of the form `"<path>"<rest>`, with no other quote and no line break, points at `<path>.ts`. */
  lemma QuotedPathTarget(path: string, rest: string)
    requires '"' !in path && '"' !in rest
    requires NoLineTerminator(path) && NoLineTerminator(rest)
    ensures TargetSourceFile("\"" + path + "\"" + rest) == Some(path + ".ts")
  {
    var id := "\"" + path + "\"" + rest;
    forall k | 0 <= k < |id|
      ensures !IsLineTerminator(id[k])
      ensures k > |path| + 1 ==> id[k] != '"'
    {
      if 0 < k <= |path| {
        assert id[k] == path[k - 1];
      } else if k > |path| + 1 {
        assert id[k] == rest[k - |path| - 2];
      }
    }
    assert IndexOf(id, '"') == 0;
    LastIndexOfUnique(id, '"', |path| + 1);
    assert id[1..][|path|] == '"';
    TargetSourceFileOfQuotedId(id);
    assert id[1..|path| + 1] == path;
  }

  /**
   * `getRelativeFilePath(fromFile)`: the path from the directory of
   * `fromFile` to the declaring source file. The path arithmetic of Node's
   * `path` module is the parameter `relativePath(fromFile, toFile)`.
   */
  function GetRelativeFilePath(id: string, fromFile: string, relativePath: (string, string) -> string): (r: Option<string>)
    ensures r.Some? <==> TargetSourceFile(id).Some?
    ensures r.Some? ==> r.value == relativePath(fromFile, TargetSourceFile(id).value)
  {
    match TargetSourceFile(id)
    case None => None
    case Some(toFile) => Some(relativePath(fromFile, toFile))
  }
}
