/**
 * The capability record every diagram notation provides, and the two
 * settings the notations read while rendering.
 */
module Template {
  import opened Model

  /** The rendering switches: show member types, show modifier marks. */
  datatype TemplateSettings = TemplateSettings(propertyTypes: bool, modifiers: bool)

  /**
   * A notation: one rendering function per kind of fragment, plus the
   * `composition` glyph. `associationReadsReceiver` records whether the
   * notation's association renderer looks up other members through its
   * receiver (`this`), which decides what happens when it is called as a
   * detached function.
   */
  datatype Template = Template(
    composition: string,
    implementsEdge: (string, string) -> string,
    extendsEdge: (string, string) -> string,
    plainClassOrInterface: string -> string,
    classBox: (string, seq<PropertyDetails>, seq<MethodDetails>) -> string,
    interfaceBox: (string, seq<PropertyDetails>, seq<MethodDetails>) -> string,
    typeBox: (string, seq<PropertyDetails>, seq<MethodDetails>) -> string,
    enumBox: (string, seq<string>) -> string,
    memberAssociation: MemberAssociation -> string,
    associationReadsReceiver: bool)
}
