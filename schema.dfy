/**
 * The read-only view of a schema that the evaluator consumes: enums and their
 * permissible values, as the schema loader hands them over.
 */
module Schema {
  import opened Wrappers

  /** One entry of `structured_aliases`; only its `literal_form` is read. */
  datatype StructuredAlias = StructuredAlias(literalForm: Option<string>)

  /**
   * The value stored under an annotation key: an annotation object carrying a
   * `.value` (already rendered with `str`), or a bare value (its `str` form).
   */
  datatype AnnotationValue = Wrapped(value: string) | Plain(text: string)

  /** A permissible value; `name` is its key in the enum, the other fields are optional. */
  datatype PermissibleValue = PermissibleValue(
    title: Option<string>,
    meaning: Option<string>,
    aliases: seq<string>,
    structuredAliases: seq<StructuredAlias>,
    annotations: map<string, AnnotationValue>)

  datatype NamedValue = NamedValue(name: string, pv: PermissibleValue)

  /** An enum's `permissible_values`, in the dictionary's iteration order (empty when absent). */
  datatype EnumDefinition = EnumDefinition(values: seq<NamedValue>)

  datatype NamedEnum = NamedEnum(name: string, def: EnumDefinition)

  /** What loading a schema yields: its enums (`all_enums()`), or a loader exception. */
  datatype SchemaSource = Loaded(enums: seq<NamedEnum>) | LoadFailed(reason: string)

  /** `if pv.meaning:` — the value declares an ontology mapping. */
  predicate HasMapping(nv: NamedValue) {
    Truthy(nv.pv.meaning)
  }

  /** The number of values with a truthy `meaning`: what `validate_schema` adds to the mappings counter. */
  function MappingCount(vs: seq<NamedValue>): (n: nat)
    ensures n <= |vs|
  {
    if vs == [] then 0
    else MappingCount(vs[..|vs| - 1]) + (if HasMapping(vs[|vs| - 1]) then 1 else 0)
  }
}
