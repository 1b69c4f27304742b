/**
 * Field descriptors and the field-name resolver of the query-string builder.
 *
 * Go discovers a struct's fields by reflection at call time; here a record type
 * is described explicitly: a record is the sequence of its declared fields,
 * each field carrying its declared name, whether it is exported, its `json` and
 * `constructor` struct tags (already extracted, `None` when absent), and the
 * kind of its type.
 */
module Fields {

  datatype Option<+T> = None | Some(value: T)

  /** The kinds of field types the walker tells apart; pointers, arrays, maps
      and every other non-struct, non-slice kind are `Scalar`. */
  datatype Kind =
    | Scalar
    | Struct(fields: seq<FieldDesc>)
    | Slice(elem: Kind)

  datatype FieldDesc = FieldDesc(
    name: string,
    exported: bool,
    jsonTag: Option<string>,
    constructorTag: Option<string>,
    kind: Kind)

  /** The value of the `constructor` tag that removes a field from the output. */
  const OmitTag := "omit"

  /** The name a field takes in the query string; `""` means "skip this field". */
  function FieldName(f: FieldDesc): (r: string)
    ensures f.constructorTag == Some(OmitTag) ==> r == ""
    ensures r != "" ==> f.constructorTag != Some(OmitTag) && (f.jsonTag == Some(r) || (f.jsonTag.None? && r == f.name))
  {
    if f.constructorTag == Some(OmitTag) then ""
    else if f.jsonTag.Some? then f.jsonTag.value
    else f.name
  }

  /** A field contributes to the output when it is exported and its name is not empty. */
  predicate Included(f: FieldDesc)
  {
    f.exported && FieldName(f) != ""
  }

  /** An `omit` constructor tag removes the field whatever its json tag says. */
  lemma OmitWins(f: FieldDesc)
    requires f.constructorTag == Some(OmitTag)
    ensures FieldName(f) == ""
    ensures !Included(f)
  {
  }

  /** Without an `omit` tag a present json tag is used verbatim, even when it is
      empty or carries options such as `,omitempty`; otherwise the declared name. */
  lemma NamePrecedence(f: FieldDesc)
    requires f.constructorTag != Some(OmitTag)
    ensures f.jsonTag.Some? ==> FieldName(f) == f.jsonTag.value
    ensures f.jsonTag.None? ==> FieldName(f) == f.name
  {
  }

  /** Exactly three situations make a field resolve to the skip marker `""`. */
  lemma SkipCases(f: FieldDesc)
    ensures FieldName(f) == "" <==>
      || f.constructorTag == Some(OmitTag)
      || f.jsonTag == Some("")
      || (f.jsonTag.None? && f.name == "")
  {
  }
}
