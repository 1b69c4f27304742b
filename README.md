# constructor: select-parameter builder, modelled in Dafny

`constructor` takes a Go struct value and produces a query-string parameter
such as `filter=Name,measurement,Field4*specialName,Field4*Prop3`. The
parameter names the fields a client wants back. It sends no values. The
conversion has four parts, each modelled here.

- **Field-name resolution** (`Fields.FieldName`). A `constructor:"omit"` tag gives
  `""`, meaning "skip". Otherwise a present `json` tag is used verbatim. Otherwise
  the declared field name is used.
- **The structure walk** (`Walk`). `StructRepr` builds a map from the resolved
  name of every exported, non-skipped root field to a list of nested names.
  For a struct field, or a slice of structs, that list comes from
  `CollectFields`, which goes one level down. For every other field the list is
  empty.
- **Assembly** (`Query.Builder.QueryStringFromStruct`). It writes `ParamKey=`
  and then, for every map key, either the key alone or one `key<FieldDelimiter>nested`
  token per nested name. Tokens are separated by `Delimiter`. The result
  collapses to `""` when nothing was written after `=`.
- **Option defaulting** (`Query.NewBuilder`). Empty options become `filter`, `,`
  and `*`.

Go reflection has no Dafny counterpart. A record type is therefore written
out as a `seq<FieldDesc>`: declared name, exported flag, the `json` and
`constructor` tags as `Option<string>`, and a `Kind`
(`Scalar | Struct(fields) | Slice(elem)`).

Go ranges over a map in an unspecified order. The model keeps that freedom.
`Assemble` picks each next key with Dafny's `:|` from the keys still to visit,
and reports the order it used as a ghost out-parameter. Every property of the
output is stated for whatever order that is (`IsEnumeration`). The order never
changes the multiset of tokens (`TokensPermutation`).

Three points could be read otherwise. In each, the model follows the code:

- An explicit `json:""` tag is a skip in the code (constructor.go:123-124,
  161-162), and the test relies on it (constructor_test.go:25, 82). It is not a
  valid empty name.
- The intermediate structure is a Go map. The output therefore follows map
  iteration order, not declaration order. Only `CollectFields` keeps
  declaration order.
- The exported-field check sits in the two walkers (constructor.go:118, 156),
  not in `fieldName`. The observable result is the same.

## Model

| member | source | states |
|---|---|---|
| `Fields.FieldName` | constructor.go:174-186 | an `omit` tag always gives `""`; a non-empty name implies no `omit` tag and comes from the json tag when one is present, otherwise from the declared name |
| `Fields.OmitWins` | constructor.go:175-179 | an `omit` constructor tag makes the name `""` and excludes the field, whatever its json tag says |
| `Fields.NamePrecedence` | constructor.go:181-185 | without `omit`, a present json tag is returned verbatim (also `""` or `x,omitempty`); with no json tag, the declared name |
| `Fields.SkipCases` | constructor.go:174-186 | the name is `""` exactly when the field has an `omit` tag, or an empty json tag, or no json tag and an empty declared name |
| `Walk.Names` | constructor.go:150-168 | the names collected from a struct are never `""` and are at most as many as its fields |
| `Walk.CollectFields` | constructor.go:150-168 | the loop returns exactly the names of the exported, non-skipped fields, in declaration order (`Names`) |
| `Walk.NamesAppend` | constructor.go:153-166 | collecting names distributes over concatenation of field lists, so declaration order is kept |
| `Walk.NamesMembers` | constructor.go:153-166 | a name is collected iff some exported field with a non-empty resolved name resolves to it |
| `Walk.NestedNames` | constructor.go:129-142 | only a struct, or a slice of structs, has nested names, and none of them is `""` |
| `Walk.Repr` | constructor.go:118-127 | `""` is never a key of the representation |
| `Walk.StructRepr` | constructor.go:111-146 | the loop builds exactly the map `Repr`, field by field, a later field overwriting an earlier one with the same name |
| `Walk.ReprKeys` | constructor.go:115-127 | a string is a key iff some exported root field with a non-empty resolved name resolves to it |
| `Walk.ReprValue` | constructor.go:127-142 | a key maps to the nested names of the last field with that name: a struct's names, a slice's element struct's names, else empty |
| `Walk.ReprEmpty` | constructor.go:115-127 | the map is empty iff no root field is exported with a non-empty name |
| `Walk.NamesIgnoreKinds` | constructor.go:153-165 | collected names do not depend on the kinds of the nested fields |
| `Walk.OneLevelCap` | constructor.go:129-142 | cutting off everything below the nested fields leaves the representation unchanged: the walk is one level deep |
| `Query.NewBuilder` | constructor.go:48-64 | each empty option becomes its default (`filter`, `,`, `*`), each non-empty one is kept verbatim, and none is left empty |
| `Query.Qualified` | constructor.go:86-89 | a key with nested names contributes, in order, one token `key<FieldDelimiter>name` per name |
| `Query.KeyTokens` | constructor.go:80-97 | a key without nested names writes itself alone; a key with nested names writes exactly one `key<FieldDelimiter>name` token per name, in order |
| `Query.Builder.Assemble` | constructor.go:70-105 | for the order the map was ranged over, the result is `ParamKey=` plus the tokens joined by exactly one delimiter, or `""` when nothing follows `=` |
| `Query.Builder.QueryStringFromStruct` | constructor.go:67-106 | the result is `ParamKey=` plus the joined tokens of `Repr(record)` in some enumeration; it is `""` iff no root field is included, and otherwise longer than `ParamKey=` |
| `Query.JoinAppend` | constructor.go:79-97 | joining two non-empty token lists puts exactly one delimiter between them |
| `Query.JoinNonEmpty` | constructor.go:101-103 | a non-empty token list ending in a non-empty token joins to a non-empty string |
| `Query.TokensAppend` | constructor.go:76-99 | the tokens of two key sequences written one after the other are their tokens concatenated |
| `Query.TokensSplit` | constructor.go:76-99 | the tokens of any one visited key can be split off from those of the other keys, as multisets |
| `Query.TokensPermutation` | constructor.go:76-99 | two visiting orders with the same keys give the same multiset of tokens |
| `Query.TokensMembers` | constructor.go:76-99 | a token is written iff it is a token of some visited key |
| `Query.TokensNonEmpty` | constructor.go:80-97 | with non-empty keys there are at least as many tokens as keys, and none is empty |
| `Query.JoinTokensNonEmpty` | constructor.go:101-103 | for a non-empty map without an empty key, something is always written after `=` |
| `Scenarios.ObjectFieldNames` | constructor_test.go:24-28 | `ObjectField` collects to `specialName, Prop3` (`Prop1` has `json:""`) |
| `Scenarios.ComplicatedScalars` | constructor_test.go:12-17 | the first five fields give the keys `Name`, `measurement`, `Exported`, `Field1` with empty lists |
| `Scenarios.ComplicatedRepr` | constructor_test.go:12-28 | the test record's map: four scalar keys, and `Field4` and `Field5` with `specialName, Prop3`; `Field2` and `Field3` are omitted |
| `Scenarios.EmptyResponseRepr` | constructor_test.go:77-84 | a struct slice tagged `json:""` plus an unexported field give the empty map |
| `Scenarios.TestOrderTokens` | constructor_test.go:36 | in the order of the expected string, the tokens are exactly the eight expected ones, for any field delimiter |
| `Scenarios.ExpectedStringForTestOrder` | constructor_test.go:36 | in that order, with default options, the text after `filter=` is the test's expected string |
| `Scenarios.TestOrderEnumerates` | constructor_test.go:36 | that order lists each key of the map exactly once |
| `Scenarios.EnumerationTokens` | constructor_test.go:43-48 | every enumeration of the map yields the same eight tokens, as a multiset |
| `Scenarios.DefaultOptionsScenario` | constructor_test.go:31-49 | with empty options, the output is `filter=` plus the eight expected tokens joined by `,`, whatever the map order |
| `Scenarios.ExplicitOptionsScenario` | constructor_test.go:52-74 | with `halleluiah`, `;`, `$`, the output is `halleluiah=` plus the eight `$`-qualified tokens joined by `;` |
| `Scenarios.EmptyResponseScenario` | constructor_test.go:77-92 | a record with nothing to select gives `""` |

## Left out

- Go reflection (`reflect.TypeOf`, `NumField`, `Field`, `PkgPath`, `Kind`, `Elem`) is replaced by the explicit `FieldDesc` description. The panic on a non-struct argument becomes a type restriction: a record is always a sequence of fields.
- Struct-tag parsing (`Tag.Lookup`) is not modelled. Each of the two tags the code reads is given already extracted, as `Option<string>`. Other tags, such as the test's `asdf`, are not represented because nothing reads them.
- Pointer, array, map and other kinds are all `Scalar`, because the code treats every kind other than struct and slice alike.
- Self-referential struct types (a struct holding a slice of itself) have no finite `FieldDesc` value. Such a type is written truncated below the nested fields. `Walk.OneLevelCap` shows the truncation does not change the result.
- The run-time randomness of Go map iteration is not modelled as a distribution. Any order may occur, and the order used is returned as a ghost value.
- `strings.Builder` is modelled as string concatenation. `Len` counts bytes in Go and characters here. Both sides of the emptiness test use the same unit, so the outcome is the same.
- Percent-encoding, HTTP use and parsing the string back are not modelled, because the code does none of them.
