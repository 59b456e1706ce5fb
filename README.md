# unhtml: extraction engine and derive rules, modelled in Dafny

unhtml fills Rust structs from HTML. A struct and each of its fields carry one
`#[html(selector = "…", attr = "…", default)]` attribute. The derive validates
these attributes and generates a `from_elements` function. That function
scopes the document's element set with the struct's selector, then builds each
field in declaration order: it narrows with the field's selector, reads inner
text, an attribute or the whole element, and converts the text. When `default`
is given it falls back to the type's default value. A second layer of getters
and sequence combinators does the same reads on single elements: first match
of a selector, then an attribute, the inner markup or the outer markup,
converted with `from_str`.

The project has five modules:

- `Results` (results.dfy): `Option` and `Result`.
- `Dom` (dom.dfy): the HTML library as values. An `Element` carries its
  attributes, `inner_html()` and `html()`. `Scraper` supplies selector
  compilation (`parses`) and matching (`select`) as functions.
- `Traits` (traits.dfy): the single-value getters of `FromHtml`. A `Getter`
  descriptor stands in for the boxed closures, and one evaluator `Get`
  interprets it. `Collect` specifies the `iter_*` combinators, and the loop
  method `IterFrom` is proved against it.
- `AttributeMeta` (attr_meta.dfy): `filter_attrs`, `check_selector`,
  `get_lit_str_value` and `AttrMeta::try_from`, working over a small `Meta`
  tree like the one `syn` produces. The loop method `TryFrom` is proved
  against the fold `Fold`. The lemmas describe what is accepted and what the
  result is, without reference to the loop.
- `Html` (html.dfy): `derive` as rule resolution (`Derive`, `FieldRules` and
  the loop method `GenStructFieldValues`). `FromElements` gives the meaning
  of the generated `from_elements` over the runtime's element-set operations,
  which are passed in as `Extractors`. As written, the generated struct
  expression of any struct with a field starts its field list with a comma
  and does not compile (see Findings). `FromElements` is therefore the meaning
  of the code with the corrected, comma-separated field list (`FieldPairs`).

## Model

| member | source | states |
|---|---|---|
| `Traits.GetByAttr` | unhtml_util/src/traits.rs:45-51 | Reads the element's own attribute. Fails with `SelectOrAttrEmptyErr{attr: "attr", value: attr}` exactly when the attribute is absent. Otherwise the result is `from_str` of the attribute value, and a conversion error is passed on unchanged |
| `Traits.GetByInnerText` | unhtml_util/src/traits.rs:53-55 | The result is `from_str` of `inner_html()`. It can fail only through conversion |
| `Traits.GetByHtml` | unhtml_util/src/traits.rs:57-59 | The result is `from_str` of `html()`. It can fail only through conversion |
| `Traits.GetBySelectorAndAttr` | unhtml_util/src/traits.rs:13-23 | Fails with `SelectOrAttrEmptyErr{attr: "selector", value: selector}` exactly when nothing matches. Otherwise it is the attribute getter applied to the first match |
| `Traits.GetBySelectorAndInnerText` | unhtml_util/src/traits.rs:25-33 | Fails with the selector tag exactly when nothing matches. Otherwise it is the inner-text getter applied to the first match |
| `Traits.GetBySelectorAndHtml` | unhtml_util/src/traits.rs:35-43 | Fails with the selector tag exactly when nothing matches. Otherwise it is the html getter applied to the first match |
| `Traits.ScopedReadsFirstMatch` | unhtml_util/src/traits.rs:13-43 | For every getter with a selector: with no match it fails with the selector tag; otherwise it equals the same read without a selector, applied to the first match |
| `Traits.OnlyFirstMatchRead` | unhtml_util/src/traits.rs:16-18 | Two elements whose selections start with the same element read the same value, so later matches have no effect |
| `Traits.Collect` | unhtml_util/src/traits.rs:65-74 | A successful collection has one item per input element. The getter need be valid only for a non-empty selection, since it is built per element |
| `Traits.CollectSuccess` | unhtml_util/src/traits.rs:68-72 | The collection succeeds exactly when the getter succeeds on every element. Its k-th item is then the getter's value on the k-th element |
| `Traits.CollectFailsAtFirst` | unhtml_util/src/traits.rs:69-71 | When element i is the first to fail, the whole collection fails with that element's error. No partial list is returned |
| `Traits.IterFrom` | unhtml_util/src/traits.rs:65-96 | The push-back loop of `iter_from`, `iter_from_single_attr` and `iter_from_double_attr` returns exactly `Collect`. Its selector must compile only when the selection is non-empty |
| `Traits.IterBySelectorAndAttr` | unhtml_util/src/traits.rs:98-100 | Equals `Collect` with the selector-and-attribute getter. An empty selection gives an empty list whether or not the selector compiles |
| `Traits.IterSelectorAndHtml` | unhtml_util/src/traits.rs:102-104 | Equals `Collect` with the selector-and-html getter. An empty selection gives an empty list whether or not the selector compiles |
| `Traits.IterBySelectorAndInnerText` | unhtml_util/src/traits.rs:106-108 | Equals `Collect` with the selector-and-inner-text getter. An empty selection gives an empty list whether or not the selector compiles |
| `Traits.IterByAttr` | unhtml_util/src/traits.rs:110-112 | Equals `Collect` with the attribute getter. The parameter is used as an attribute name |
| `Traits.IterByHtml` | unhtml_util/src/traits.rs:114-116 | Equals `Collect` with the html getter |
| `Traits.IterByInnerText` | unhtml_util/src/traits.rs:118-120 | Equals `Collect` with the inner-text getter |
| `AttributeMeta.HtmlAttrs` | unhtml_derive/src/attr_meta.rs:76-85 | Every kept attribute has the path `html` |
| `AttributeMeta.FilterAttrs` | unhtml_derive/src/attr_meta.rs:75-98 | Fails with the "only one `html` attribute" diagnostic exactly when the number of `html` attributes is not one. On success the result is that attribute's parsed meta. An unparsable attribute gives `UnparsableAttribute` |
| `AttributeMeta.FilterAttrsNone` | unhtml_derive/src/attr_meta.rs:86-91 | No `html` attribute gives an error |
| `AttributeMeta.FilterAttrsSeveral` | unhtml_derive/src/attr_meta.rs:86-91 | Two or more `html` attributes give an error |
| `AttributeMeta.FilterAttrsExactlyOne` | unhtml_derive/src/attr_meta.rs:75-98 | With exactly one `html` attribute, whatever other attributes are present, the result is its meta, or the parse error |
| `AttributeMeta.CheckSelector` | unhtml_derive/src/attr_meta.rs:100-104 | Succeeds exactly when the selector compiles. Otherwise it fails with `invalid css selector` naming the selector |
| `AttributeMeta.GetLitStrValue` | unhtml_derive/src/attr_meta.rs:106-112 | Returns a value exactly for string literals, and that value is the literal's text |
| `AttributeMeta.TryFrom` | unhtml_derive/src/attr_meta.rs:24-73 | The loop over the nested metas, updating `selector`, `attr` and `default`, returns exactly `AttrMetaOf` |
| `AttributeMeta.StepSucceedsIff` | unhtml_derive/src/attr_meta.rs:36-62 | One item is accepted exactly when it is the word `default`, `selector = "s"` with a compiling `s`, `attr = "s"`, or `name = lit` for any other name |
| `AttributeMeta.FoldSucceedsIff` | unhtml_derive/src/attr_meta.rs:35-64 | The list is accepted exactly when every item is. So any literal, any nested list, any word other than `default`, a non-string selector or attr, and a selector that does not compile are all rejected |
| `AttributeMeta.FoldValue` | unhtml_derive/src/attr_meta.rs:41-58 | An accepted list yields the last `selector` string and the last `attr` string, so a repeated key keeps its last value. `default` is true exactly when the word `default` occurs |
| `AttributeMeta.FoldFailsAtFirst` | unhtml_derive/src/attr_meta.rs:35-64 | The error is the one raised by the first unacceptable item |
| `AttributeMeta.FoldIgnoresUnknownKey` | unhtml_derive/src/attr_meta.rs:44-60 | Inserting `name = lit` anywhere, for a name other than `selector` or `attr` (for example `default = 20`), changes neither success nor the result |
| `AttributeMeta.FoldSelectorParses` | unhtml_derive/src/attr_meta.rs:45-53 | A selector kept by an accepted list compiles |
| `AttributeMeta.TryFromWord` | unhtml_derive/src/attr_meta.rs:27-32 | A bare `#[html]` yields no selector, no attr and `default = false` |
| `AttributeMeta.TryFromNameValue` | unhtml_derive/src/attr_meta.rs:33 | A top-level `#[html = lit]` is rejected with the invalid-attribute diagnostic |
| `AttributeMeta.TryFromList` | unhtml_derive/src/attr_meta.rs:34-71 | `#[html(...)]` is accepted exactly when every item is acceptable. The result is then the last selector, the last attr, and whether `default` occurs |
| `AttributeMeta.AttrMetaSelectorParses` | unhtml_derive/src/attr_meta.rs:45-53 | Every selector in a validated rule compiles, so the `unwrap()` in the generated code cannot fail |
| `Html.ModeOf` | unhtml_derive/src/html.rs:82-86 | `attr == "inner"` gives inner text. Any other attr gives that attribute, never one named `inner`. No attr gives the whole element |
| `Html.GenFieldValue` | unhtml_derive/src/html.rs:74-86 | Fails exactly when the field's attributes fail validation, with the same diagnostic. On success the rule has the validated selector, the mode chosen by `ModeOf` and the default flag, and its selector compiles |
| `Html.FieldRules` | unhtml_derive/src/html.rs:61-72 | One plan per field, in declaration order, keeping each field's name and type. Every selector compiles |
| `Html.FieldRulesSuccess` | unhtml_derive/src/html.rs:63-70 | The plans succeed exactly when every field validates. Plan k then carries field k's rule |
| `Html.FieldRulesFailsAtFirst` | unhtml_derive/src/html.rs:63-64 | The diagnostic comes from the first field that fails validation |
| `Html.GenStructFieldValues` | unhtml_derive/src/html.rs:61-72 | The accumulating loop over the fields returns exactly `FieldRules` |
| `Html.Derive` | unhtml_derive/src/html.rs:27-50 | The struct's own attributes are validated first, and their error is returned as is. Derivation succeeds exactly when the struct's and every field's attributes validate, and the plans are then exactly `FieldRules` of the fields. On success the rule has the struct's name, its shape, its validated selector as scope and one plan per field, and every selector in it compiles |
| `Html.DeriveFailsAtField` | unhtml_derive/src/html.rs:32-35 | With valid struct attributes, derivation fails with the diagnostic of the first invalid field |
| `Html.FieldValue` | unhtml_derive/src/html.rs:74-91 | A `default` field never fails: it yields the read's value, or the type's default if the read fails. A non-default field's result is the read itself, on a fresh copy of the struct's set narrowed by the field's selector when there is one |
| `Html.DefaultReplacesAnyError` | unhtml_derive/src/html.rs:87-90 | With `default`, any failed read, including a failed conversion, becomes `Default::default()` |
| `Html.EvalFields` | unhtml_derive/src/html.rs:36-40 | A successful evaluation yields one value per field |
| `Html.EvalFieldsSuccess` | unhtml_derive/src/html.rs:77-81 | Evaluation succeeds exactly when every field does. Value k is field k's own value on the shared set, whatever the other fields select |
| `Html.EvalFieldsFailsAtFirst` | unhtml_derive/src/html.rs:87-90 | The first failing field is not a `default` field, and its error is the result |
| `Html.FromElements` | unhtml_derive/src/html.rs:41-59 | A built value has the struct's name and shape and one value per field |
| `Html.FromElementsFields` | unhtml_derive/src/html.rs:52-59 | With no struct selector the input set passes through unchanged. The struct is built exactly when every field succeeds on the struct-scoped set, and its k-th value is field k's value on that set |
| `Html.FromElementsFailsAtFirst` | unhtml_derive/src/html.rs:61-72 | Fields are tried in declaration order. The first failing field, which is never a `default` one, aborts the struct with its error |
| `Html.AllDefaultAlwaysBuilt` | unhtml_derive/src/html.rs:87-88 | A struct whose fields are all `default` is built from any input, including an empty one |
| `Html.UnitStructBuilt` | unhtml_derive/src/html.rs:36-40 | A unit struct has no field plans and is built from any input |
| `Html.LeadingCommaAsWritten` | unhtml_derive/src/html.rs:62-70 | As written, a non-empty field list begins with a comma, so it is not a comma-separated list |
| `Html.FieldPairsSeparated` | unhtml_derive/src/html.rs:62-70 | The corrected field list is comma-separated and holds the fields in declaration order |

## Behaviour worth noting

- A `default` field falls back to `Default::default()` on any failed read,
  conversion failures included (`unwrap_or` at html.rs:88).
  `Html.DefaultReplacesAnyError` states this.
- `filter_attrs` demands exactly one `html` attribute on the struct itself as
  well as on every field (html.rs:32, 76). A struct with no `#[html]` of its own
  cannot be derived.
- The struct-level `attr` and `default` are validated but then ignored. Only
  the struct-level selector is used.
- The getters raise `ParseError::SelectOrAttrEmptyErr` tagged `"selector"` or
  `"attr"`, not the `SourceNotFound`/`SourceEmpty` of `unhtml/src/err.rs`.
- `#[html(default = "…")]` and `#[html(default = 20)]` set nothing, because
  unknown `name = lit` keys are dropped (`AttributeMeta.FoldIgnoresUnknownKey`).
- `iter_from_single_attr` and `iter_from_double_attr` build their getter, and so
  compile its selector with `unwrap()`, inside the loop, once per element. An
  empty selection therefore yields an empty list even for a selector that does
  not compile. `Collect`, `IterFrom` and the selector-taking `iter_*` methods
  require a compiling selector only when the selection is non-empty.

## Left out

- Html.FromElements: models the generated `from_elements` with the corrected
  field list of `Html.FieldPairs`. As written, the struct expression has a
  leading comma and does not compile, so there is no as-written
  `from_elements` to model.
- HTML parsing and CSS matching (the `scraper` crate): selector compilation
  and matching are the functions `parses` and `select`. An element is a value
  that carries its attributes, `inner_html()` and `html()`.
- Concrete `FromStr` conversions: a single partial function `fromStr`.
- `select_elements`, `iner_text`, `attr`, `element` and `Default::default()`
  from the runtime's `Element` and `Text` traits: their source is not part of
  this model, so they are the functions in `Html.Extractors`. How many
  elements they read, and which errors they raise, is therefore not modelled.
- Token generation (`quote!`, `TokenStream`), `syn` parsing, `import()`,
  `use_idents!` and `proc_macro::Diagnostic` construction: the model works on
  a `Meta` tree, produces resolved rules and gives their meaning. The one
  token-level fact that matters, the field-list separator, is modelled as a
  token sequence.
- Diagnostic message texts: each diagnostic is a constructor. The invalid-
  attribute diagnostic carries the whole meta it shows.
- Generics, lifetimes and `where` clauses of the derived impl: they do not
  affect extraction.
- `unhtml/src/err.rs` (`DeserializeError`): the core never constructs it. The
  runtime's error type is the parameter `Err`.
- Nested struct and `Vec` fields are reached only through the abstract
  `element` read, because their extraction lives in the runtime traits.

## Findings

| source | as written | input that shows it | evidently intended | confidence | as-written member | corrected member |
|---|---|---|---|---|---|---|
| unhtml_derive/src/html.rs:62-70 | `field_pairs` starts empty, and each field appends `, field`, so the list begins with a comma | any struct with a valid `#[html]` of its own and at least one field, e.g. `#[html] struct S { #[html(selector = "p")] a: String }`, gets past html.rs:32 and produces `S{, a: …}`, which Rust rejects | commas only between fields: `S{a: …, b: …}` | high; not executed | `Html.LeadingCommaAsWritten` | `Html.FieldPairsSeparated` |
