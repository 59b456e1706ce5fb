/**
 * The derive of `unhtml_derive/src/html.rs`: rule resolution for a struct and
 * the meaning of the `from_elements` it generates.
 *
 * `Derive` turns a struct's attributes into a `StructRule` (the record-level
 * scope selector and one `FieldPlan` per field, in declaration order), failing
 * with the validator's diagnostic. `FromElements` is what the generated code
 * does with an element set. The `select_elements`, `iner_text`, `attr` and
 * `element` methods of the runtime's `Element`/`Text` traits, and
 * `Default::default()`, are the collaborators in `Extractors`; their bodies
 * are not part of this model. A field's Rust type is the type parameter `Ty`,
 * its values `V`, the runtime's errors `Err`.
 */
module Html {
  import opened Results
  import opened Dom
  import opened AttributeMeta

  /** The `attr` value that asks for inner text instead of an attribute. */
  const AttrInnerText := "inner"

  /** How a field's value is read from its narrowed element set. */
  datatype Mode = InnerText | AttrValue(name: string) | WholeElement

  /** The mode `gen_field_value` picks from a rule's `attr`. */
  function ModeOf(attr: Option<string>): (m: Mode)
    ensures m == InnerText <==> attr == Some(AttrInnerText)
    ensures m == WholeElement <==> attr.None?
    ensures m.AttrValue? ==> attr == Some(m.name) && m.name != AttrInnerText
  {
    match attr
    case Some(a) => if a == AttrInnerText then InnerText else AttrValue(a)
    case None => WholeElement
  }

  /** A field's resolved rule: optional narrowing selector, mode, default flag. */
  datatype FieldRule = FieldRule(selector: Option<string>, mode: Mode, default: bool)

  /** A rule whose selector, if any, compiles. */
  predicate SelectorCompiles(parses: string -> bool, rule: FieldRule)
  {
    rule.selector.Some? ==> parses(rule.selector.value)
  }

  /** `gen_field_value`, up to the `default` handling, which `FieldValue` gives. */
  function GenFieldValue(parses: string -> bool, attrs: seq<Attribute>): (r: Result<FieldRule, Diagnostic>)
    ensures r.Success? <==> AttrMetaOf(parses, attrs).Success?
    ensures r.Failure? ==> r.error == AttrMetaOf(parses, attrs).error
    ensures r.Success? ==>
              && r.value.selector == AttrMetaOf(parses, attrs).value.selector
              && r.value.mode == ModeOf(AttrMetaOf(parses, attrs).value.attr)
              && r.value.default == AttrMetaOf(parses, attrs).value.default
              && SelectorCompiles(parses, r.value)
  {
    match AttrMetaOf(parses, attrs)
    case Failure(d) => Failure(d)
    case Success(meta) =>
      AttrMetaSelectorParses(parses, attrs);
      Success(FieldRule(meta.selector, ModeOf(meta.attr), meta.default))
  }

  /** A struct field: its name (none in a tuple struct), its attributes, its type. */
  datatype Field<Ty> = Field(ident: Option<string>, attrs: seq<Attribute>, ty: Ty)

  /** `syn::Fields`. */
  datatype Fields<Ty> = Named(named: seq<Field<Ty>>) | Unnamed(unnamed: seq<Field<Ty>>) | Unit
  {
    /** The fields in declaration order, as `for field in fields` visits them. */
    function Members(): seq<Field<Ty>>
    {
      match this
      case Named(fs) => fs
      case Unnamed(fs) => fs
      case Unit => []
    }
  }

  datatype Shape = NamedShape | TupleShape | UnitShape

  function ShapeOf<Ty>(fields: Fields<Ty>): Shape
  {
    match fields
    case Named(_) => NamedShape
    case Unnamed(_) => TupleShape
    case Unit => UnitShape
  }

  /** The struct the derive is applied to. */
  datatype ItemStruct<Ty> = ItemStruct(name: string, attrs: seq<Attribute>, fields: Fields<Ty>)

  /** What the generated code does for one field. */
  datatype FieldPlan<Ty> = FieldPlan(ident: Option<string>, ty: Ty, rule: FieldRule)

  /** What the generated `from_elements` does for the whole struct. */
  datatype StructRule<Ty> = StructRule(name: string, shape: Shape, scope: Option<string>, fields: seq<FieldPlan<Ty>>)

  /** The field plans `gen_struct_field_values` produces, or the first field's diagnostic. */
  function FieldRules<Ty>(parses: string -> bool, fields: seq<Field<Ty>>): (r: Result<seq<FieldPlan<Ty>>, Diagnostic>)
    ensures r.Success? ==> |r.value| == |fields|
    ensures r.Success? ==> forall k :: 0 <= k < |fields| ==>
              && r.value[k].ident == fields[k].ident
              && r.value[k].ty == fields[k].ty
              && SelectorCompiles(parses, r.value[k].rule)
    decreases |fields|
  {
    if fields == [] then Success([])
    else
      match GenFieldValue(parses, fields[0].attrs)
      case Failure(d) => Failure(d)
      case Success(rule) =>
        match FieldRules(parses, fields[1..])
        case Failure(d) => Failure(d)
        case Success(plans) => Success([FieldPlan(fields[0].ident, fields[0].ty, rule)] + plans)
  }

  /** The plans succeed exactly when every field's attributes validate, and then hold their rules in order. */
  lemma {:induction false} FieldRulesSuccess<Ty>(parses: string -> bool, fields: seq<Field<Ty>>)
    ensures FieldRules(parses, fields).Success? <==>
              forall k :: 0 <= k < |fields| ==> GenFieldValue(parses, fields[k].attrs).Success?
    ensures FieldRules(parses, fields).Success? ==>
              forall k :: 0 <= k < |fields| ==>
                FieldRules(parses, fields).value[k].rule == GenFieldValue(parses, fields[k].attrs).value
    decreases |fields|
  {
    if fields != [] {
      FieldRulesSuccess(parses, fields[1..]);
      assert forall k :: 1 <= k < |fields| ==> fields[k] == fields[1..][k - 1];
    }
  }

  /** The diagnostic is that of the first field whose attributes do not validate. */
  lemma {:induction false} FieldRulesFailsAtFirst<Ty>(parses: string -> bool, fields: seq<Field<Ty>>, i: nat)
    requires i < |fields| && GenFieldValue(parses, fields[i].attrs).Failure?
    requires forall k :: 0 <= k < i ==> GenFieldValue(parses, fields[k].attrs).Success?
    ensures FieldRules(parses, fields) == Failure(GenFieldValue(parses, fields[i].attrs).error)
    decreases i
  {
    if i > 0 {
      assert forall k :: 0 <= k < i - 1 ==> fields[1..][k] == fields[k + 1];
      FieldRulesFailsAtFirst(parses, fields[1..], i - 1);
    }
  }

  /** `gen_struct_field_values`: one plan per field, accumulated in a loop, returning at the first error. */
  method GenStructFieldValues<Ty>(parses: string -> bool, fields: Fields<Ty>) returns (r: Result<seq<FieldPlan<Ty>>, Diagnostic>)
    ensures r == FieldRules(parses, fields.Members())
  {
    var members := fields.Members();
    var fieldPairs: seq<FieldPlan<Ty>> := [];
    var i := 0;
    while i < |members|
      invariant 0 <= i <= |members|
      invariant |fieldPairs| == i
      invariant forall k :: 0 <= k < i ==>
                  && GenFieldValue(parses, members[k].attrs).Success?
                  && fieldPairs[k] == FieldPlan(members[k].ident, members[k].ty, GenFieldValue(parses, members[k].attrs).value)
    {
      var value := GenFieldValue(parses, members[i].attrs);
      if value.Failure? {
        FieldRulesFailsAtFirst(parses, members, i);
        return Failure(value.error);
      }
      fieldPairs := fieldPairs + [FieldPlan(members[i].ident, members[i].ty, value.value)];
      i := i + 1;
    }
    FieldRulesSuccess(parses, members);
    assert FieldRules(parses, members).value == fieldPairs;
    r := Success(fieldPairs);
  }

  /** A struct rule whose every selector compiles. */
  predicate WellFormed<Ty>(parses: string -> bool, rule: StructRule<Ty>)
  {
    && (rule.scope.Some? ==> parses(rule.scope.value))
    && forall k :: 0 <= k < |rule.fields| ==> SelectorCompiles(parses, rule.fields[k].rule)
  }

  /**
   * `derive`: validate the struct's own `html` attribute, then every field's,
   * in that order. Only the struct-level selector is used; its `attr` and
   * `default` are ignored.
   */
  function Derive<Ty>(parses: string -> bool, item: ItemStruct<Ty>): (r: Result<StructRule<Ty>, Diagnostic>)
    ensures AttrMetaOf(parses, item.attrs).Failure? ==> r == Failure(AttrMetaOf(parses, item.attrs).error)
    ensures r.Success? <==> AttrMetaOf(parses, item.attrs).Success? && FieldRules(parses, item.fields.Members()).Success?
    ensures r.Success? ==> r.value.fields == FieldRules(parses, item.fields.Members()).value
    ensures r.Success? ==>
              && r.value.name == item.name
              && r.value.shape == ShapeOf(item.fields)
              && r.value.scope == AttrMetaOf(parses, item.attrs).value.selector
              && |r.value.fields| == |item.fields.Members()|
              && WellFormed(parses, r.value)
  {
    match AttrMetaOf(parses, item.attrs)
    case Failure(d) => Failure(d)
    case Success(meta) =>
      AttrMetaSelectorParses(parses, item.attrs);
      match FieldRules(parses, item.fields.Members())
      case Failure(d) => Failure(d)
      case Success(plans) => Success(StructRule(item.name, ShapeOf(item.fields), meta.selector, plans))
  }

  /** With valid struct attributes, derivation fails exactly at the first field that does not validate. */
  lemma DeriveFailsAtField<Ty>(parses: string -> bool, item: ItemStruct<Ty>, i: nat)
    requires AttrMetaOf(parses, item.attrs).Success?
    requires i < |item.fields.Members()| && GenFieldValue(parses, item.fields.Members()[i].attrs).Failure?
    requires forall k :: 0 <= k < i ==> GenFieldValue(parses, item.fields.Members()[k].attrs).Success?
    ensures Derive(parses, item) == Failure(AttrMetaOf(parses, item.fields.Members()[i].attrs).error)
  {
    FieldRulesFailsAtFirst(parses, item.fields.Members(), i);
  }

  // ---------------------------------------------------------------------------
  // The generated `from_elements`.

  /** The runtime's element-set operations and `Default::default()`, per field type. */
  datatype Extractors<!Ty, V, Err> = Extractors(
    selectElements: (seq<Element>, string) -> seq<Element>,
    innerText: (Ty, seq<Element>) -> Result<V, Err>,
    attr: (Ty, seq<Element>, string) -> Result<V, Err>,
    element: (Ty, seq<Element>) -> Result<V, Err>,
    defaultOf: Ty -> V)

  /** `define_elements` and the field-level narrowing: select when there is a selector, else pass through. */
  function Narrow<Ty, V, Err>(x: Extractors<Ty, V, Err>, selector: Option<string>, elements: seq<Element>): seq<Element>
  {
    match selector
    case Some(s) => x.selectElements(elements, s)
    case None => elements
  }

  /** The read a mode stands for, on the narrowed set. */
  function Extract<Ty, V, Err>(x: Extractors<Ty, V, Err>, ty: Ty, mode: Mode, narrowed: seq<Element>): Result<V, Err>
  {
    match mode
    case InnerText => x.innerText(ty, narrowed)
    case AttrValue(a) => x.attr(ty, narrowed, a)
    case WholeElement => x.element(ty, narrowed)
  }

  /**
   * One generated field expression: narrow a fresh copy of the struct's element
   * set, read it by mode, then `unwrap_or(Default::default())` or `?`.
   */
  function FieldValue<Ty, V, Err>(x: Extractors<Ty, V, Err>, plan: FieldPlan<Ty>, elements: seq<Element>): (r: Result<V, Err>)
    ensures plan.rule.default ==> r.Success?
    ensures plan.rule.default ==>
              r.value == Extract(x, plan.ty, plan.rule.mode, Narrow(x, plan.rule.selector, elements)).GetOr(x.defaultOf(plan.ty))
    ensures !plan.rule.default ==> r == Extract(x, plan.ty, plan.rule.mode, Narrow(x, plan.rule.selector, elements))
  {
    var read := Extract(x, plan.ty, plan.rule.mode, Narrow(x, plan.rule.selector, elements));
    if plan.rule.default then Success(read.GetOr(x.defaultOf(plan.ty))) else read
  }

  /** With `default`, every failure of the read, conversion failures included, becomes the type's default. */
  lemma DefaultReplacesAnyError<Ty, V, Err>(x: Extractors<Ty, V, Err>, plan: FieldPlan<Ty>, elements: seq<Element>)
    requires plan.rule.default
    requires Extract(x, plan.ty, plan.rule.mode, Narrow(x, plan.rule.selector, elements)).Failure?
    ensures FieldValue(x, plan, elements) == Success(x.defaultOf(plan.ty))
  {
  }

  /** The struct's fields evaluated in declaration order on the same element set, stopping at the first error. */
  function EvalFields<Ty, V, Err>(x: Extractors<Ty, V, Err>, plans: seq<FieldPlan<Ty>>, elements: seq<Element>)
    : (r: Result<seq<V>, Err>)
    ensures r.Success? ==> |r.value| == |plans|
    decreases |plans|
  {
    if plans == [] then Success([])
    else
      match FieldValue(x, plans[0], elements)
      case Failure(e) => Failure(e)
      case Success(v) =>
        match EvalFields(x, plans[1..], elements)
        case Failure(e) => Failure(e)
        case Success(vs) => Success([v] + vs)
  }

  /** Evaluation succeeds exactly when every field does, each field's value computed on its own. */
  lemma {:induction false} EvalFieldsSuccess<Ty, V, Err>(x: Extractors<Ty, V, Err>, plans: seq<FieldPlan<Ty>>, elements: seq<Element>)
    ensures EvalFields(x, plans, elements).Success? <==>
              forall k :: 0 <= k < |plans| ==> FieldValue(x, plans[k], elements).Success?
    ensures EvalFields(x, plans, elements).Success? ==>
              forall k :: 0 <= k < |plans| ==>
                EvalFields(x, plans, elements).value[k] == FieldValue(x, plans[k], elements).value
    decreases |plans|
  {
    if plans != [] {
      EvalFieldsSuccess(x, plans[1..], elements);
      assert forall k :: 1 <= k < |plans| ==> plans[k] == plans[1..][k - 1];
    }
  }

  /** The error is that of the first failing field, which is never a `default` one. */
  lemma {:induction false} EvalFieldsFailsAtFirst<Ty, V, Err>(x: Extractors<Ty, V, Err>, plans: seq<FieldPlan<Ty>>,
                                                             elements: seq<Element>, i: nat)
    requires i < |plans| && FieldValue(x, plans[i], elements).Failure?
    requires forall k :: 0 <= k < i ==> FieldValue(x, plans[k], elements).Success?
    ensures !plans[i].rule.default
    ensures EvalFields(x, plans, elements) == Failure(FieldValue(x, plans[i], elements).error)
    decreases i
  {
    if i > 0 {
      assert forall k :: 0 <= k < i - 1 ==> plans[1..][k] == plans[k + 1];
      EvalFieldsFailsAtFirst(x, plans[1..], elements, i - 1);
    }
  }

  /** The value the generated `from_elements` builds. */
  datatype StructValue<V> = StructValue(name: string, shape: Shape, values: seq<V>)

  /** The generated `from_elements`: scope the input by the struct's selector, then build the struct. */
  function FromElements<Ty, V, Err>(x: Extractors<Ty, V, Err>, rule: StructRule<Ty>, input: seq<Element>)
    : (r: Result<StructValue<V>, Err>)
    ensures r.Success? ==> r.value.name == rule.name && r.value.shape == rule.shape && |r.value.values| == |rule.fields|
  {
    var elements := Narrow(x, rule.scope, input);
    match EvalFields(x, rule.fields, elements)
    case Failure(e) => Failure(e)
    case Success(vs) => Success(StructValue(rule.name, rule.shape, vs))
  }

  /**
   * Every field reads the same struct-scoped set: the input itself without a
   * struct selector, its selection with one. The struct is built exactly when
   * every field succeeds, and its k-th value is the k-th field's own value.
   */
  lemma FromElementsFields<Ty, V, Err>(x: Extractors<Ty, V, Err>, rule: StructRule<Ty>, input: seq<Element>)
    ensures rule.scope.None? ==> Narrow(x, rule.scope, input) == input
    ensures FromElements(x, rule, input).Success? <==>
              forall k :: 0 <= k < |rule.fields| ==> FieldValue(x, rule.fields[k], Narrow(x, rule.scope, input)).Success?
    ensures FromElements(x, rule, input).Success? ==>
              forall k :: 0 <= k < |rule.fields| ==>
                FromElements(x, rule, input).value.values[k] == FieldValue(x, rule.fields[k], Narrow(x, rule.scope, input)).value
  {
    EvalFieldsSuccess(x, rule.fields, Narrow(x, rule.scope, input));
  }

  /** The first failing field, in declaration order, aborts the whole struct with its error. */
  lemma FromElementsFailsAtFirst<Ty, V, Err>(x: Extractors<Ty, V, Err>, rule: StructRule<Ty>, input: seq<Element>, i: nat)
    requires i < |rule.fields| && FieldValue(x, rule.fields[i], Narrow(x, rule.scope, input)).Failure?
    requires forall k :: 0 <= k < i ==> FieldValue(x, rule.fields[k], Narrow(x, rule.scope, input)).Success?
    ensures !rule.fields[i].rule.default
    ensures FromElements(x, rule, input) == Failure(FieldValue(x, rule.fields[i], Narrow(x, rule.scope, input)).error)
  {
    EvalFieldsFailsAtFirst(x, rule.fields, Narrow(x, rule.scope, input), i);
  }

  /** A struct whose fields are all `default` is built from any input. */
  lemma AllDefaultAlwaysBuilt<Ty, V, Err>(x: Extractors<Ty, V, Err>, rule: StructRule<Ty>, input: seq<Element>)
    requires forall k :: 0 <= k < |rule.fields| ==> rule.fields[k].rule.default
    ensures FromElements(x, rule, input).Success?
  {
    EvalFieldsSuccess(x, rule.fields, Narrow(x, rule.scope, input));
  }

  /** A unit struct gets no field plans and is built from any input without reading a field. */
  lemma UnitStructBuilt<Ty, V, Err>(parses: string -> bool, x: Extractors<Ty, V, Err>, item: ItemStruct<Ty>,
                                    input: seq<Element>)
    requires item.fields == Unit && Derive(parses, item).Success?
    ensures Derive(parses, item).value.fields == []
    ensures FromElements(x, Derive(parses, item).value, input) == Success(StructValue(item.name, UnitShape, []))
  {
  }

  // ---------------------------------------------------------------------------
  // How the field expressions are joined into the struct expression.

  /** A token of the generated field list: a separating comma or one field expression. */
  datatype Tok<Ty> = Comma | FieldTok(plan: FieldPlan<Ty>)

  /**
   * The field list as `gen_struct_field_values` writes it: starting from an
   * empty stream, each field appends `, field`.
   */
  function FieldPairsAsWritten<Ty>(plans: seq<FieldPlan<Ty>>): seq<Tok<Ty>>
    decreases |plans|
  {
    if plans == [] then []
    else FieldPairsAsWritten(plans[..|plans| - 1]) + [Comma, FieldTok(plans[|plans| - 1])]
  }

  /** A comma-separated list: fields at even positions, commas at odd ones, no comma first or last. */
  ghost predicate CommaSeparated<Ty>(toks: seq<Tok<Ty>>)
  {
    && (toks != [] ==> |toks| % 2 == 1)
    && forall k :: 0 <= k < |toks| ==> (toks[k].Comma? <==> k % 2 == 1)
  }

  /** As written, any non-empty field list starts with a comma, so `S{, a: …}` is produced. */
  lemma {:induction false} LeadingCommaAsWritten<Ty>(plans: seq<FieldPlan<Ty>>)
    requires plans != []
    ensures |FieldPairsAsWritten(plans)| == 2 * |plans|
    ensures FieldPairsAsWritten(plans)[0] == Comma
    ensures !CommaSeparated(FieldPairsAsWritten(plans))
    decreases |plans|
  {
    if |plans| > 1 {
      LeadingCommaAsWritten(plans[..|plans| - 1]);
    }
  }

  /** The field list as evidently intended: commas only between fields. */
  function FieldPairs<Ty>(plans: seq<FieldPlan<Ty>>): seq<Tok<Ty>>
    decreases |plans|
  {
    if plans == [] then []
    else if |plans| == 1 then [FieldTok(plans[0])]
    else FieldPairs(plans[..|plans| - 1]) + [Comma, FieldTok(plans[|plans| - 1])]
  }

  /** The intended list is comma-separated and carries the fields in declaration order. */
  lemma {:induction false} FieldPairsSeparated<Ty>(plans: seq<FieldPlan<Ty>>)
    ensures plans != [] ==> |FieldPairs(plans)| == 2 * |plans| - 1
    ensures CommaSeparated(FieldPairs(plans))
    ensures forall k :: 0 <= k < |plans| ==> FieldPairs(plans)[2 * k] == FieldTok(plans[k])
    decreases |plans|
  {
    if |plans| > 1 {
      var init := plans[..|plans| - 1];
      FieldPairsSeparated(init);
      assert forall k :: 0 <= k < |init| ==> init[k] == plans[k];
    }
  }
}
