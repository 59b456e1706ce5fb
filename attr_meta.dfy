/**
 * The `#[html(...)]` attribute validator of `unhtml_derive/src/attr_meta.rs`.
 *
 * A struct or field carries attributes; exactly one of them must have the
 * path `html`, and its meta item is folded into an `AttrMeta` record of an
 * optional selector, an optional attribute name and a default flag. The Rust
 * compiler's token trees are replaced by the small `Meta` tree that `syn`
 * parses them into; whether a selector compiles is the parameter `parses`.
 */
module AttributeMeta {
  import opened Results

  const HtmlAttr := "html"
  const SelectorAttr := "selector"
  const AttrAttr := "attr"
  const DefaultAttr := "default"

  /** A literal as `syn` classifies it; only string literals are ever accepted. */
  datatype Lit = LitStr(value: string) | LitInt(digits: int) | LitBool(truth: bool) | LitOther(token: string)

  /** `syn::Meta`: `word`, `name = lit` or `name(nested, ...)`. */
  datatype Meta =
    | Word(ident: string)
    | NameValue(ident: string, lit: Lit)
    | List(ident: string, nested: seq<NestedMeta>)

  /** `syn::NestedMeta`: an item inside a list. */
  datatype NestedMeta = Literal(lit: Lit) | Nested(meta: Meta)

  /** An attribute: its path segments, and its meta item, or `None` when `parse_meta` fails. */
  datatype Attribute = Attribute(path: seq<string>, parsed: Option<Meta>)

  /** The diagnostics the validator reports. */
  datatype Diagnostic =
    | NotOneHtmlAttribute         // each derived target or field can only have one `html` attribute
    | UnparsableAttribute         // `parse_meta` failed
    | InvalidAttribute(meta: Meta) // invalid `html` attribute, showing the whole meta item
    | SelectorNotStr              // selector should be str literal
    | AttrNotStr                  // attr should be str literal
    | InvalidCssSelector(selector: string)

  /** The validated rule. */
  datatype AttrMeta = AttrMeta(selector: Option<string>, attr: Option<string>, default: bool)

  /** What `try_from` starts from. */
  const Empty := AttrMeta(None, None, false)

  /** `attr.path.is_ident("html")`: the path is the single identifier `html`. */
  predicate IsHtml(a: Attribute)
  {
    a.path == [HtmlAttr]
  }

  /** The `filter_map` step of `filter_attrs`: the `html` attributes, in order. */
  function HtmlAttrs(attrs: seq<Attribute>): (r: seq<Attribute>)
    ensures forall a :: a in r ==> IsHtml(a)
    decreases |attrs|
  {
    if attrs == [] then []
    else if IsHtml(attrs[0]) then [attrs[0]] + HtmlAttrs(attrs[1..])
    else HtmlAttrs(attrs[1..])
  }

  /** `filter_attrs`: the meta item of the one `html` attribute. */
  function FilterAttrs(attrs: seq<Attribute>): (r: Result<Meta, Diagnostic>)
    ensures |HtmlAttrs(attrs)| != 1 <==> r == Failure(NotOneHtmlAttribute)
    ensures r.Success? ==> |HtmlAttrs(attrs)| == 1 && HtmlAttrs(attrs)[0].parsed == Some(r.value)
    ensures |HtmlAttrs(attrs)| == 1 && HtmlAttrs(attrs)[0].parsed.None? ==> r == Failure(UnparsableAttribute)
  {
    var html := HtmlAttrs(attrs);
    if |html| != 1 then Failure(NotOneHtmlAttribute)
    else
      match html[0].parsed
      case None => Failure(UnparsableAttribute)
      case Some(m) => Success(m)
  }

  lemma {:induction false} HtmlAttrsNone(attrs: seq<Attribute>)
    requires forall j :: 0 <= j < |attrs| ==> !IsHtml(attrs[j])
    ensures HtmlAttrs(attrs) == []
    decreases |attrs|
  {
    if attrs != [] {
      HtmlAttrsNone(attrs[1..]);
    }
  }

  lemma {:induction false} HtmlAttrsOne(attrs: seq<Attribute>, i: nat)
    requires i < |attrs| && IsHtml(attrs[i])
    requires forall j :: 0 <= j < |attrs| && j != i ==> !IsHtml(attrs[j])
    ensures HtmlAttrs(attrs) == [attrs[i]]
    decreases |attrs|
  {
    if i == 0 {
      HtmlAttrsNone(attrs[1..]);
    } else {
      HtmlAttrsOne(attrs[1..], i - 1);
    }
  }

  lemma {:induction false} HtmlAttrsTwo(attrs: seq<Attribute>, i: nat, j: nat)
    requires i < j < |attrs| && IsHtml(attrs[i]) && IsHtml(attrs[j])
    ensures |HtmlAttrs(attrs)| >= 2
    decreases |attrs|
  {
    if i == 0 {
      HtmlAttrsAtLeastOne(attrs[1..], j - 1);
    } else {
      HtmlAttrsTwo(attrs[1..], i - 1, j - 1);
    }
  }

  lemma {:induction false} HtmlAttrsAtLeastOne(attrs: seq<Attribute>, i: nat)
    requires i < |attrs| && IsHtml(attrs[i])
    ensures |HtmlAttrs(attrs)| >= 1
    decreases |attrs|
  {
    if i > 0 {
      HtmlAttrsAtLeastOne(attrs[1..], i - 1);
    }
  }

  /** With no `html` attribute, `filter_attrs` fails. */
  lemma FilterAttrsNone(attrs: seq<Attribute>)
    requires forall j :: 0 <= j < |attrs| ==> !IsHtml(attrs[j])
    ensures FilterAttrs(attrs) == Failure(NotOneHtmlAttribute)
  {
    HtmlAttrsNone(attrs);
  }

  /** With two or more `html` attributes, `filter_attrs` fails. */
  lemma FilterAttrsSeveral(attrs: seq<Attribute>, i: nat, j: nat)
    requires i < j < |attrs| && IsHtml(attrs[i]) && IsHtml(attrs[j])
    ensures FilterAttrs(attrs) == Failure(NotOneHtmlAttribute)
  {
    HtmlAttrsTwo(attrs, i, j);
  }

  /** With exactly one `html` attribute, `filter_attrs` yields its meta item, whatever else is there. */
  lemma FilterAttrsExactlyOne(attrs: seq<Attribute>, i: nat)
    requires i < |attrs| && IsHtml(attrs[i])
    requires forall j :: 0 <= j < |attrs| && j != i ==> !IsHtml(attrs[j])
    ensures attrs[i].parsed.Some? ==> FilterAttrs(attrs) == Success(attrs[i].parsed.value)
    ensures attrs[i].parsed.None? ==> FilterAttrs(attrs) == Failure(UnparsableAttribute)
  {
    HtmlAttrsOne(attrs, i);
  }

  /** `check_selector`: success exactly when the selector compiles. */
  function CheckSelector(parses: string -> bool, selector: string): (r: Result<(), Diagnostic>)
    ensures r.Success? <==> parses(selector)
    ensures r.Failure? ==> r.error == InvalidCssSelector(selector)
  {
    if parses(selector) then Success(()) else Failure(InvalidCssSelector(selector))
  }

  /** `get_lit_str_value`: the text of a string literal, nothing for any other literal. */
  function GetLitStrValue(lit: Lit): (r: Option<string>)
    ensures r.Some? <==> lit.LitStr?
    ensures r.Some? ==> r.value == lit.value
  {
    match lit
    case LitStr(s) => Some(s)
    case _ => None
  }

  /**
   * One iteration of the loop in `try_from` over the items of `#[html(...)]`;
   * `whole` is the list meta shown in the "invalid attribute" diagnostic.
   */
  function Step(whole: Meta, parses: string -> bool, item: NestedMeta, acc: AttrMeta): Result<AttrMeta, Diagnostic>
  {
    match item
    case Literal(_) => Failure(InvalidAttribute(whole))
    case Nested(Word(id)) =>
      if id == DefaultAttr then Success(acc.(default := true)) else Failure(InvalidAttribute(whole))
    case Nested(NameValue(key, lit)) =>
      if key == SelectorAttr then
        match GetLitStrValue(lit)
        case None => Failure(SelectorNotStr)
        case Some(s) =>
          match CheckSelector(parses, s)
          case Failure(d) => Failure(d)
          case Success(_) => Success(acc.(selector := Some(s)))
      else if key == AttrAttr then
        match GetLitStrValue(lit)
        case None => Failure(AttrNotStr)
        case Some(s) => Success(acc.(attr := Some(s)))
      else Success(acc)
    case Nested(List(_, _)) => Failure(InvalidAttribute(whole))
  }

  /** The whole loop: the items applied in order, stopping at the first error. */
  function Fold(whole: Meta, parses: string -> bool, items: seq<NestedMeta>, acc: AttrMeta): Result<AttrMeta, Diagnostic>
    decreases |items|
  {
    if items == [] then Success(acc)
    else
      match Step(whole, parses, items[0], acc)
      case Failure(d) => Failure(d)
      case Success(next) => Fold(whole, parses, items[1..], next)
  }

  /** The meaning of `AttrMeta::try_from`. */
  function AttrMetaOf(parses: string -> bool, attrs: seq<Attribute>): Result<AttrMeta, Diagnostic>
  {
    match FilterAttrs(attrs)
    case Failure(d) => Failure(d)
    case Success(meta) =>
      match meta
      case Word(_) => Success(Empty)
      case NameValue(_, _) => Failure(InvalidAttribute(meta))
      case List(_, nested) => Fold(meta, parses, nested, Empty)
  }

  /** `AttrMeta::try_from`, with its three mutable locals updated inside the loop. */
  method TryFrom(parses: string -> bool, attrs: seq<Attribute>) returns (r: Result<AttrMeta, Diagnostic>)
    ensures r == AttrMetaOf(parses, attrs)
  {
    var filtered := FilterAttrs(attrs);
    if filtered.Failure? {
      return Failure(filtered.error);
    }
    var meta := filtered.value;
    var selector: Option<string> := None;
    var attr: Option<string> := None;
    var default := false;
    match meta {
      case Word(_) =>
      case NameValue(_, _) =>
        return Failure(InvalidAttribute(meta));
      case List(_, nested) =>
        var i := 0;
        while i < |nested|
          invariant 0 <= i <= |nested|
          invariant Fold(meta, parses, nested, Empty) == Fold(meta, parses, nested[i..], AttrMeta(selector, attr, default))
        {
          assert nested[i..][1..] == nested[i + 1..];
          match nested[i] {
            case Literal(_) =>
              return Failure(InvalidAttribute(meta));
            case Nested(inner) =>
              match inner {
                case Word(id) =>
                  if id == DefaultAttr {
                    default := true;
                  } else {
                    return Failure(InvalidAttribute(meta));
                  }
                case NameValue(key, lit) =>
                  if key == SelectorAttr {
                    var selectorLit := GetLitStrValue(lit);
                    if selectorLit.None? {
                      return Failure(SelectorNotStr);
                    }
                    var checked := CheckSelector(parses, selectorLit.value);
                    if checked.Failure? {
                      return Failure(checked.error);
                    }
                    selector := Some(selectorLit.value);
                  } else if key == AttrAttr {
                    var attrLit := GetLitStrValue(lit);
                    if attrLit.None? {
                      return Failure(AttrNotStr);
                    }
                    attr := Some(attrLit.value);
                  }
                case List(_, _) =>
                  return Failure(InvalidAttribute(meta));
              }
          }
          i := i + 1;
        }
    }
    r := Success(AttrMeta(selector, attr, default));
  }

  // ---------------------------------------------------------------------------
  // What the validator accepts, independently of how the loop is written.

  /**
   * The items `try_from` lets through: the word `default`; `selector = "…"`
   * with a compiling selector; `attr = "…"`; and `name = lit` for any other
   * name, whatever the literal.
   */
  predicate Acceptable(parses: string -> bool, item: NestedMeta)
  {
    match item
    case Literal(_) => false
    case Nested(Word(id)) => id == DefaultAttr
    case Nested(NameValue(key, lit)) =>
      && (key == SelectorAttr ==> lit.LitStr? && parses(lit.value))
      && (key == AttrAttr ==> lit.LitStr?)
    case Nested(List(_, _)) => false
  }

  /** The string of the last `key = "…"` item, if there is one. */
  function LastStr(items: seq<NestedMeta>, key: string): (r: Option<string>)
    ensures r.Some? ==> Nested(NameValue(key, LitStr(r.value))) in items
    decreases |items|
  {
    if items == [] then None
    else
      match LastStr(items[1..], key)
      case Some(s) => Some(s)
      case None =>
        if items[0].Nested? && items[0].meta.NameValue? && items[0].meta.ident == key && items[0].meta.lit.LitStr?
        then Some(items[0].meta.lit.value)
        else None
  }

  /** `later` if it is set, otherwise `earlier`. */
  function Latest(later: Option<string>, earlier: Option<string>): Option<string>
  {
    if later.Some? then later else earlier
  }

  /** A step succeeds exactly on acceptable items. */
  lemma StepSucceedsIff(whole: Meta, parses: string -> bool, item: NestedMeta, acc: AttrMeta)
    ensures Step(whole, parses, item, acc).Success? <==> Acceptable(parses, item)
  {
  }

  /** The fold succeeds exactly when every item is acceptable: any literal, nested list or other word is rejected. */
  lemma {:induction false} FoldSucceedsIff(whole: Meta, parses: string -> bool, items: seq<NestedMeta>, acc: AttrMeta)
    ensures Fold(whole, parses, items, acc).Success? <==> forall k :: 0 <= k < |items| ==> Acceptable(parses, items[k])
    decreases |items|
  {
    if items != [] {
      StepSucceedsIff(whole, parses, items[0], acc);
      var step := Step(whole, parses, items[0], acc);
      if step.Success? {
        FoldSucceedsIff(whole, parses, items[1..], step.value);
        assert forall k :: 1 <= k < |items| ==> items[k] == items[1..][k - 1];
      }
    }
  }

  /**
   * On success the rule is determined by the items alone: the last selector
   * and the last attr win, and `default` is set when the word `default` occurs.
   */
  lemma {:induction false} FoldValue(whole: Meta, parses: string -> bool, items: seq<NestedMeta>, acc: AttrMeta)
    requires Fold(whole, parses, items, acc).Success?
    ensures Fold(whole, parses, items, acc).value ==
              AttrMeta(Latest(LastStr(items, SelectorAttr), acc.selector),
                       Latest(LastStr(items, AttrAttr), acc.attr),
                       acc.default || Nested(Word(DefaultAttr)) in items)
    decreases |items|
  {
    if items != [] {
      var next := Step(whole, parses, items[0], acc).value;
      FoldValue(whole, parses, items[1..], next);
      assert items == [items[0]] + items[1..];
    }
  }

  /** Fail-fast: the error is the one the first unacceptable item raises. */
  lemma {:induction false} FoldFailsAtFirst(whole: Meta, parses: string -> bool, items: seq<NestedMeta>, acc: AttrMeta, i: nat)
    requires i < |items| && !Acceptable(parses, items[i])
    requires forall k :: 0 <= k < i ==> Acceptable(parses, items[k])
    ensures Fold(whole, parses, items, acc) == Failure(Step(whole, parses, items[i], acc).error)
    decreases i
  {
    StepSucceedsIff(whole, parses, items[0], acc);
    if i > 0 {
      assert forall k :: 0 <= k < i - 1 ==> items[1..][k] == items[k + 1];
      var next := Step(whole, parses, items[0], acc).value;
      FoldFailsAtFirst(whole, parses, items[1..], next, i - 1);
    }
  }

  /** A `name = lit` item whose name is neither `selector` nor `attr` changes nothing. */
  lemma {:induction false} FoldIgnoresUnknownKey(whole: Meta, parses: string -> bool, xs: seq<NestedMeta>,
                                                key: string, lit: Lit, ys: seq<NestedMeta>, acc: AttrMeta)
    requires key != SelectorAttr && key != AttrAttr
    ensures Fold(whole, parses, xs + [Nested(NameValue(key, lit))] + ys, acc) == Fold(whole, parses, xs + ys, acc)
    decreases |xs|
  {
    var items := xs + [Nested(NameValue(key, lit))] + ys;
    if xs == [] {
      assert items[0] == Nested(NameValue(key, lit)) && items[1..] == ys && xs + ys == ys;
      assert Step(whole, parses, items[0], acc) == Success(acc);
    } else {
      assert items[0] == xs[0];
      assert items[1..] == xs[1..] + [Nested(NameValue(key, lit))] + ys;
      assert (xs + ys)[1..] == xs[1..] + ys;
      var step := Step(whole, parses, xs[0], acc);
      if step.Success? {
        FoldIgnoresUnknownKey(whole, parses, xs[1..], key, lit, ys, step.value);
      }
    }
  }

  /** A selector that survives validation compiles. */
  lemma {:induction false} FoldSelectorParses(whole: Meta, parses: string -> bool, items: seq<NestedMeta>, acc: AttrMeta)
    requires acc.selector.Some? ==> parses(acc.selector.value)
    requires Fold(whole, parses, items, acc).Success?
    ensures Fold(whole, parses, items, acc).value.selector.Some? ==> parses(Fold(whole, parses, items, acc).value.selector.value)
    decreases |items|
  {
    if items != [] {
      FoldSelectorParses(whole, parses, items[1..], Step(whole, parses, items[0], acc).value);
    }
  }

  /** A bare `#[html]` yields no selector, no attr and no default. */
  lemma TryFromWord(parses: string -> bool, attrs: seq<Attribute>, id: string)
    requires FilterAttrs(attrs) == Success(Word(id))
    ensures AttrMetaOf(parses, attrs) == Success(AttrMeta(None, None, false))
  {
  }

  /** A top-level `#[html = lit]` is rejected. */
  lemma TryFromNameValue(parses: string -> bool, attrs: seq<Attribute>, id: string, lit: Lit)
    requires FilterAttrs(attrs) == Success(NameValue(id, lit))
    ensures AttrMetaOf(parses, attrs) == Failure(InvalidAttribute(NameValue(id, lit)))
  {
  }

  /** `#[html(...)]`: accepted exactly when every item is, and then the rule the items determine. */
  lemma TryFromList(parses: string -> bool, attrs: seq<Attribute>, id: string, nested: seq<NestedMeta>)
    requires FilterAttrs(attrs) == Success(List(id, nested))
    ensures AttrMetaOf(parses, attrs).Success? <==> forall k :: 0 <= k < |nested| ==> Acceptable(parses, nested[k])
    ensures AttrMetaOf(parses, attrs).Success? ==>
              AttrMetaOf(parses, attrs).value ==
                AttrMeta(LastStr(nested, SelectorAttr), LastStr(nested, AttrAttr), Nested(Word(DefaultAttr)) in nested)
  {
    FoldSucceedsIff(List(id, nested), parses, nested, Empty);
    if AttrMetaOf(parses, attrs).Success? {
      FoldValue(List(id, nested), parses, nested, Empty);
    }
  }

  /** Every selector in a validated rule compiles, so the generated `unwrap()` never panics. */
  lemma AttrMetaSelectorParses(parses: string -> bool, attrs: seq<Attribute>)
    requires AttrMetaOf(parses, attrs).Success?
    ensures AttrMetaOf(parses, attrs).value.selector.Some? ==> parses(AttrMetaOf(parses, attrs).value.selector.value)
  {
    var meta := FilterAttrs(attrs).value;
    if meta.List? {
      FoldSelectorParses(meta, parses, meta.nested, Empty);
    }
  }
}
