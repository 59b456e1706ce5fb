/**
 * The value getters and sequence combinators of `unhtml_util/src/traits.rs`.
 *
 * A getter reads one string out of an element (an attribute, the inner
 * markup or the outer markup), possibly after narrowing to the first match of
 * a selector, and converts it with the target type's `from_str`. The boxed
 * closures of the source become the `Getter` descriptor interpreted by `Get`;
 * `from_str` is the parameter `fromStr`.
 */
module Traits {
  import opened Results
  import opened Dom

  /** `failure::Error` as the getters produce it: their own tagged error, or the conversion's. */
  datatype GetError<E> =
    | SelectOrAttrEmptyErr(attr: string, value: string)
    | FromStrErr(cause: E)

  /** `from_str(s)?`: the converted value, or the conversion error passed on unchanged. */
  function Convert<T, E>(fromStr: string -> Result<T, E>, s: string): Result<T, GetError<E>>
  {
    match fromStr(s)
    case Success(v) => Success(v)
    case Failure(e) => Failure(FromStrErr(e))
  }

  /** True when `r` is what `from_str` of the source string yields after `?`. */
  ghost predicate ConvertedFrom<T, E>(r: Result<T, GetError<E>>, fromStr: string -> Result<T, E>, s: string)
  {
    && (r.Success? <==> fromStr(s).Success?)
    && (r.Success? ==> r.value == fromStr(s).value)
    && (r.Failure? ==> r.error == FromStrErr(fromStr(s).error))
  }

  /** `get_elem_by_attr`: the named attribute of the element itself, converted. */
  function GetByAttr<T, E>(fromStr: string -> Result<T, E>, attr: string, elem: Element): (r: Result<T, GetError<E>>)
    ensures attr !in elem.attrs <==> r == Failure(SelectOrAttrEmptyErr("attr", attr))
    ensures attr in elem.attrs ==> ConvertedFrom(r, fromStr, elem.attrs[attr])
  {
    if attr in elem.attrs then Convert(fromStr, elem.attrs[attr])
    else Failure(SelectOrAttrEmptyErr("attr", attr))
  }

  /** `get_elem_by_inner_text`: the element's inner markup, converted; fails only in conversion. */
  function GetByInnerText<T, E>(fromStr: string -> Result<T, E>, elem: Element): (r: Result<T, GetError<E>>)
    ensures ConvertedFrom(r, fromStr, elem.innerHtml)
    ensures r.Failure? ==> r.error.FromStrErr?
  {
    Convert(fromStr, elem.innerHtml)
  }

  /** `get_elem_by_html`: the element's outer markup, converted; fails only in conversion. */
  function GetByHtml<T, E>(fromStr: string -> Result<T, E>, elem: Element): (r: Result<T, GetError<E>>)
    ensures ConvertedFrom(r, fromStr, elem.html)
    ensures r.Failure? ==> r.error.FromStrErr?
  {
    Convert(fromStr, elem.html)
  }

  /**
   * `get_elem_by_selector_and_attr`: the attribute of the first match of the
   * selector under `elem`. The selector is compiled with `unwrap()` when the
   * getter is built, hence the precondition.
   */
  function GetBySelectorAndAttr<T, E>(sc: Scraper, fromStr: string -> Result<T, E>, selector: string, attr: string,
                                     elem: Element): (r: Result<T, GetError<E>>)
    requires sc.parses(selector)
    ensures sc.select(elem, selector) == [] <==> r == Failure(SelectOrAttrEmptyErr("selector", selector))
    ensures sc.select(elem, selector) != [] ==> r == GetByAttr(fromStr, attr, sc.select(elem, selector)[0])
  {
    var matches := sc.select(elem, selector);
    if matches == [] then Failure(SelectOrAttrEmptyErr("selector", selector))
    else GetByAttr(fromStr, attr, matches[0])
  }

  /** `get_elem_by_selector_and_inner_text`: the inner markup of the first match. */
  function GetBySelectorAndInnerText<T, E>(sc: Scraper, fromStr: string -> Result<T, E>, selector: string,
                                          elem: Element): (r: Result<T, GetError<E>>)
    requires sc.parses(selector)
    ensures sc.select(elem, selector) == [] <==> r == Failure(SelectOrAttrEmptyErr("selector", selector))
    ensures sc.select(elem, selector) != [] ==> r == GetByInnerText(fromStr, sc.select(elem, selector)[0])
  {
    var matches := sc.select(elem, selector);
    if matches == [] then Failure(SelectOrAttrEmptyErr("selector", selector))
    else GetByInnerText(fromStr, matches[0])
  }

  /** `get_elem_by_selector_and_html`: the outer markup of the first match. */
  function GetBySelectorAndHtml<T, E>(sc: Scraper, fromStr: string -> Result<T, E>, selector: string,
                                     elem: Element): (r: Result<T, GetError<E>>)
    requires sc.parses(selector)
    ensures sc.select(elem, selector) == [] <==> r == Failure(SelectOrAttrEmptyErr("selector", selector))
    ensures sc.select(elem, selector) != [] ==> r == GetByHtml(fromStr, sc.select(elem, selector)[0])
  {
    var matches := sc.select(elem, selector);
    if matches == [] then Failure(SelectOrAttrEmptyErr("selector", selector))
    else GetByHtml(fromStr, matches[0])
  }

  /** The six getters of `FromHtml` as descriptors, in place of boxed closures. */
  datatype Getter =
    | BySelectorAndAttr(selector: string, attr: string)
    | BySelectorAndInnerText(selector: string)
    | BySelectorAndHtml(selector: string)
    | ByAttr(attr: string)
    | ByInnerText
    | ByHtml
  {
    /** Whether the getter first narrows by a selector. */
    predicate Scoped()
    {
      BySelectorAndAttr? || BySelectorAndInnerText? || BySelectorAndHtml?
    }

    /** A getter can be built only when its selector compiles (the `unwrap()` at construction). */
    predicate Valid(sc: Scraper)
    {
      Scoped() ==> sc.parses(selector)
    }

    /** The same read without the selection step. */
    function Unscoped(): Getter
    {
      match this
      case BySelectorAndAttr(_, a) => ByAttr(a)
      case BySelectorAndInnerText(_) => ByInnerText
      case BySelectorAndHtml(_) => ByHtml
      case _ => this
    }
  }

  /** The one evaluator for all getters. */
  function Get<T, E>(sc: Scraper, fromStr: string -> Result<T, E>, g: Getter, elem: Element): (r: Result<T, GetError<E>>)
    requires g.Valid(sc)
  {
    match g
    case BySelectorAndAttr(s, a) => GetBySelectorAndAttr(sc, fromStr, s, a, elem)
    case BySelectorAndInnerText(s) => GetBySelectorAndInnerText(sc, fromStr, s, elem)
    case BySelectorAndHtml(s) => GetBySelectorAndHtml(sc, fromStr, s, elem)
    case ByAttr(a) => GetByAttr(fromStr, a, elem)
    case ByInnerText => GetByInnerText(fromStr, elem)
    case ByHtml => GetByHtml(fromStr, elem)
  }

  /**
   * A getter with a selector reads the first match exactly as the unscoped
   * getter reads an element, and fails with the selector tag when nothing matches.
   */
  lemma ScopedReadsFirstMatch<T, E>(sc: Scraper, fromStr: string -> Result<T, E>, g: Getter, elem: Element)
    requires g.Valid(sc) && g.Scoped()
    ensures sc.select(elem, g.selector) == [] ==>
              Get(sc, fromStr, g, elem) == Failure(SelectOrAttrEmptyErr("selector", g.selector))
    ensures sc.select(elem, g.selector) != [] ==>
              Get(sc, fromStr, g, elem) == Get(sc, fromStr, g.Unscoped(), sc.select(elem, g.selector)[0])
  {
  }

  /** Only the first match counts: two elements whose matches begin alike read alike. */
  lemma OnlyFirstMatchRead<T, E>(sc: Scraper, fromStr: string -> Result<T, E>, g: Getter, e1: Element, e2: Element)
    requires g.Valid(sc) && g.Scoped()
    requires sc.select(e1, g.selector) != [] && sc.select(e2, g.selector) != []
    requires sc.select(e1, g.selector)[0] == sc.select(e2, g.selector)[0]
    ensures Get(sc, fromStr, g, e1) == Get(sc, fromStr, g, e2)
  {
    ScopedReadsFirstMatch(sc, fromStr, g, e1);
    ScopedReadsFirstMatch(sc, fromStr, g, e2);
  }

  /**
   * What `iter_from` computes: the getter applied to every element in order,
   * all results collected, or the first failure. `iter_from_single_attr` and
   * `iter_from_double_attr` build the getter, compiling its selector with
   * `unwrap()`, inside the loop, once per element; so only a non-empty
   * selection needs the getter to be valid.
   */
  function Collect<T, E>(sc: Scraper, fromStr: string -> Result<T, E>, g: Getter, selects: seq<Element>)
    : (r: Result<seq<T>, GetError<E>>)
    requires selects != [] ==> g.Valid(sc)
    ensures r.Success? ==> |r.value| == |selects|
    decreases |selects|
  {
    if selects == [] then Success([])
    else
      match Get(sc, fromStr, g, selects[0])
      case Failure(e) => Failure(e)
      case Success(v) =>
        match Collect(sc, fromStr, g, selects[1..])
        case Failure(e) => Failure(e)
        case Success(vs) => Success([v] + vs)
  }

  /** The collection succeeds exactly when every element does, and then holds their values in order. */
  lemma {:induction false} CollectSuccess<T, E>(sc: Scraper, fromStr: string -> Result<T, E>, g: Getter, selects: seq<Element>)
    requires selects != [] ==> g.Valid(sc)
    ensures Collect(sc, fromStr, g, selects).Success? <==>
              forall k :: 0 <= k < |selects| ==> Get(sc, fromStr, g, selects[k]).Success?
    ensures Collect(sc, fromStr, g, selects).Success? ==>
              forall k :: 0 <= k < |selects| ==>
                Collect(sc, fromStr, g, selects).value[k] == Get(sc, fromStr, g, selects[k]).value
    decreases |selects|
  {
    if selects != [] {
      CollectSuccess(sc, fromStr, g, selects[1..]);
      assert forall k :: 1 <= k < |selects| ==> selects[k] == selects[1..][k - 1];
    }
  }

  /** Fail-fast: the error is that of the first failing element, whatever follows it. */
  lemma {:induction false} CollectFailsAtFirst<T, E>(sc: Scraper, fromStr: string -> Result<T, E>, g: Getter,
                                                    selects: seq<Element>, i: nat)
    requires selects != [] ==> g.Valid(sc)
    requires i < |selects| && Get(sc, fromStr, g, selects[i]).Failure?
    requires forall k :: 0 <= k < i ==> Get(sc, fromStr, g, selects[k]).Success?
    ensures Collect(sc, fromStr, g, selects) == Failure(Get(sc, fromStr, g, selects[i]).error)
    decreases i
  {
    if i > 0 {
      assert forall k :: 0 <= k < i - 1 ==> selects[1..][k] == selects[k + 1];
      CollectFailsAtFirst(sc, fromStr, g, selects[1..], i - 1);
    }
  }

  /**
   * `iter_from` (and `iter_from_single_attr`, `iter_from_double_attr`, which
   * differ only in how the getter is built): push each element's value onto a
   * list, returning at the first error.
   */
  method IterFrom<T, E>(sc: Scraper, fromStr: string -> Result<T, E>, g: Getter, selects: seq<Element>)
    returns (r: Result<seq<T>, GetError<E>>)
    requires selects != [] ==> g.Valid(sc)
    ensures r == Collect(sc, fromStr, g, selects)
  {
    var list: seq<T> := [];
    var i := 0;
    while i < |selects|
      invariant 0 <= i <= |selects|
      invariant |list| == i
      invariant forall k :: 0 <= k < i ==>
                  Get(sc, fromStr, g, selects[k]).Success? && list[k] == Get(sc, fromStr, g, selects[k]).value
    {
      var item := Get(sc, fromStr, g, selects[i]);
      if item.Failure? {
        CollectFailsAtFirst(sc, fromStr, g, selects, i);
        return Failure(item.error);
      }
      list := list + [item.value];
      i := i + 1;
    }
    CollectSuccess(sc, fromStr, g, selects);
    assert Collect(sc, fromStr, g, selects).value == list;
    r := Success(list);
  }

  /** `iter_by_selector_and_attr`. */
  method IterBySelectorAndAttr<T, E>(sc: Scraper, fromStr: string -> Result<T, E>, selector: string, attr: string,
                                     selects: seq<Element>) returns (r: Result<seq<T>, GetError<E>>)
    requires selects != [] ==> sc.parses(selector)
    ensures r == Collect(sc, fromStr, BySelectorAndAttr(selector, attr), selects)
  {
    r := IterFrom(sc, fromStr, BySelectorAndAttr(selector, attr), selects);
  }

  /** `iter_selector_and_html`. */
  method IterSelectorAndHtml<T, E>(sc: Scraper, fromStr: string -> Result<T, E>, selector: string,
                                   selects: seq<Element>) returns (r: Result<seq<T>, GetError<E>>)
    requires selects != [] ==> sc.parses(selector)
    ensures r == Collect(sc, fromStr, BySelectorAndHtml(selector), selects)
  {
    r := IterFrom(sc, fromStr, BySelectorAndHtml(selector), selects);
  }

  /** `iter_by_selector_and_inner_text`. */
  method IterBySelectorAndInnerText<T, E>(sc: Scraper, fromStr: string -> Result<T, E>, selector: string,
                                          selects: seq<Element>) returns (r: Result<seq<T>, GetError<E>>)
    requires selects != [] ==> sc.parses(selector)
    ensures r == Collect(sc, fromStr, BySelectorAndInnerText(selector), selects)
  {
    r := IterFrom(sc, fromStr, BySelectorAndInnerText(selector), selects);
  }

  /** `iter_by_attr` (its parameter, named `selector_str` in the source, is the attribute name). */
  method IterByAttr<T, E>(sc: Scraper, fromStr: string -> Result<T, E>, attr: string, selects: seq<Element>)
    returns (r: Result<seq<T>, GetError<E>>)
    ensures r == Collect(sc, fromStr, ByAttr(attr), selects)
  {
    r := IterFrom(sc, fromStr, ByAttr(attr), selects);
  }

  /** `iter_by_html`. */
  method IterByHtml<T, E>(sc: Scraper, fromStr: string -> Result<T, E>, selects: seq<Element>)
    returns (r: Result<seq<T>, GetError<E>>)
    ensures r == Collect(sc, fromStr, ByHtml, selects)
  {
    r := IterFrom(sc, fromStr, ByHtml, selects);
  }

  /** `iter_by_inner_text`. */
  method IterByInnerText<T, E>(sc: Scraper, fromStr: string -> Result<T, E>, selects: seq<Element>)
    returns (r: Result<seq<T>, GetError<E>>)
    ensures r == Collect(sc, fromStr, ByInnerText, selects)
  {
    r := IterFrom(sc, fromStr, ByInnerText, selects);
  }
}
