/**
 * The HTML library the extractor is built on (the `scraper` crate), reduced to
 * the reads the core makes of it. Parsing and CSS matching are not modelled:
 * an element is a value that carries its attributes and its two markup
 * renderings, and selector compilation and matching are supplied as functions.
 */
module Dom {

  /** A parsed element: attributes by name, `inner_html()` and `html()`. */
  datatype Element = Element(attrs: map<string, string>, innerHtml: string, html: string)

  /**
   * The selector side of the library. `parses(s)` says whether `Selector::parse(s)`
   * succeeds; `select(e, s)` is `e.select(&Selector::parse(s).unwrap())`, the
   * matching descendants of `e` in document order.
   */
  datatype Scraper = Scraper(parses: string -> bool, select: (Element, string) -> seq<Element>)
}
