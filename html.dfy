/**
 * The parsed HTML document as the controller sees it through HtmlAgilityPack:
 * the document's elements in document order, each with its (lower-cased) tag
 * name and attribute map. The JSON decoding of an element's inner text is
 * carried with the element: None when JsonConvert.DeserializeObject returns
 * null (blank text) or throws (text that is not a PageSchemaModel).
 */
module Html {
  import opened Wrappers
  import opened Models

  datatype Element = Element(name: string, attributes: map<string, string>, innerJson: Option<PageSchema>)

  type Page = seq<Element>

  /** HtmlNode.GetAttributeValue(name, def): the attribute's value, or def when it is absent. */
  function GetAttributeValue(element: Element, name: string, def: string): string {
    if name in element.attributes then element.attributes[name] else def
  }

  /** HtmlNode.Descendants(name): the elements with that tag name, in document order. */
  function Descendants(page: Page, name: string): (r: seq<Element>)
    ensures forall e :: e in r <==> e in page && e.name == name
  {
    if page == [] then []
    else (if page[0].name == name then [page[0]] else []) + Descendants(page[1..], name)
  }

  lemma {:induction false} DescendantsAppend(a: Page, b: Page, name: string)
    ensures Descendants(a + b, name) == Descendants(a, name) + Descendants(b, name)
  {
    if a == [] {
      assert a + b == b;
    } else {
      assert (a + b)[1..] == a[1..] + b;
      DescendantsAppend(a[1..], b, name);
    }
  }
}
