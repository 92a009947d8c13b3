/** The page as the content scripts see it, reduced to what they read: the
    address bar, the text of the elements each selector finds (in document
    order) and the visible text of the body. CSS selector matching itself
    is not modelled: the snapshot answers `querySelectorAll` directly. */
module Dom {

  datatype Page = Page(url: string, elements: map<string, seq<string>>, bodyText: string)

  /** `document.querySelectorAll(selector)`, as the texts of the elements found. */
  function QueryAll(page: Page, selector: string): (texts: seq<string>)
    ensures selector !in page.elements ==> texts == []
  {
    if selector in page.elements then page.elements[selector] else []
  }

  /** `document.querySelector(selector)` finds an element. */
  predicate HasMatch(page: Page, selector: string) {
    |QueryAll(page, selector)| > 0
  }

  /** The text of the element `document.querySelector(selector)` returns. */
  function FirstText(page: Page, selector: string): string
    requires HasMatch(page, selector)
  {
    QueryAll(page, selector)[0]
  }
}
