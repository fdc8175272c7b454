/**
 * A child of the page's main-content container, as the crawler sees it
 * after parsing: a comment, or an element with its tag name, its text
 * (goquery's `Text()`, the concatenated text of all descendants) and the
 * `href` attributes of the `a` elements inside it, in document order
 * (`None` for an anchor without one).
 */
module Html {
  import opened Wrappers

  datatype Node =
    | Comment
    | Elem(tag: string, text: string, hrefs: seq<Option<string>>)
  {
    /** The anchors found by `Find("a")` on this node; a comment holds none. */
    function Anchors(): seq<Option<string>>
    {
      if Comment? then [] else hrefs
    }
  }
}
