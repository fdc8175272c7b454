/** Per-page file names and the host part of a crawled URL (scraper/wiki.go). */
module Naming {
  import opened GoStrings

  /**
   * `SnakeCase`: trim, lower-case, then spaces to underscores.  The result
   * has no space, no upper-case ASCII letter, no whitespace at either end,
   * as many characters as the trimmed input, and only characters that are
   * `_` or a lower-cased character of the input.
   */
  function SnakeCase(str: string): (r: string)
    ensures forall i :: 0 <= i < |r| ==> r[i] != ' ' && !IsUpper(r[i])
    ensures r == [] || (!IsSpace(r[0]) && !IsSpace(r[|r| - 1]))
    ensures |r| == |TrimSpace(str)|
    ensures forall c :: c in r ==> c == '_' || exists d :: d in str && c == LowerChar(d)
  {
    SnakeCaseFacts(str);
    ReplaceAll(ToLower(TrimSpace(str)), " ", "_")
  }

  lemma SnakeCaseFacts(str: string)
    ensures var t := TrimSpace(str);
            var r := ReplaceAll(ToLower(t), " ", "_");
            && |r| == |t|
            && (forall i :: 0 <= i < |r| ==> r[i] != ' ' && !IsUpper(r[i]))
            && (r == [] || (!IsSpace(r[0]) && !IsSpace(r[|r| - 1])))
            && (forall c :: c in r ==> c == '_' || exists d :: d in str && c == LowerChar(d))
  {
    var t := TrimSpace(str);
    var l := ToLower(t);
    ReplaceCharPointwise(l, ' ', '_');
    var r := ReplaceAll(l, " ", "_");
    forall i | 0 <= i < |r|
      ensures r[i] != ' ' && !IsUpper(r[i])
      ensures r[i] == '_' || (r[i] == LowerChar(t[i]) && t[i] in str)
      ensures IsSpace(r[i]) ==> IsSpace(t[i])
    {
      assert r[i] == if l[i] == ' ' then '_' else l[i];
      assert l[i] == LowerChar(t[i]);
    }
    forall c | c in r ensures c == '_' || exists d :: d in str && c == LowerChar(d) {
      var i :| 0 <= i < |r| && r[i] == c;
      if c != '_' {
        assert c == LowerChar(t[i]) && t[i] in str;
      }
    }
  }

  /** The base of the per-page file name for a page title (scraper/wiki.go:174). */
  function FileBase(pageTitle: string): (r: string)
    ensures '/' !in r
    ensures forall i :: 0 <= i < |r| ==> r[i] != ' ' && !IsUpper(r[i])
    ensures r == [] || (!IsSpace(r[0]) && !IsSpace(r[|r| - 1]))
  {
    var u := ReplaceAll(pageTitle, "/", "_");
    ReplaceCharRemoves(pageTitle, '/', "_");
    SnakeCase(u)
  }

  /**
   * The site root a crawled page's links are resolved against
   * (scraper/wiki.go:180-182): `https://` and the text of the URL, less a
   * leading `https://`, up to its first `/`.
   */
  function BaseUrl(url: string): (r: string)
    ensures HasPrefix(r, "https://")
    ensures '/' !in r[8..]
  {
    "https://" + Before(TrimPrefix(url, "https://"), '/')
  }

  /** An `https` URL gives its own scheme and host. */
  lemma BaseUrlOfHttps(host: string, path: string)
    requires '/' !in host
    requires path == [] || path[0] == '/'
    ensures BaseUrl("https://" + host + path) == "https://" + host
  {
    var url := "https://" + host + path;
    assert HasPrefix(url, "https://");
    assert TrimPrefix(url, "https://") == host + path;
    BeforeConcat(host, '/', path);
  }

  /** An `http` URL gives the nonsensical root `https://http:`, whatever follows the scheme. */
  lemma BaseUrlOfHttp(rest: string)
    ensures BaseUrl("http://" + rest) == "https://http:"
  {
    var url := "http://" + rest;
    assert url[4] == ':' != 's';
    assert !HasPrefix(url, "https://");
    BeforeConcat("http:", '/', url[5..]);
    assert url == "http:" + url[5..];
  }

  /** A discovered site-relative link made absolute (scraper/wiki.go:185). */
  function Resolve(url: string, href: string): (r: string)
    ensures HasPrefix(r, "https://")
  {
    BaseUrl(url) + href
  }
}
