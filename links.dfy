/** Link extraction and first-occurrence deduplication (scraper/wiki.go:79-107, 168-172). */
module Links {
  import opened Wrappers
  import opened GoStrings
  import opened Seqs
  import opened Html

  /**
   * The per-anchor test of `GetLinks`: a site-relative path that, lower-cased,
   * does not name a `.jpg` or `.png` image.
   */
  predicate IsContentLink(link: string)
  {
    && HasPrefix(link, "/")
    && !HasSuffix(ToLower(link), ".jpg")
    && !HasSuffix(ToLower(link), ".png")
  }

  /** A link ending in `.jpg` or `.png`, in any mix of letter cases, is rejected. */
  lemma ImageLinkRejected(path: string, ext: string)
    requires ToLower(ext) == ".jpg" || ToLower(ext) == ".png"
    ensures !IsContentLink(path + ext)
  {
    LowerSuffix(path, ext);
  }

  /** `GetLinks`: the `href`s that pass the test, in anchor order, duplicates kept. */
  function GetLinks(hrefs: seq<Option<string>>): (r: seq<string>)
    ensures forall l :: l in r ==> IsContentLink(l)
    ensures |r| <= |hrefs|
  {
    if hrefs == [] then []
    else
      AnchorLink(hrefs[0]) + GetLinks(hrefs[1..])
  }

  /** The one anchor's contribution to `GetLinks`. */
  function AnchorLink(href: Option<string>): (r: seq<string>)
    ensures r == [] || (href.Some? && IsContentLink(href.value) && r == [href.value])
  {
    match href
    case Some(link) => if IsContentLink(link) then [link] else []
    case None => []
  }

  /** Filtering one anchor list after another is filtering their concatenation: order is kept. */
  lemma {:induction false} GetLinksAppend(a: seq<Option<string>>, b: seq<Option<string>>)
    ensures GetLinks(a + b) == GetLinks(a) + GetLinks(b)
  {
    if a != [] {
      GetLinksAppend(a[1..], b);
      assert (a + b)[0] == a[0];
      assert (a + b)[1..] == a[1..] + b;
    } else {
      assert a + b == b;
    }
  }

  /** Every passing link is kept as often as it occurs; every failing one is dropped. */
  lemma {:induction false} GetLinksMultiplicity(hrefs: seq<Option<string>>, link: string)
    ensures multiset(GetLinks(hrefs))[link] == if IsContentLink(link) then multiset(hrefs)[Some(link)] else 0
  {
    if hrefs != [] {
      GetLinksMultiplicity(hrefs[1..], link);
      assert hrefs == [hrefs[0]] + hrefs[1..];
      var head := AnchorLink(hrefs[0]);
      assert GetLinks(hrefs) == head + GetLinks(hrefs[1..]);
      assert multiset(head)[link] == if IsContentLink(link) && hrefs[0] == Some(link) then 1 else 0;
    }
  }

  /** The links of all children of the content container, child after child (scraper/wiki.go:168-170). */
  function ContentLinks(nodes: seq<Node>): (r: seq<string>)
    ensures forall l :: l in r ==> IsContentLink(l)
  {
    if nodes == [] then [] else GetLinks(nodes[0].Anchors()) + ContentLinks(nodes[1..])
  }

  /** The position of the first occurrence of `x` in `s`. */
  function FirstIndex(s: seq<string>, x: string): (k: nat)
    requires x in s
    ensures k < |s| && s[k] == x && x !in s[..k]
  {
    if s[0] == x then 0 else 1 + FirstIndex(s[1..], x)
  }

  /** A value found in a prefix has its first occurrence there. */
  lemma FirstIndexInPrefix(s: seq<string>, n: nat, x: string)
    requires n <= |s| && x in s[..n]
    ensures FirstIndex(s, x) == FirstIndex(s[..n], x)
  {
    var i, j := FirstIndex(s, x), FirstIndex(s[..n], x);
    assert s[..n][..j] == s[..j];
    assert s[..n][j] == s[j] == x;
    assert forall k :: 0 <= k < i ==> s[k] != x by {
      assert forall k :: 0 <= k < i ==> s[k] == s[..i][k];
    }
    assert forall k :: 0 <= k < j ==> s[k] != x by {
      assert forall k :: 0 <= k < j ==> s[k] == s[..j][k];
    }
  }

  /**
   * The reference for `RemoveDuplicates`: the first occurrence of every
   * value, in input order.  Defined over ever longer prefixes, as the loop
   * consumes the input.
   */
  function Dedup(s: seq<string>): (r: seq<string>)
    ensures NoDuplicates(r)
    ensures forall x :: x in r <==> x in s
    ensures |r| <= |s|
  {
    if s == [] then []
    else
      var p := Dedup(s[..|s| - 1]);
      var x := s[|s| - 1];
      assert s == s[..|s| - 1] + [x];
      if x in p then p
      else
        NoDuplicatesConcat(p, [x]);
        p + [x]
  }

  /** `Dedup` lists values in the order of their first occurrences. */
  lemma {:induction false} DedupFirstOccurrenceOrder(s: seq<string>)
    ensures forall i, j :: 0 <= i < j < |Dedup(s)| ==> FirstIndex(s, Dedup(s)[i]) < FirstIndex(s, Dedup(s)[j])
  {
    if s != [] {
      var n := |s| - 1;
      var p := Dedup(s[..n]);
      var x := s[n];
      var r := Dedup(s);
      assert s == s[..n] + [x];
      DedupFirstOccurrenceOrder(s[..n]);
      forall y | y in p ensures y in s[..n] && FirstIndex(s, y) == FirstIndex(s[..n], y) && FirstIndex(s, y) < n {
        FirstIndexInPrefix(s, n, y);
      }
      if x !in p {
        assert FirstIndex(s, x) == n;
        forall i, j | 0 <= i < j < |r| ensures FirstIndex(s, r[i]) < FirstIndex(s, r[j]) {
          assert r[i] == p[i] && r[i] in p;
          if j < |p| { assert r[j] == p[j] && r[j] in p; }
        }
      } else {
        forall i, j | 0 <= i < j < |r| ensures FirstIndex(s, r[i]) < FirstIndex(s, r[j]) {
          assert r[i] in p && r[j] in p;
        }
      }
    }
  }

  /** `RemoveDuplicates` (scraper/wiki.go:96-107): a seen-set and an append loop. */
  method RemoveDuplicates(arr: seq<string>) returns (out: seq<string>)
    ensures out == Dedup(arr)
    ensures NoDuplicates(out) && Elems(out) == Elems(arr) && |out| <= |arr|
  {
    var items: set<string> := {};
    out := [];
    var i := 0;
    while i < |arr|
      invariant 0 <= i <= |arr|
      invariant out == Dedup(arr[..i])
      invariant items == Elems(out)
    {
      var item := arr[i];
      assert arr[..i + 1][..i] == arr[..i];
      if item !in items {
        items := items + {item};
        out := out + [item];
      }
      i := i + 1;
    }
    assert arr[..i] == arr;
  }

  /** The links a page's crawl follows, before resolution (scraper/wiki.go:168-172). */
  function PageLinks(nodes: seq<Node>): (r: seq<string>)
    ensures NoDuplicates(r)
    ensures forall l :: l in r <==> l in ContentLinks(nodes)
    ensures forall l :: l in r ==> IsContentLink(l)
  {
    var r := Dedup(ContentLinks(nodes));
    r
  }
}
