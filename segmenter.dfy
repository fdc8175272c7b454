/**
 * The content segmenter of `Crawl` (scraper/wiki.go:146-167): a left-to-right
 * walk over the children of the main-content container that cuts them into
 * `PageData` records at heading changes.
 */
module Segmenter {
  import opened GoStrings
  import opened Html

  /** One section of one page (`PageData`, scraper/wiki.go:41-45). */
  datatype PageData = PageData(heading: string, text: string, title: string)

  /** Comments and presentational containers are passed over (scraper/wiki.go:151). */
  predicate IsSkipped(n: Node): (b: bool)
    ensures b ==> !IsHeading(n)
  {
    n.Comment? || n.tag in {"aside", "div", "figure", "blockquote"}
  }

  /** The `h1`-`h5` test of scraper/wiki.go:154. */
  predicate IsHeading(n: Node): (b: bool)
    ensures b <==> n.Elem? && |n.tag| == 2 && n.tag[0] == 'h' && '1' <= n.tag[1] <= '5'
  {
    n.Elem? && (HeadingTag(n.tag); n.tag in {"h1", "h2", "h3", "h4", "h5"})
  }

  /** The five heading tags are the two-letter tags `h` followed by a digit from 1 to 5. */
  lemma HeadingTag(t: string)
    ensures t in {"h1", "h2", "h3", "h4", "h5"} <==> |t| == 2 && t[0] == 'h' && '1' <= t[1] <= '5'
  {
    if |t| == 2 && t[0] == 'h' && '1' <= t[1] <= '5' {
      assert t == [t[0], t[1]];
      if t[1] == '1' { assert t == "h1"; }
      else if t[1] == '2' { assert t == "h2"; }
      else if t[1] == '3' { assert t == "h3"; }
      else if t[1] == '4' { assert t == "h4"; }
      else { assert t == "h5"; }
    }
  }

  /** A heading's value: trimmed, with every `[]` removed (scraper/wiki.go:155). */
  function HeadingValue(n: Node): (r: string)
    requires n.Elem?
    ensures |r| <= |n.text| && forall c :: c in r ==> c in n.text
  {
    ReplaceAll(TrimSpace(n.text), "[]", "")
  }

  /** A content node's contribution: trimmed, with every newline removed (scraper/wiki.go:157). */
  function SectionText(n: Node): (r: string)
    requires n.Elem?
    ensures '\n' !in r
    ensures |r| <= |n.text| && forall c :: c in r ==> c in n.text
  {
    ReplaceCharRemoves(TrimSpace(n.text), '\n', "");
    ReplaceAll(TrimSpace(n.text), "\n", "")
  }

  predicate IsSeeAlso(heading: string): (b: bool)
    ensures b ==> |heading| == 8
  {
    ToLower(heading) == "see also"
  }

  /** The callback's captured variables: `sectionHeading`, `prevHeading`, `section` and `data`. */
  datatype Walk = Walk(sectionHeading: string, prevHeading: string, section: string, data: seq<PageData>)

  /** Both headings are seeded with the page title, unstripped (scraper/wiki.go:146-148). */
  function Start(pageTitle: string): (w: Walk)
    ensures Agreed(w) && w.prevHeading == pageTitle
    ensures w.section == "" && w.data == []
  {
    Walk(pageTitle, pageTitle, "", [])
  }

  /** One run of the `Each` callback (scraper/wiki.go:150-167). */
  function Step(pageTitle: string, w: Walk, n: Node): (r: Walk)
    ensures |w.data| <= |r.data| <= |w.data| + 1 && r.data[..|w.data|] == w.data
    ensures Agreed(w) ==> Agreed(r)
  {
    if IsSkipped(n) then w
    else
      var heading := if IsHeading(n) then HeadingValue(n) else w.sectionHeading;
      var section := if IsHeading(n) then w.section else w.section + SectionText(n);
      if heading != w.prevHeading then
        var data :=
          if section != "" && !IsSeeAlso(w.prevHeading)
          then w.data + [PageData(w.prevHeading, section, pageTitle)]
          else w.data;
        Walk(heading, heading, "", data)
      else
        Walk(heading, w.prevHeading, section, data := w.data)
  }

  /** The callback applied to each node in turn. */
  function Fold(pageTitle: string, w: Walk, nodes: seq<Node>): (r: Walk)
    ensures |w.data| <= |r.data| <= |w.data| + |nodes| && r.data[..|w.data|] == w.data
    decreases nodes
  {
    if nodes == [] then w else Fold(pageTitle, Step(pageTitle, w, nodes[0]), nodes[1..])
  }

  /** The records the walk leaves in `data`, as written: no flush after the last node. */
  function Sections(pageTitle: string, nodes: seq<Node>): (r: seq<PageData>)
    ensures |r| <= HeadingCount(nodes)
    ensures forall d :: d in r ==> RecordOk(pageTitle, Headings(pageTitle, nodes), d)
  {
    FoldRecordBound(pageTitle, Start(pageTitle), nodes);
    FoldWellFormed(pageTitle, Headings(pageTitle, nodes), Start(pageTitle), nodes);
    Fold(pageTitle, Start(pageTitle), nodes).data
  }

  /** The walk, statement by statement. */
  method Segment(pageTitle: string, nodes: seq<Node>) returns (data: seq<PageData>)
    ensures data == Sections(pageTitle, nodes)
    ensures forall r :: r in data ==> RecordOk(pageTitle, Headings(pageTitle, nodes), r)
  {
    var sectionHeading := pageTitle;
    var prevHeading := sectionHeading;
    var section := "";
    data := [];
    for i := 0 to |nodes|
      invariant Fold(pageTitle, Start(pageTitle), nodes[..i]) == Walk(sectionHeading, prevHeading, section, data)
    {
      var n := nodes[i];
      FoldAppend(pageTitle, Start(pageTitle), nodes[..i], [n]);
      assert nodes[..i + 1] == nodes[..i] + [n];
      if IsSkipped(n) {
        continue;
      }
      if IsHeading(n) {
        sectionHeading := HeadingValue(n);
      } else {
        section := section + SectionText(n);
      }
      if sectionHeading != prevHeading {
        if section != "" && !IsSeeAlso(prevHeading) {
          data := data + [PageData(prevHeading, section, pageTitle)];
        }
        prevHeading := sectionHeading;
        section := "";
      }
    }
    assert nodes[..|nodes|] == nodes;
  }

  lemma {:induction false} FoldAppend(pageTitle: string, w: Walk, a: seq<Node>, b: seq<Node>)
    ensures Fold(pageTitle, w, a + b) == Fold(pageTitle, Fold(pageTitle, w, a), b)
    decreases a
  {
    if a == [] {
      assert a + b == b;
    } else {
      assert (a + b)[0] == a[0] && (a + b)[1..] == a[1..] + b;
      FoldAppend(pageTitle, Step(pageTitle, w, a[0]), a[1..], b);
    }
  }

  // ---------------------------------------------------------------------
  // The walk's invariant: between nodes both headings agree.

  ghost predicate Agreed(w: Walk)
  {
    w.sectionHeading == w.prevHeading
  }

  lemma {:induction false} FoldAgreed(pageTitle: string, w: Walk, nodes: seq<Node>)
    requires Agreed(w)
    ensures Agreed(Fold(pageTitle, w, nodes))
    decreases nodes
  {
    if nodes != [] {
      FoldAgreed(pageTitle, Step(pageTitle, w, nodes[0]), nodes[1..]);
    }
  }

  /**
   * A node adds a record exactly when it is a heading whose value differs
   * from the previous heading, the open section is non-empty and the
   * previous heading is not "see also"; the record is the previous heading,
   * the open section and the page title.
   */
  lemma StepEmits(pageTitle: string, w: Walk, n: Node)
    requires Agreed(w)
    ensures var w' := Step(pageTitle, w, n);
            && (w'.data != w.data <==>
                IsHeading(n) && HeadingValue(n) != w.prevHeading && w.section != "" && !IsSeeAlso(w.prevHeading))
            && (w'.data == w.data || w'.data == w.data + [PageData(w.prevHeading, w.section, pageTitle)])
  {
    var w' := Step(pageTitle, w, n);
    if IsSkipped(n) {
      assert w' == w;
    } else if IsHeading(n) {
      if HeadingValue(n) != w.prevHeading {
        assert w'.data == Flush(pageTitle, w);
      } else {
        assert w'.data == w.data;
      }
    } else {
      assert w'.data == w.data;
    }
  }

  /** Skipped nodes change neither the headings, the open section nor the records. */
  lemma SkippedIsNoOp(pageTitle: string, w: Walk, n: Node)
    requires IsSkipped(n)
    ensures Step(pageTitle, w, n) == w
  {
  }

  /** The nodes the walk does not skip. */
  function Relevant(nodes: seq<Node>): (r: seq<Node>)
    ensures forall n :: n in r ==> !IsSkipped(n)
  {
    if nodes == [] then []
    else if IsSkipped(nodes[0]) then Relevant(nodes[1..])
    else [nodes[0]] + Relevant(nodes[1..])
  }

  /** Removing every skipped node beforehand changes nothing. */
  lemma {:induction false} SkippedNodesIgnored(pageTitle: string, w: Walk, nodes: seq<Node>)
    ensures Fold(pageTitle, w, Relevant(nodes)) == Fold(pageTitle, w, nodes)
    decreases nodes
  {
    if nodes != [] {
      SkippedNodesIgnored(pageTitle, Step(pageTitle, w, nodes[0]), nodes[1..]);
      if !IsSkipped(nodes[0]) {
        var r := [nodes[0]] + Relevant(nodes[1..]);
        assert r[0] == nodes[0] && r[1..] == Relevant(nodes[1..]);
      }
    }
  }

  // ---------------------------------------------------------------------
  // Well-formed records.

  /** The page title and every heading value among the nodes. */
  function Headings(pageTitle: string, nodes: seq<Node>): (hs: set<string>)
    ensures pageTitle in hs
  {
    {pageTitle} + set n | n in nodes && IsHeading(n) :: HeadingValue(n)
  }

  /**
   * A record as the walk emits it: the page's title, a heading the walk has
   * seen, a non-empty text without newlines, and a heading other than "see also".
   */
  ghost predicate RecordOk(pageTitle: string, hs: set<string>, r: PageData)
  {
    && r.title == pageTitle
    && r.heading in hs
    && r.text != ""
    && '\n' !in r.text
    && !IsSeeAlso(r.heading)
  }

  ghost predicate WellFormed(pageTitle: string, hs: set<string>, w: Walk)
  {
    && Agreed(w)
    && w.prevHeading in hs
    && '\n' !in w.section
    && forall r :: r in w.data ==> RecordOk(pageTitle, hs, r)
  }

  lemma {:induction false} FoldWellFormed(pageTitle: string, hs: set<string>, w: Walk, nodes: seq<Node>)
    requires WellFormed(pageTitle, hs, w)
    requires forall n :: n in nodes && IsHeading(n) ==> HeadingValue(n) in hs
    ensures WellFormed(pageTitle, hs, Fold(pageTitle, w, nodes))
    decreases nodes
  {
    if nodes != [] {
      var n := nodes[0];
      var w' := Step(pageTitle, w, n);
      if !IsSkipped(n) && !IsHeading(n) {
        assert '\n' !in SectionText(n);
        assert '\n' !in w.section + SectionText(n);
      }
      assert WellFormed(pageTitle, hs, w');
      FoldWellFormed(pageTitle, hs, w', nodes[1..]);
    }
  }

  // ---------------------------------------------------------------------
  // Counting and the trailing section.

  function HeadingCount(nodes: seq<Node>): nat
  {
    if nodes == [] then 0 else (if IsHeading(nodes[0]) then 1 else 0) + HeadingCount(nodes[1..])
  }

  lemma {:induction false} FoldRecordBound(pageTitle: string, w: Walk, nodes: seq<Node>)
    requires Agreed(w)
    ensures |Fold(pageTitle, w, nodes).data| <= |w.data| + HeadingCount(nodes)
    decreases nodes
  {
    if nodes != [] {
      StepEmits(pageTitle, w, nodes[0]);
      FoldRecordBound(pageTitle, Step(pageTitle, w, nodes[0]), nodes[1..]);
    }
  }

  /** Nodes whose headings all repeat the current heading's value neither emit a record nor change that heading. */
  lemma {:induction false} NoHeadingChangeNoRecord(pageTitle: string, w: Walk, nodes: seq<Node>)
    requires Agreed(w)
    requires forall n :: n in nodes && IsHeading(n) ==> HeadingValue(n) == w.prevHeading
    ensures Fold(pageTitle, w, nodes).data == w.data
    ensures Fold(pageTitle, w, nodes).prevHeading == w.prevHeading
    decreases nodes
  {
    if nodes != [] {
      var w' := Step(pageTitle, w, nodes[0]);
      assert w'.data == w.data && w'.prevHeading == w.prevHeading;
      NoHeadingChangeNoRecord(pageTitle, w', nodes[1..]);
    }
  }

  /**
   * Whatever follows the last heading change never reaches the records:
   * nodes whose headings only repeat the open heading add nothing.
   */
  lemma TrailingContentDropped(pageTitle: string, nodes: seq<Node>, tail: seq<Node>)
    requires forall n :: n in tail && IsHeading(n) ==> HeadingValue(n) == Fold(pageTitle, Start(pageTitle), nodes).prevHeading
    ensures Sections(pageTitle, nodes + tail) == Sections(pageTitle, nodes)
  {
    FoldAppend(pageTitle, Start(pageTitle), nodes, tail);
    FoldAgreed(pageTitle, Start(pageTitle), nodes);
    NoHeadingChangeNoRecord(pageTitle, Fold(pageTitle, Start(pageTitle), nodes), tail);
  }

  // ---------------------------------------------------------------------
  // The trailing section: as written it is lost; with a final flush it is kept.

  /** The flush the walk performs at a heading change, applied once more after the last node. */
  function Flush(pageTitle: string, w: Walk): (r: seq<PageData>)
    ensures |w.data| <= |r| <= |w.data| + 1 && r[..|w.data|] == w.data
    ensures |r| > |w.data| <==> w.section != "" && !IsSeeAlso(w.prevHeading)
    ensures |r| > |w.data| ==> r[|w.data|] == PageData(w.prevHeading, w.section, pageTitle)
  {
    if w.section != "" && !IsSeeAlso(w.prevHeading)
    then w.data + [PageData(w.prevHeading, w.section, pageTitle)]
    else w.data
  }

  /** The corrected segmenter: the walk followed by an end-of-walk flush. */
  function SectionsFlushed(pageTitle: string, nodes: seq<Node>): (r: seq<PageData>)
    ensures var w := Fold(pageTitle, Start(pageTitle), nodes);
            r == Sections(pageTitle, nodes) || r == Sections(pageTitle, nodes) + [PageData(w.prevHeading, w.section, pageTitle)]
  {
    Flush(pageTitle, Fold(pageTitle, Start(pageTitle), nodes))
  }

  /** The texts of the records, in order. */
  function Texts(data: seq<PageData>): string
  {
    if data == [] then [] else Texts(data[..|data| - 1]) + data[|data| - 1].text
  }

  /**
   * The reference for what the segmenter should keep: the text of every
   * content node, with `heading` the value of the last heading node before
   * it (the page title before the first), except under a "see also" heading.
   */
  function Kept(heading: string, nodes: seq<Node>): string
    decreases nodes
  {
    if nodes == [] then []
    else
      var n := nodes[0];
      if IsSkipped(n) then Kept(heading, nodes[1..])
      else if IsHeading(n) then Kept(HeadingValue(n), nodes[1..])
      else (if IsSeeAlso(heading) then "" else SectionText(n)) + Kept(heading, nodes[1..])
  }

  lemma TextsFlush(pageTitle: string, w: Walk)
    ensures Texts(Flush(pageTitle, w)) == Texts(w.data) + (if IsSeeAlso(w.prevHeading) then "" else w.section)
  {
    var d := Flush(pageTitle, w);
    if d != w.data {
      assert d[..|d| - 1] == w.data;
    }
  }

  /** The text a walk state has kept so far and will keep from the remaining nodes. */
  function Account(w: Walk, nodes: seq<Node>): string
  {
    Texts(w.data) + (if IsSeeAlso(w.prevHeading) then "" else w.section) + Kept(w.prevHeading, nodes)
  }

  lemma StepAccountHeading(pageTitle: string, w: Walk, nodes: seq<Node>)
    requires Agreed(w) && nodes != [] && !IsSkipped(nodes[0]) && IsHeading(nodes[0])
    ensures Account(Step(pageTitle, w, nodes[0]), nodes[1..]) == Account(w, nodes)
  {
    var h := HeadingValue(nodes[0]);
    var rest := Kept(h, nodes[1..]);
    var open := if IsSeeAlso(w.prevHeading) then "" else w.section;
    assert Account(w, nodes) == Texts(w.data) + open + rest;
    if h != w.prevHeading {
      var w' := Walk(h, h, "", Flush(pageTitle, w));
      assert Step(pageTitle, w, nodes[0]) == w';
      TextsFlush(pageTitle, w);
      assert Account(w', nodes[1..]) == Texts(w.data) + open + "" + rest;
      EmptyMiddle(Texts(w.data) + open, rest);
    } else {
      assert Step(pageTitle, w, nodes[0]) == w;
    }
  }

  lemma StepAccountContent(pageTitle: string, w: Walk, nodes: seq<Node>)
    requires Agreed(w) && nodes != [] && !IsSkipped(nodes[0]) && !IsHeading(nodes[0])
    ensures Account(Step(pageTitle, w, nodes[0]), nodes[1..]) == Account(w, nodes)
  {
    var t := SectionText(nodes[0]);
    var see := IsSeeAlso(w.prevHeading);
    var rest := Kept(w.prevHeading, nodes[1..]);
    assert Step(pageTitle, w, nodes[0]) == Walk(w.prevHeading, w.prevHeading, w.section + t, w.data);
    assert Kept(w.prevHeading, nodes) == (if see then "" else t) + rest;
    ShiftText(Texts(w.data), w.section, t, rest, see);
  }

  /** String identity, kept as its own lemma because the solver finds it slowly inside larger proofs. */
  lemma EmptyMiddle(a: string, b: string)
    ensures a + "" + b == a + b
  {
    assert a + "" == a;
  }

  /**
   * Moving one node's text from the remaining nodes into the open section
   * keeps the total: string associativity, stated on its own because the
   * solver finds it slowly inside larger proofs.
   */
  lemma ShiftText(done: string, section: string, t: string, rest: string, dropped: bool)
    ensures done + (if dropped then "" else section + t) + rest
         == done + (if dropped then "" else section) + ((if dropped then "" else t) + rest)
  {
    if !dropped {
      assert done + (section + t) + rest == done + section + (t + rest);
    }
  }

  lemma {:induction false} FoldKeepsText(pageTitle: string, w: Walk, nodes: seq<Node>)
    requires Agreed(w)
    ensures Texts(Flush(pageTitle, Fold(pageTitle, w, nodes))) == Account(w, nodes)
    decreases nodes
  {
    if nodes == [] {
      TextsFlush(pageTitle, w);
    } else {
      var n := nodes[0];
      FoldKeepsText(pageTitle, Step(pageTitle, w, n), nodes[1..]);
      if IsSkipped(n) {
      } else if IsHeading(n) {
        StepAccountHeading(pageTitle, w, nodes);
      } else {
        StepAccountContent(pageTitle, w, nodes);
      }
    }
  }

  /** With the final flush no content is lost: the records' texts are exactly the kept text. */
  lemma SectionsFlushedKeepsAllText(pageTitle: string, nodes: seq<Node>)
    ensures Texts(SectionsFlushed(pageTitle, nodes)) == Kept(pageTitle, nodes)
  {
    FoldKeepsText(pageTitle, Start(pageTitle), nodes);
  }

  /** Text with no edge whitespace, no `[` and no newline: both cleanings leave it as it is. */
  predicate Plain(text: string)
  {
    text != [] && !IsSpace(text[0]) && !IsSpace(text[|text| - 1]) && '[' !in text && '\n' !in text
  }

  lemma PlainNode(n: Node)
    requires n.Elem? && Plain(n.text)
    ensures HeadingValue(n) == n.text && SectionText(n) == n.text
  {
    assert TrimLeft(n.text) == n.text;
    assert TrimSpace(n.text) == n.text;
    ReplaceAbsent(n.text, "[]", "");
    ReplaceAbsent(n.text, "\n", "");
  }

  lemma SeeAlsoHeading()
    ensures IsSeeAlso("See also")
  {
    var h := "See also";
    var t := "see also";
    assert LowerChar(h[0]) == t[0];
    assert forall i :: 1 <= i < 8 ==> h[i] == t[i] && !IsUpper(h[i]);
    LowerEq(h, t);
  }

  lemma ParagraphStep(pageTitle: string, w: Walk, text: string)
    requires Agreed(w) && Plain(text)
    ensures Step(pageTitle, w, Elem("p", text, [])) == Walk(w.prevHeading, w.prevHeading, w.section + text, w.data)
  {
    PlainNode(Elem("p", text, []));
  }

  lemma HeadingStep(pageTitle: string, w: Walk, text: string)
    requires Agreed(w) && Plain(text)
    ensures Step(pageTitle, w, Elem("h2", text, []))
            == if text != w.prevHeading then Walk(text, text, "", Flush(pageTitle, w)) else w
  {
    PlainNode(Elem("h2", text, []));
  }

  /** A page with an introduction, a "See also" list and a closing section. */
  function ThreeSectionPage(intro: string, a: string, b: string, seeAlso: string, c: string, end: string, d: string): seq<Node>
  {
    [Elem("h2", intro, []), Elem("p", a, []), Elem("p", b, [])]
    + [Elem("h2", seeAlso, []), Elem("p", c, []), Elem("h2", end, []), Elem("p", d, [])]
  }

  lemma FoldCons(pageTitle: string, w: Walk, n: Node, rest: seq<Node>)
    ensures Fold(pageTitle, w, [n] + rest) == Fold(pageTitle, Step(pageTitle, w, n), rest)
  {
    assert ([n] + rest)[0] == n && ([n] + rest)[1..] == rest;
  }

  lemma TwoParagraphs(pageTitle: string, w: Walk, a: string, b: string)
    requires Agreed(w) && Plain(a) && Plain(b)
    ensures Fold(pageTitle, w, [Elem("p", a, []), Elem("p", b, [])])
            == Walk(w.prevHeading, w.prevHeading, w.section + a + b, w.data)
  {
    var w2 := Walk(w.prevHeading, w.prevHeading, w.section + a, w.data);
    ParagraphStep(pageTitle, w, a);
    ParagraphStep(pageTitle, w2, b);
    FoldCons(pageTitle, w, Elem("p", a, []), [Elem("p", b, [])]);
    FoldCons(pageTitle, w2, Elem("p", b, []), []);
  }

  lemma IntroWalk(pageTitle: string, intro: string, a: string, b: string)
    requires Plain(intro) && Plain(a) && Plain(b)
    ensures Fold(pageTitle, Start(pageTitle), [Elem("h2", intro, []), Elem("p", a, []), Elem("p", b, [])])
            == Walk(intro, intro, a + b, [])
  {
    var w1 := Walk(intro, intro, "", []);
    HeadingStep(pageTitle, Start(pageTitle), intro);
    assert Step(pageTitle, Start(pageTitle), Elem("h2", intro, [])) == w1;
    FoldCons(pageTitle, Start(pageTitle), Elem("h2", intro, []), [Elem("p", a, []), Elem("p", b, [])]);
    TwoParagraphs(pageTitle, w1, a, b);
    EmptyLeft(a, b);
  }

  /** String identity, kept as its own lemma because the solver finds it slowly inside larger proofs. */
  lemma EmptyLeft(a: string, b: string)
    ensures "" + a + b == a + b
  {
    assert "" + a == a;
  }

  lemma RestWalk(pageTitle: string, w: Walk, seeAlso: string, c: string, end: string, d: string)
    requires Agreed(w) && w.section != "" && !IsSeeAlso(w.prevHeading) && w.prevHeading != seeAlso
    requires Plain(seeAlso) && Plain(c) && Plain(end) && Plain(d)
    requires IsSeeAlso(seeAlso) && !IsSeeAlso(end)
    ensures Fold(pageTitle, w, [Elem("h2", seeAlso, []), Elem("p", c, []), Elem("h2", end, []), Elem("p", d, [])])
            == Walk(end, end, d, Flush(pageTitle, w))
  {
    var r := Flush(pageTitle, w);
    var w4 := Walk(seeAlso, seeAlso, "", r);
    var w5 := Walk(seeAlso, seeAlso, c, r);
    var w6 := Walk(end, end, "", r);
    HeadingStep(pageTitle, w, seeAlso);
    ParagraphStep(pageTitle, w4, c);
    HeadingStep(pageTitle, w5, end);
    ParagraphStep(pageTitle, w6, d);
    FoldCons(pageTitle, w, Elem("h2", seeAlso, []), [Elem("p", c, []), Elem("h2", end, []), Elem("p", d, [])]);
    FoldCons(pageTitle, w4, Elem("p", c, []), [Elem("h2", end, []), Elem("p", d, [])]);
    FoldCons(pageTitle, w5, Elem("h2", end, []), [Elem("p", d, [])]);
    FoldCons(pageTitle, w6, Elem("p", d, []), []);
  }

  lemma ThreeSectionWalk(pageTitle: string, intro: string, a: string, b: string, seeAlso: string, c: string, end: string, d: string)
    requires Plain(intro) && Plain(a) && Plain(b) && Plain(seeAlso) && Plain(c) && Plain(end) && Plain(d)
    requires !IsSeeAlso(intro) && IsSeeAlso(seeAlso) && !IsSeeAlso(end)
    ensures Fold(pageTitle, Start(pageTitle), ThreeSectionPage(intro, a, b, seeAlso, c, end, d))
            == Walk(end, end, d, [PageData(intro, a + b, pageTitle)])
  {
    var first := [Elem("h2", intro, []), Elem("p", a, []), Elem("p", b, [])];
    var rest := [Elem("h2", seeAlso, []), Elem("p", c, []), Elem("h2", end, []), Elem("p", d, [])];
    FoldAppend(pageTitle, Start(pageTitle), first, rest);
    IntroWalk(pageTitle, intro, a, b);
    RestWalk(pageTitle, Walk(intro, intro, a + b, []), seeAlso, c, end, d);
  }

  /**
   * On such a page the walk as written emits only the introduction: the
   * "See also" list is suppressed and the closing section is lost, which
   * the corrected walk keeps.
   */
  lemma TrailingSectionLost(pageTitle: string, intro: string, a: string, b: string, seeAlso: string, c: string, end: string, d: string)
    requires Plain(intro) && Plain(a) && Plain(b) && Plain(seeAlso) && Plain(c) && Plain(end) && Plain(d)
    requires !IsSeeAlso(intro) && IsSeeAlso(seeAlso) && !IsSeeAlso(end)
    ensures Sections(pageTitle, ThreeSectionPage(intro, a, b, seeAlso, c, end, d)) == [PageData(intro, a + b, pageTitle)]
    ensures SectionsFlushed(pageTitle, ThreeSectionPage(intro, a, b, seeAlso, c, end, d))
            == [PageData(intro, a + b, pageTitle), PageData(end, d, pageTitle)]
  {
    ThreeSectionWalk(pageTitle, intro, a, b, seeAlso, c, end, d);
  }

  lemma ExampleTextsPlain()
    ensures Plain("Intro") && Plain("A") && Plain("B") && Plain("See also") && Plain("C") && Plain("End") && Plain("D")
  {
  }

  lemma IntroIsNotSeeAlso()
    ensures !IsSeeAlso("Intro")
  {
    assert |ToLower("Intro")| == 5;
  }

  lemma EndIsNotSeeAlso()
    ensures !IsSeeAlso("End")
  {
    assert |ToLower("End")| == 3;
  }

  /**
   * The page "Intro", "A", "B", "See also", "C", "End", "D" has that shape,
   * so by `TrailingSectionLost` its records are only ("Intro", "AB"), and
   * the corrected walk adds ("End", "D").
   */
  lemma ExampleQualifies()
    ensures Plain("Intro") && Plain("A") && Plain("B") && Plain("See also") && Plain("C") && Plain("End") && Plain("D")
    ensures !IsSeeAlso("Intro") && IsSeeAlso("See also") && !IsSeeAlso("End")
  {
    ExampleTextsPlain();
    IntroIsNotSeeAlso();
    EndIsNotSeeAlso();
    SeeAlsoHeading();
  }

  /** The concrete page: as written only ("Intro", "AB") is emitted; the corrected walk adds ("End", "D"). */
  lemma ExampleSections(pageTitle: string)
    ensures Sections(pageTitle, ThreeSectionPage("Intro", "A", "B", "See also", "C", "End", "D"))
            == [PageData("Intro", "AB", pageTitle)]
    ensures SectionsFlushed(pageTitle, ThreeSectionPage("Intro", "A", "B", "See also", "C", "End", "D"))
            == [PageData("Intro", "AB", pageTitle), PageData("End", "D", pageTitle)]
  {
    ExampleQualifies();
    TrailingSectionLost(pageTitle, "Intro", "A", "B", "See also", "C", "End", "D");
    ConcatAB();
  }

  /** A literal concatenation, kept apart for the same reason. */
  lemma ConcatAB()
    ensures "A" + "B" == "AB"
  {
  }
}
