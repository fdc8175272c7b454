/**
 * The crawl of scraper/wiki.go run sequentially: the claim-once set
 * `crawledLinks` (wiki.go:186, 333), the seed loop of `main`
 * (wiki.go:332-338) and one `Crawl` call per scheduled URL (wiki.go:109-191),
 * with the goroutines replaced by a first-in first-out worklist.
 */
module Crawl {
  import opened Wrappers
  import opened Seqs
  import opened GoStrings
  import opened Html
  import opened Naming
  import opened Links
  import opened Segmenter
  import opened PageWriter

  /** A fetched page: its title and the children of the main-content container. */
  datatype Page = Page(title: string, content: seq<Node>)

  /** The web as the crawler sees it; a URL is absent when fetching, reading or parsing it fails. */
  type Site = map<string, Page>

  /** The run-wide settings the source keeps in globals, with the JSON encoders as parameters. */
  datatype Config = Config(tempDir: string, format: int, enc: PageData -> string, encArray: seq<PageData> -> string)

  predicate KnownFormat(format: int)
  {
    format == JSON || format == JSONL
  }

  /** The seed filter of wiki.go:333, `strings.HasPrefix(link, "http")`, spelled out character by character. */
  predicate IsHttp(u: string)
  {
    |u| >= 4 && u[0] == 'h' && u[1] == 't' && u[2] == 't' && u[3] == 'p'
  }

  lemma IsHttpIsHasPrefix(u: string)
    ensures IsHttp(u) <==> HasPrefix(u, "http")
  {
    if |u| >= 4 {
      assert u[..4] == "http" <==> IsHttp(u) by {
        if IsHttp(u) {
          assert u[..4] == [u[0], u[1], u[2], u[3]];
        }
      }
    }
  }

  /** A resolved link always passes the `http` test. */
  lemma ResolvedIsHttp(url: string, href: string)
    ensures IsHttp(BaseUrl(url) + href)
  {
    var b := BaseUrl(url);
    assert b[..8][0] == 'h' && b[..8][1] == 't' && b[..8][2] == 't' && b[..8][3] == 'p';
  }

  /** The base URL itself passes the `http` test. */
  lemma BaseIsHttp(url: string)
    ensures IsHttp(BaseUrl(url))
  {
    var b := BaseUrl(url);
    assert b[..8][0] == 'h' && b[..8][1] == 't' && b[..8][2] == 't' && b[..8][3] == 'p';
  }

  /**
   * Every link resolved against the page's base URL, in order
   * (wiki.go:184-185): each result is an `http` URL, and distinct links
   * resolve to distinct URLs.
   */
  function ResolveAll(url: string, links: seq<string>): (r: seq<string>)
    ensures |r| == |links|
    ensures forall i :: 0 <= i < |r| ==> r[i] == BaseUrl(url) + links[i]
    ensures forall v :: v in r ==> IsHttp(v)
    ensures NoDuplicates(links) ==> NoDuplicates(r)
  {
    var r := seq(|links|, i requires 0 <= i < |links| => BaseUrl(url) + links[i]);
    BaseIsHttp(url);
    PrefixedFacts(BaseUrl(url), links, r);
    r
  }

  lemma ResolveAllSnoc(url: string, links: seq<string>, href: string)
    ensures ResolveAll(url, links + [href]) == ResolveAll(url, links) + [BaseUrl(url) + href]
  {
  }

  /** Prefixing every link with one `http` URL gives `http` URLs and keeps distinct links distinct. */
  lemma PrefixedFacts(b: string, links: seq<string>, r: seq<string>)
    requires IsHttp(b)
    requires |r| == |links| && forall i :: 0 <= i < |r| ==> r[i] == b + links[i]
    ensures forall v :: v in r ==> IsHttp(v)
    ensures NoDuplicates(links) ==> NoDuplicates(r)
  {
    forall i | 0 <= i < |r| ensures IsHttp(r[i]) {
      assert r[i][..4] == b[..4];
    }
    forall i, j | 0 <= i < |r| && 0 <= j < |r| && r[i] == r[j] ensures links[i] == links[j] {
      assert links[i] == (b + links[i])[|b|..];
      assert links[j] == (b + links[j])[|b|..];
    }
  }

  /** The name of the file a page's records go to (wiki.go:174 and 48-54). */
  function PageFile(cfg: Config, page: Page): (name: string)
    ensures name == "" <==> !KnownFormat(cfg.format)
  {
    FileName(cfg.tempDir, cfg.format, FileBase(page.title))
  }

  /**
   * The URLs a crawl of `url` resolves and claims: none when the page failed
   * or its records could not be written (wiki.go:174-178), otherwise every
   * deduplicated content link resolved against the page's base URL.
   */
  function Followed(site: Site, format: int, url: string): (r: seq<string>)
    ensures NoDuplicates(r)
    ensures forall v :: v in r ==> IsHttp(v)
  {
    if url in site && KnownFormat(format) then
      ResolveAll(url, PageLinks(site[url].content))
    else []
  }

  /** The followed URLs are exactly the page's content links resolved against its URL. */
  lemma FollowedMembers(site: Site, format: int, url: string)
    ensures forall v :: v in Followed(site, format, url) <==>
      url in site && KnownFormat(format) && exists l :: l in ContentLinks(site[url].content) && v == Resolve(url, l)
  {
    if url in site && KnownFormat(format) {
      var links := PageLinks(site[url].content);
      var r := Followed(site, format, url);
      forall v | v in r ensures exists l :: l in links && v == Resolve(url, l) {
        var i :| 0 <= i < |r| && r[i] == v;
        assert links[i] in links;
      }
      forall v | exists l :: l in links && v == Resolve(url, l) ensures v in r {
        var l :| l in links && v == Resolve(url, l);
        var i :| 0 <= i < |links| && links[i] == l;
        assert r[i] == v;
      }
    }
  }

  /** Every URL a crawl can resolve: each page's content links against that page's URL. */
  ghost function Targets(site: Site): set<string>
  {
    set u, l | u in site && l in ContentLinks(site[u].content) :: BaseUrl(u) + l
  }

  lemma FollowedInTargets(site: Site, format: int, url: string)
    ensures Elems(Followed(site, format, url)) <= Targets(site)
  {
    FollowedMembers(site, format, url);
    forall v | v in Followed(site, format, url) ensures v in Targets(site) {
      var l :| l in ContentLinks(site[url].content) && v == Resolve(url, l);
    }
  }

  /**
   * The URLs of `urls` that claiming them one after the other finds absent
   * and that pass the `http` test, in order: the ones that get scheduled.
   */
  function Admitted(visited: set<string>, urls: seq<string>): (r: seq<string>)
    ensures NoDuplicates(r)
    ensures forall u :: u in r <==> u in urls && u !in visited && IsHttp(u)
  {
    if urls == [] then []
    else
      var n := |urls| - 1;
      var p := Admitted(visited, urls[..n]);
      assert forall u :: u in urls <==> u in urls[..n] || u == urls[n] by {
        assert urls == urls[..n] + [urls[n]];
      }
      if urls[n] in visited || urls[n] in urls[..n] || !IsHttp(urls[n]) then p
      else
        NoDuplicatesConcat(p, [urls[n]]);
        p + [urls[n]]
  }

  lemma AdmittedSnoc(visited: set<string>, urls: seq<string>, u: string)
    ensures Admitted(visited, urls + [u]) ==
      if u in visited || u in urls || !IsHttp(u) then Admitted(visited, urls) else Admitted(visited, urls) + [u]
  {
    assert (urls + [u])[..|urls|] == urls;
  }

  /** Claiming URLs that were all claimed before schedules nothing. */
  lemma {:induction false} AdmittedNone(visited: set<string>, urls: seq<string>)
    requires Elems(urls) <= visited
    ensures Admitted(visited, urls) == []
    decreases |urls|
  {
    if urls != [] {
      var n := |urls| - 1;
      assert Elems(urls[..n]) <= Elems(urls);
      AdmittedNone(visited, urls[..n]);
    }
  }

  /**
   * Crawling the first scheduled URL either claims a URL of `limit` that was
   * not claimed yet, or claims nothing new and shortens the schedule.
   */
  lemma Progress(limit: set<string>, visited: set<string>, f: seq<string>, worklist: seq<string>)
    requires visited + Elems(f) <= limit && worklist != []
    ensures var visited', worklist' := visited + Elems(f), worklist[1..] + Admitted(visited, f);
            |limit - visited'| < |limit - visited| || (|limit - visited'| == |limit - visited| && |worklist'| < |worklist|)
  {
    SubsetCardinality(limit - (visited + Elems(f)), limit - visited);
    if visited + Elems(f) == visited {
      AdmittedNone(visited, f);
    } else {
      assert limit - (visited + Elems(f)) != limit - visited;
    }
  }

  /**
   * One more claim in a claim loop, with `visited0` the claimed set before
   * the loop and `done` the URLs already claimed in it.
   */
  lemma AdmitStep(visited0: set<string>, done: seq<string>, u: string, worklist0: seq<string>)
    ensures visited0 + Elems(done + [u]) == visited0 + Elems(done) + {u}
    ensures worklist0 + Admitted(visited0, done + [u]) ==
      if u in visited0 + Elems(done) || !IsHttp(u) then worklist0 + Admitted(visited0, done)
      else worklist0 + Admitted(visited0, done) + [u]
  {
    ElemsConcat(done, [u]);
    AdmittedSnoc(visited0, done, u);
  }

  /*
   * The rest of this module reasons about an arbitrary link graph `follow`,
   * which the crawler instantiates with `Followed` of its site.
   */

  /** Each page's followed URLs are duplicate-free `http` URLs inside `bound`. */
  ghost predicate GraphOk(follow: string -> seq<string>, bound: set<string>)
  {
    forall u :: NoDuplicates(follow(u)) && Elems(follow(u)) <= bound && forall v :: v in follow(u) ==> IsHttp(v)
  }

  /** A set of URLs that holds every URL followed from any of its members. */
  ghost predicate Closed(follow: string -> seq<string>, s: set<string>)
  {
    forall u :: u in s ==> Elems(follow(u)) <= s
  }

  /**
   * Every scheduled URL is a seed or was followed from a URL scheduled
   * before it; `parent` names that earlier position.
   */
  ghost predicate Justified(follow: string -> seq<string>, seeded: set<string>, order: seq<string>, parent: seq<int>)
  {
    |parent| == |order| &&
    forall k :: 0 <= k < |order| ==>
      order[k] in seeded || (0 <= parent[k] < k && order[k] in follow(order[parent[k]]))
  }

  lemma {:induction false} JustifiedInClosed(follow: string -> seq<string>, seeded: set<string>, order: seq<string>,
                                             parent: seq<int>, s: set<string>, k: nat)
    requires Justified(follow, seeded, order, parent)
    requires forall u :: u in seeded && u in order ==> u in s
    requires Closed(follow, s)
    requires k < |order|
    ensures order[k] in s
    decreases k
  {
    if order[k] !in seeded {
      JustifiedInClosed(follow, seeded, order, parent, s, parent[k]);
      assert order[k] in Elems(follow(order[parent[k]]));
    }
  }

  /** A justified schedule lies inside every closed set that holds its seeds. */
  lemma LeastClosed(follow: string -> seq<string>, seeded: set<string>, order: seq<string>, parent: seq<int>, s: set<string>)
    requires Justified(follow, seeded, order, parent)
    requires forall u :: u in seeded && u in order ==> u in s
    requires Closed(follow, s)
    ensures Elems(order) <= s
  {
    forall u | u in order ensures u in s {
      var k :| 0 <= k < |order| && order[k] == u;
      JustifiedInClosed(follow, seeded, order, parent, s, k);
    }
  }

  /** The `http` members of a set of URLs. */
  ghost function HttpOf(s: set<string>): set<string>
  {
    set u | u in s && IsHttp(u)
  }

  /** Every URL followed from a crawled page has been claimed. */
  ghost predicate Explored(follow: string -> seq<string>, crawled: seq<string>, visited: set<string>)
  {
    forall u :: u in crawled ==> Elems(follow(u)) <= visited
  }

  /**
   * The crawl state's invariant: every claimed `http` URL is crawled or
   * scheduled exactly once, everything claimed is a seed or inside `bound`,
   * a crawled page's followed URLs are all claimed, and the schedule is
   * justified.
   */
  ghost predicate Inv(follow: string -> seq<string>, bound: set<string>, seeded: set<string>, visited: set<string>,
                      crawled: seq<string>, worklist: seq<string>, parent: seq<int>)
  {
    NoDuplicates(crawled + worklist) &&
    Elems(crawled + worklist) == HttpOf(visited) &&
    seeded <= visited <= seeded + bound &&
    Explored(follow, crawled, visited) &&
    Justified(follow, seeded, crawled + worklist, parent)
  }

  lemma AppendUnique(order: seq<string>, visited: set<string>, extra: seq<string>)
    requires NoDuplicates(order) && Elems(order) <= visited
    requires NoDuplicates(extra) && Elems(extra) !! visited
    ensures NoDuplicates(order + extra)
  {
    NoDuplicatesConcat(order, extra);
  }

  lemma AppendTracked(order: seq<string>, visited: set<string>, extra: seq<string>, added: set<string>)
    requires Elems(order) == HttpOf(visited)
    requires Elems(extra) == HttpOf(added) - visited
    ensures Elems(order + extra) == HttpOf(visited + added)
  {
    ElemsConcat(order, extra);
    forall u ensures u in HttpOf(visited + added) <==> u in HttpOf(visited) || u in HttpOf(added) - visited {
    }
  }

  lemma AppendJustified(follow: string -> seq<string>, seeded: set<string>, seeded': set<string>,
                        order: seq<string>, parent: seq<int>, extra: seq<string>, extraParent: seq<int>)
    requires Justified(follow, seeded, order, parent) && seeded <= seeded'
    requires |extraParent| == |extra|
    requires forall i :: 0 <= i < |extra| ==>
      extra[i] in seeded' || (0 <= extraParent[i] < |order| && extra[i] in follow(order[extraParent[i]]))
    ensures Justified(follow, seeded', order + extra, parent + extraParent)
  {
    var order', p := order + extra, parent + extraParent;
    forall k | 0 <= k < |order'|
      ensures order'[k] in seeded' || (0 <= p[k] < k && order'[k] in follow(order'[p[k]]))
    {
      if k < |order| {
        assert order'[k] == order[k] && p[k] == parent[k];
        if 0 <= parent[k] < k {
          assert order'[parent[k]] == order[parent[k]];
        }
      } else {
        var i := k - |order|;
        assert order'[k] == extra[i] && p[k] == extraParent[i];
        if 0 <= extraParent[i] < |order| {
          assert order'[extraParent[i]] == order[extraParent[i]];
        }
      }
    }
  }

  lemma ExploreStep(follow: string -> seq<string>, crawled: seq<string>, visited: set<string>, url: string)
    requires Explored(follow, crawled, visited)
    ensures Explored(follow, crawled + [url], visited + Elems(follow(url)))
  {
    forall v | v in crawled + [url] ensures Elems(follow(v)) <= visited + Elems(follow(url)) {
      if v != url {
        assert v in crawled;
      }
    }
  }

  /** Claiming the seeds and scheduling the absent `http` ones, which need no parent, keeps the invariant. */
  lemma SeedAll(follow: string -> seq<string>, bound: set<string>, seeded: set<string>, visited: set<string>,
                crawled: seq<string>, worklist: seq<string>, parent: seq<int>, seeds: seq<string>)
    requires Inv(follow, bound, seeded, visited, crawled, worklist, parent)
    ensures var a := Admitted(visited, seeds);
            Inv(follow, bound, seeded + Elems(seeds), visited + Elems(seeds), crawled, worklist + a,
                parent + Repeat(-1, |a|))
  {
    var a := Admitted(visited, seeds);
    var order := crawled + worklist;
    assert crawled + (worklist + a) == order + a;
    AppendUnique(order, visited, a);
    assert Elems(a) == HttpOf(Elems(seeds)) - visited;
    AppendTracked(order, visited, a, Elems(seeds));
    AppendJustified(follow, seeded, seeded + Elems(seeds), order, parent, a, Repeat(-1, |a|));
    forall v | v in crawled ensures Elems(follow(v)) <= visited + Elems(seeds) {
    }
  }

  /**
   * Crawling `url`, the first scheduled URL, and scheduling its followed URLs
   * that were absent, each justified by `url`'s position, keeps the invariant.
   */
  lemma CrawlStep(follow: string -> seq<string>, bound: set<string>, seeded: set<string>, visited: set<string>,
                  crawled: seq<string>, url: string, worklist: seq<string>, parent: seq<int>)
    requires Inv(follow, bound, seeded, visited, crawled, [url] + worklist, parent)
    requires GraphOk(follow, bound)
    ensures var a := Admitted(visited, follow(url));
            Inv(follow, bound, seeded, visited + Elems(follow(url)), crawled + [url], worklist + a,
                parent + Repeat(|crawled|, |a|))
  {
    var f := follow(url);
    var a := Admitted(visited, f);
    var order := crawled + ([url] + worklist);
    assert (crawled + [url]) + (worklist + a) == order + a;
    assert order[|crawled|] == url;
    AppendUnique(order, visited, a);
    assert Elems(a) == HttpOf(Elems(f)) - visited;
    AppendTracked(order, visited, a, Elems(f));
    ExploreStep(follow, crawled, visited, url);
    AppendJustified(follow, seeded, seeded, order, parent, a, Repeat(|crawled|, |a|));
  }

  /**
   * Once nothing is scheduled, the crawled URLs are exactly the least set
   * that holds the `http` seeds and is closed under following links.
   */
  lemma CrawlComplete(follow: string -> seq<string>, bound: set<string>, seeded: set<string>, visited: set<string>,
                      crawled: seq<string>, parent: seq<int>)
    requires Inv(follow, bound, seeded, visited, crawled, [], parent)
    requires GraphOk(follow, bound)
    ensures HttpOf(seeded) <= Elems(crawled)
    ensures Closed(follow, Elems(crawled))
    ensures forall s :: HttpOf(seeded) <= s && Closed(follow, s) ==> Elems(crawled) <= s
  {
    assert crawled + [] == crawled;
    forall u | u in crawled ensures Elems(follow(u)) <= Elems(crawled) {
      assert Elems(follow(u)) <= visited;
      forall v | v in follow(u) ensures v in HttpOf(visited) {
      }
    }
    forall s | HttpOf(seeded) <= s && Closed(follow, s) ensures Elems(crawled) <= s {
      forall u | u in seeded && u in crawled ensures u in s {
        assert u in HttpOf(visited);
      }
      LeastClosed(follow, seeded, crawled, parent, s);
    }
  }

  /** With no links followed anywhere, a crawl fetches exactly its `http` seeds. */
  lemma SeedsOnly(follow: string -> seq<string>, bound: set<string>, seeded: set<string>, visited: set<string>,
                  crawled: seq<string>, parent: seq<int>)
    requires Inv(follow, bound, seeded, visited, crawled, [], parent)
    requires GraphOk(follow, bound)
    requires forall u :: follow(u) == []
    ensures Elems(crawled) == HttpOf(seeded)
  {
    CrawlComplete(follow, bound, seeded, visited, crawled, parent);
    assert Closed(follow, HttpOf(seeded));
  }

  function Repeat(x: int, n: nat): (r: seq<int>)
    ensures |r| == n && forall i :: 0 <= i < n ==> r[i] == x
  {
    seq(n, _ => x)
  }

  /** The temporary files after `Crawl` of `url` has written its page's records, when the page was fetched. */
  ghost function Written(site: Site, cfg: Config, files: map<string, string>, url: string): map<string, string>
  {
    if url in site
      then WriteOutcome(files, PageFile(cfg, site[url]), cfg.format,
                        Sections(site[url].title, site[url].content), cfg.enc, cfg.encArray).0
      else files
  }

  /** Writing a page keeps every earlier file and, for a known format, creates the page's file. */
  lemma WrittenKeeps(site: Site, cfg: Config, files: map<string, string>, url: string)
    requires "" !in files
    ensures "" !in Written(site, cfg, files, url)
    ensures forall n :: n in files ==> n in Written(site, cfg, files, url) && Written(site, cfg, files, url)[n] == files[n]
    ensures url in site && KnownFormat(cfg.format) ==> PageFile(cfg, site[url]) in Written(site, cfg, files, url)
  {
  }

  /** Every crawled page has its temporary file, when the format is known. */
  ghost predicate Saved(site: Site, cfg: Config, crawled: seq<string>, files: map<string, string>)
  {
    forall u :: u in crawled && u in site && KnownFormat(cfg.format) ==> PageFile(cfg, site[u]) in files
  }

  lemma SavedStep(site: Site, cfg: Config, crawled: seq<string>, url: string, files: map<string, string>)
    requires "" !in files && Saved(site, cfg, crawled, files)
    ensures "" !in Written(site, cfg, files, url)
    ensures Saved(site, cfg, crawled + [url], Written(site, cfg, files, url))
  {
    WrittenKeeps(site, cfg, files, url);
    forall u | u in crawled + [url] && u in site && KnownFormat(cfg.format)
      ensures PageFile(cfg, site[u]) in Written(site, cfg, files, url)
    {
      if u != url {
        assert u in crawled;
      }
    }
  }

  class Crawler {
    const site: Site
    const cfg: Config
    const store: FileStore
    /** `Followed` of this site and format, as a link graph. */
    ghost const follow: string -> seq<string>
    /** A finite set holding every URL any page can follow. */
    ghost const bound: set<string>
    /** `crawledLinks`: every URL claimed so far. */
    var visited: set<string>
    /** Claimed URLs whose `Crawl` has not run yet, oldest first. */
    var worklist: seq<string>
    /** The seeds handed to the crawler. */
    ghost var seeded: set<string>
    /** URLs whose `Crawl` has run, in order. */
    ghost var crawled: seq<string>
    /** For each position of `crawled + worklist`, the position it was followed from. */
    ghost var parent: seq<int>

    ghost predicate Valid()
      reads this, store
    {
      store.Valid() &&
      (forall u :: follow(u) == Followed(site, cfg.format, u)) &&
      GraphOk(follow, bound) &&
      Inv(follow, bound, seeded, visited, crawled, worklist, parent) &&
      Saved(site, cfg, crawled, store.files)
    }

    constructor (site: Site, cfg: Config, files: map<string, string>)
      requires "" !in files
      ensures Valid()
      ensures this.site == site && this.cfg == cfg && fresh(store) && store.files == files
      ensures visited == {} && worklist == [] && seeded == {} && crawled == []
    {
      this.site := site;
      this.cfg := cfg;
      store := new FileStore(files);
      follow := u => Followed(site, cfg.format, u);
      bound := Targets(site);
      visited := {};
      worklist := [];
      seeded := {};
      crawled := [];
      parent := [];
      new;
      forall u ensures Elems(follow(u)) <= bound {
        FollowedInTargets(site, cfg.format, u);
      }
    }

    /** `crawledLinks.LoadOrStore(u, true)`: whether `u` was absent; it is present afterwards. */
    method Claim(u: string) returns (claimed: bool)
      modifies this
      ensures claimed <==> u !in old(visited)
      ensures visited == old(visited) + {u}
      ensures worklist == old(worklist) && seeded == old(seeded) && crawled == old(crawled) && parent == old(parent)
    {
      claimed := u !in visited;
      visited := visited + {u};
    }

    /** The seed loop of `main` (wiki.go:332-338): every seed is claimed, and a newly claimed `http` seed is scheduled. */
    method SeedLinks(seeds: seq<string>)
      requires Valid()
      modifies this
      ensures Valid()
      ensures seeded == old(seeded) + Elems(seeds)
      ensures visited == old(visited) + Elems(seeds)
      ensures worklist == old(worklist) + Admitted(old(visited), seeds)
      ensures crawled == old(crawled)
    {
      SeedAll(follow, bound, seeded, visited, crawled, worklist, parent, seeds);
      ClaimSeeds(seeds);
      seeded := seeded + Elems(seeds);
      parent := parent + Repeat(-1, |Admitted(old(visited), seeds)|);
    }

    method ClaimSeeds(seeds: seq<string>)
      modifies this
      ensures visited == old(visited) + Elems(seeds)
      ensures worklist == old(worklist) + Admitted(old(visited), seeds)
      ensures crawled == old(crawled) && seeded == old(seeded) && parent == old(parent)
    {
      for i := 0 to |seeds|
        invariant visited == old(visited) + Elems(seeds[..i])
        invariant worklist == old(worklist) + Admitted(old(visited), seeds[..i])
        invariant crawled == old(crawled) && seeded == old(seeded) && parent == old(parent)
      {
        var u := seeds[i];
        assert seeds[..i + 1] == seeds[..i] + [u];
        AdmitStep(old(visited), seeds[..i], u, old(worklist));
        ClaimSeed(u);
      }
      assert seeds[..|seeds|] == seeds;
    }

    /** One turn of the seed loop: claim the seed, and schedule it when it was absent and is an `http` URL. */
    method ClaimSeed(u: string)
      modifies this
      ensures visited == old(visited) + {u} && crawled == old(crawled) && seeded == old(seeded) && parent == old(parent)
      ensures worklist == if u in old(visited) || !IsHttp(u) then old(worklist) else old(worklist) + [u]
    {
      var claimed := Claim(u);
      if claimed && IsHttp(u) {
        worklist := worklist + [u];
      }
    }

    /**
     * One `Crawl` call (wiki.go:109-191) for the oldest scheduled URL: the
     * page's records are segmented and written, and when that succeeds every
     * resolved content link is claimed and, if newly claimed, scheduled.
     */
    method CrawlNext() returns (url: string)
      requires Valid() && worklist != []
      modifies this, store
      ensures Valid()
      ensures url == old(worklist)[0]
      ensures crawled == old(crawled) + [url] && seeded == old(seeded)
      ensures visited == old(visited) + Elems(follow(url))
      ensures worklist == old(worklist)[1..] + Admitted(old(visited), follow(url))
      ensures store.files == Written(site, cfg, old(store.files), url)
    {
      url := worklist[0];
      worklist := worklist[1..];
      assert old(worklist) == [url] + worklist;
      CrawlStep(follow, bound, seeded, visited, crawled, url, worklist, parent);
      crawled := crawled + [url];
      ghost var f := follow(url);
      parent := parent + Repeat(|crawled| - 1, |Admitted(visited, f)|);
      Visit(url, f);
      SavedStep(site, cfg, old(crawled), url, old(store.files));
    }

    /** The body of `Crawl` for `url`, with the bookkeeping of the crawl state left to the caller. */
    method Visit(url: string, ghost f: seq<string>)
      requires store.Valid() && f == Followed(site, cfg.format, url)
      modifies this, store
      ensures store.Valid()
      ensures visited == old(visited) + Elems(f)
      ensures worklist == old(worklist) + Admitted(old(visited), f)
      ensures crawled == old(crawled) && seeded == old(seeded) && parent == old(parent)
      ensures store.files == Written(site, cfg, old(store.files), url)
    {
      if url !in site {
        assert Elems<string>([]) == {} && Admitted(visited, []) == [];
        assert worklist + [] == worklist;
        return;
      }
      var links := RemoveDuplicates(ContentLinks(site[url].content));
      var err := SavePage(url);
      if err.Some? {
        assert Elems<string>([]) == {} && Admitted(visited, []) == [];
        assert worklist + [] == worklist;
        return;
      }
      FollowLinks(url, links);
    }

    /** The page's records, segmented and written to its temporary file (wiki.go:146-177). */
    method SavePage(url: string) returns (err: Option<WriteError>)
      requires store.Valid() && url in site
      modifies store
      ensures store.Valid()
      ensures store.files == Written(site, cfg, old(store.files), url)
      ensures err.Some? <==> !KnownFormat(cfg.format)
    {
      var page := site[url];
      var data := Segment(page.title, page.content);
      err := store.WriteData(cfg.tempDir, cfg.format, FileBase(page.title), data, cfg.enc, cfg.encArray);
    }

    /**
     * `main`'s crawl (wiki.go:331-339): the seeds are claimed and scheduled,
     * then scheduled pages are crawled one at a time until none is left.
     */
    method Scrape(seeds: seq<string>)
      requires Valid()
      modifies this, store
      ensures Valid() && worklist == []
      ensures seeded == old(seeded) + Elems(seeds) && old(crawled) <= crawled
      ensures forall n :: n in old(store.files) ==> n in store.files && store.files[n] == old(store.files)[n]
      ensures HttpOf(seeded) <= Elems(crawled)
      ensures forall u, v :: u in crawled && v in Followed(site, cfg.format, u) ==> v in crawled
      ensures forall s :: HttpOf(seeded) <= s && Closed(follow, s) ==> Elems(crawled) <= s
      ensures !KnownFormat(cfg.format) ==> Elems(crawled) == HttpOf(seeded)
    {
      SeedLinks(seeds);
      CrawlAll();
      CrawlComplete(follow, bound, seeded, visited, crawled, parent);
      forall u, v | u in crawled && v in Followed(site, cfg.format, u) ensures v in crawled {
        assert v in Elems(follow(u));
      }
      if !KnownFormat(cfg.format) {
        SeedsOnly(follow, bound, seeded, visited, crawled, parent);
      }
    }

    /** `wg.Wait()` in `main`: crawl scheduled pages until none is left. */
    method CrawlAll()
      requires Valid()
      modifies this, store
      ensures Valid() && worklist == []
      ensures seeded == old(seeded) && old(crawled) <= crawled
      ensures forall n :: n in old(store.files) ==> n in store.files && store.files[n] == old(store.files)[n]
    {
      while worklist != []
        invariant Valid()
        invariant seeded == old(seeded) && old(crawled) <= crawled
        invariant forall n :: n in old(store.files) ==> n in store.files && store.files[n] == old(store.files)[n]
        decreases |seeded + bound - visited|, |worklist|
      {
        ghost var v0, w0, files0 := visited, worklist, store.files;
        var url := CrawlNext();
        WrittenKeeps(site, cfg, files0, url);
        Progress(seeded + bound, v0, follow(url), w0);
      }
    }

    /** One turn of the link loop: claim the URL, and schedule it when it was absent. */
    method FollowOne(fullLink: string)
      modifies this
      ensures visited == old(visited) + {fullLink} && crawled == old(crawled) && seeded == old(seeded) && parent == old(parent)
      ensures worklist == if fullLink in old(visited) then old(worklist) else old(worklist) + [fullLink]
    {
      var claimed := Claim(fullLink);
      if claimed {
        worklist := worklist + [fullLink];
      }
    }

    /** The link loop of wiki.go:180-191: each link is resolved against the page's base URL and claimed, and scheduled when newly claimed. */
    method FollowLinks(url: string, links: seq<string>)
      modifies this
      ensures visited == old(visited) + Elems(ResolveAll(url, links))
      ensures worklist == old(worklist) + Admitted(old(visited), ResolveAll(url, links))
      ensures crawled == old(crawled) && seeded == old(seeded) && parent == old(parent)
    {
      var baseUrl := BaseUrl(url);
      ghost var done: seq<string> := [];
      for i := 0 to |links|
        invariant done == ResolveAll(url, links[..i])
        invariant visited == old(visited) + Elems(done)
        invariant worklist == old(worklist) + Admitted(old(visited), done)
        invariant crawled == old(crawled) && seeded == old(seeded) && parent == old(parent)
      {
        var fullLink := baseUrl + links[i];
        ResolvedIsHttp(url, links[i]);
        assert links[..i + 1] == links[..i] + [links[i]];
        ResolveAllSnoc(url, links[..i], links[i]);
        AdmitStep(old(visited), done, fullLink, old(worklist));
        FollowOne(fullLink);
        done := done + [fullLink];
      }
      assert links[..|links|] == links;
    }
  }
}
