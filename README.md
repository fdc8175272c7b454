# A verified model of the Wikipedia crawler in `scraper/wiki.go`

The crawler starts from a list of seed URLs. It fetches each page and cuts the
page's main content into `PageData` records (heading, text, title) at heading
changes. It writes one page's records to a temporary file whose name comes
from the page title. It then follows every site-relative content link of the
page. A shared `crawledLinks` map makes sure each URL is claimed, and so
crawled, at most once.

The model has one Dafny module per concern:

- `Wrappers`, `Seqs`, `GoStrings`: an `Option` type, sequence facts, and the
  parts of Go's `strings` package the crawler uses (`TrimSpace`, `ToLower`,
  `HasPrefix`/`HasSuffix`, `TrimPrefix`, `ReplaceAll`, the first field of
  `Split`).
- `Html`: a page's content nodes. A node is a comment, or an element with a
  tag, its text (goquery's `Text()`) and the `href` of each anchor inside it.
- `Naming`: `SnakeCase`, the file-name base of a page title, and the base URL
  a page's links are resolved against.
- `Links`: `GetLinks`, the links of the content container, and
  `RemoveDuplicates`. `RemoveDuplicates` is an imperative loop, proved equal to
  the first-occurrence function `Dedup`.
- `Segmenter`: the step-by-step walk of `Crawl`'s first `Each` callback. It is
  a method whose loop is proved against the fold `Sections`, with lemmas about
  the records.
- `PageWriter`: `WriteData`. A `FileStore` class holds the file map and writes
  each name once. Its JSONL loop is proved against the framing function
  `Jsonl`, and JSONL text is shown to read back line by line.
- `Crawl`: the claim-once crawl as a `Crawler` class.
  - Fields: the claimed set (`crawledLinks`) and a worklist of claimed pages
    not yet crawled.
  - Operations: `Claim` for `LoadOrStore`, the seed loop of `main`, and one
    `Crawl` call per worklist entry.
  - Invariant: every claimed `http` URL is crawled or scheduled exactly once,
    and every scheduled URL is a seed or a link of an earlier page.
  - Result when the loop ends: the crawled set is exactly the least set of URLs
    that holds the `http` seeds and is closed under following links.

The site is a map from URL to page: a title and the content nodes. A URL
missing from the map stands for every way fetching or parsing can fail. In
each of those the task returns before following links. The JSON encoders are
function parameters. The file system is a map from path to contents.

## Model

| member | source | states |
|---|---|---|
| Naming.SnakeCase | scraper/wiki.go:37-39 | the result has no space and no upper-case ASCII letter, no whitespace at either end, the trimmed input's length, and only `_` or lower-cased input characters |
| Naming.FileBase | scraper/wiki.go:174 | the file-name base of a page title has no `/`, no space, no upper-case ASCII letter and no whitespace at either end |
| Naming.BaseUrl | scraper/wiki.go:180-182 | the base URL starts with `https://` and holds no `/` after it |
| Naming.BaseUrlOfHttps | scraper/wiki.go:180-182 | an `https://host/path` URL gives `https://host` |
| Naming.BaseUrlOfHttp | scraper/wiki.go:180-182 | any `http://` URL gives `https://http:`, because only `https://` is trimmed |
| Naming.Resolve | scraper/wiki.go:185 | a resolved link starts with `https://` |
| Links.IsContentLink | scraper/wiki.go:83 | the per-anchor test: a link passes when it starts with `/` and, lower-cased, ends in neither `.jpg` nor `.png` |
| Links.ImageLinkRejected | scraper/wiki.go:83 | a link ending in `.jpg` or `.png`, in any mix of upper and lower case, is rejected |
| Links.AnchorLink | scraper/wiki.go:82-85 | one anchor contributes nothing, or its own `href` when it has one that passes the link test |
| Links.GetLinks | scraper/wiki.go:79-88 | every returned link starts with `/` and, lower-cased, ends in neither `.jpg` nor `.png`; there are no more links than anchors |
| Links.GetLinksAppend | scraper/wiki.go:81-87 | filtering two anchor lists in turn is filtering their concatenation, so anchor order is kept |
| Links.GetLinksMultiplicity | scraper/wiki.go:81-87 | a passing link is returned exactly as often as it occurs among the anchors; a failing one never is |
| Links.ContentLinks | scraper/wiki.go:168-170 | every link collected from the content children passes the link test |
| Links.Dedup | scraper/wiki.go:96-107 | the reference result is duplicate-free, has the input's elements, and is no longer than the input |
| Links.DedupFirstOccurrenceOrder | scraper/wiki.go:96-107 | values come out in the order of their first occurrences in the input |
| Links.RemoveDuplicates | scraper/wiki.go:96-107 | the seen-set loop returns `Dedup` of its input: duplicate-free, with the same elements and no longer |
| Links.PageLinks | scraper/wiki.go:168-172 | a page's deduplicated links are duplicate-free, are exactly its content links, and all pass the link test |
| Segmenter.IsSkipped | scraper/wiki.go:151 | comments and `aside`, `div`, `figure` and `blockquote` elements are skipped; a skipped node is never a heading |
| Segmenter.IsHeading | scraper/wiki.go:154 | a node is a heading exactly when it is an element whose tag is `h` followed by a digit from 1 to 5 |
| Segmenter.HeadingValue | scraper/wiki.go:155 | a heading's value is its trimmed text with `[]` removed; it is no longer than the text and uses only the text's characters |
| Segmenter.SectionText | scraper/wiki.go:157 | a content node's contribution is its trimmed text with newlines removed; it holds no newline, is no longer than the text and uses only its characters |
| Segmenter.IsSeeAlso | scraper/wiki.go:161 | a heading is "see also" when it lower-cases to `see also`, so it has eight characters |
| Segmenter.SeeAlsoHeading | scraper/wiki.go:161 | the heading `See also` is recognised |
| Segmenter.Start | scraper/wiki.go:146-148 | both headings start as the page title, taken as it is without removing `[]`, with no section text and no records |
| Segmenter.Step | scraper/wiki.go:150-166 | one run of the callback appends at most one record and never changes earlier ones, and keeps `sectionHeading` and `prevHeading` equal |
| Segmenter.Fold | scraper/wiki.go:150-167 | the callback over all nodes only appends records, at most one per node |
| Segmenter.Sections | scraper/wiki.go:146-167 | the as-written records: at most as many as heading nodes, each with the page title, a heading seen on the page or the title, a non-empty text without newline, and a heading other than "see also" |
| Segmenter.Flush | scraper/wiki.go:161-163 | the flush adds at most one record, after the earlier ones; it adds one exactly when the section text is non-empty and the open heading is not "see also", and that record is (open heading, section text, page title) |
| Segmenter.Segment | scraper/wiki.go:146-167 | the statement-by-statement walk returns `Sections`, and every record it emits is well formed |
| Segmenter.FoldAppend | scraper/wiki.go:150-167 | walking two node lists in turn is walking their concatenation |
| Segmenter.FoldAgreed | scraper/wiki.go:154-165 | between nodes `sectionHeading` and `prevHeading` agree |
| Segmenter.StepEmits | scraper/wiki.go:160-165 | a node adds a record exactly when it is a heading whose value differs from the previous heading, the open section is non-empty and the previous heading is not "see also"; the record is (previous heading, section, title) |
| Segmenter.SkippedIsNoOp | scraper/wiki.go:151-153 | comments and `aside`/`div`/`figure`/`blockquote` nodes change neither heading, section nor records |
| Segmenter.SkippedNodesIgnored | scraper/wiki.go:151-153 | deleting every skipped node beforehand leaves the walk's result unchanged |
| Segmenter.TrailingContentDropped | scraper/wiki.go:150-167 | nodes after the last heading change, including headings that repeat the open heading's value, never reach the records |
| Segmenter.NoHeadingChangeNoRecord | scraper/wiki.go:154-165 | nodes whose headings all repeat the current heading's value emit nothing and leave that heading in place |
| Segmenter.TrailingSectionLost | scraper/wiki.go:150-167 | on an intro / "See also" / closing-section page the walk emits only the intro; a final flush also emits the closing section |
| Segmenter.ExampleQualifies | scraper/wiki.go:150-167 | the page "Intro", "A", "B", "See also", "C", "End", "D" meets `TrailingSectionLost`'s conditions |
| Segmenter.ExampleSections | scraper/wiki.go:150-167 | on that page the as-written records are exactly ("Intro", "AB"), and the corrected walk adds ("End", "D") |
| Segmenter.SectionsFlushed | scraper/wiki.go:160-165 | the walk plus a final flush yields the as-written records, possibly followed by the open section |
| Segmenter.SectionsFlushedKeepsAllText | scraper/wiki.go:150-167 | with the final flush, the records' texts are exactly the text of every kept content node outside "see also" sections |
| PageWriter.FileName | scraper/wiki.go:48-54 | the name is `tempDir/title.json` or `tempDir/title.jsonl` by format; it is empty exactly when the format is neither |
| PageWriter.FileNameInjective | scraper/wiki.go:48-54 | two titles share a file name only when they are equal |
| PageWriter.Jsonl | scraper/wiki.go:69-74 | the JSONL framing is empty exactly when there are no records, and otherwise ends with a newline |
| PageWriter.JsonlAppend | scraper/wiki.go:69-74 | the framing of two record lists is the concatenation of their framings |
| PageWriter.JsonlRoundTrip | scraper/wiki.go:69-74 | with newline-free encodings that a decoder undoes, reading the JSONL text line by line gives back the records in order |
| PageWriter.Content | scraper/wiki.go:64-74 | a new file's content is empty exactly when the format is not JSON and there are no records, and otherwise ends with a newline |
| PageWriter.WriteOutcome | scraper/wiki.go:56-77 | an existing name leaves every file and returns nil; the empty name fails and leaves the file map exactly as it was; otherwise only the new file is added, holding the format's content |
| PageWriter.WriteOnce | scraper/wiki.go:56-58 | after a successful write, a later write to the same name with any records changes nothing and succeeds |
| PageWriter.FileStore.WriteData | scraper/wiki.go:47-77 | the file map becomes `WriteOutcome`'s map and the result its error; the JSONL loop leaves `Jsonl` of all records; an error occurs exactly for an unknown format |
| Crawl.IsHttp | scraper/wiki.go:333 | the seed filter `strings.HasPrefix(link, "http")`, written as a test on the first four characters |
| Crawl.IsHttpIsHasPrefix | scraper/wiki.go:333 | the character test is `strings.HasPrefix(u, "http")` |
| Crawl.ResolvedIsHttp | scraper/wiki.go:185 | every resolved link passes the `http` test |
| Crawl.ResolveAll | scraper/wiki.go:184-185 | the links resolved in order, one URL per link; every resolved URL is `http`, and distinct links resolve to distinct URLs |
| Crawl.PageFile | scraper/wiki.go:174 | a page's file name is empty exactly when the format is unknown |
| Crawl.Written | scraper/wiki.go:174-178 | the file map after one page's crawl: `WriteOutcome` of the page's file name and records for a fetched page, and unchanged for a page that was not fetched |
| Crawl.Followed | scraper/wiki.go:168-191 | the URLs a page's crawl claims, in the order it claims them, are duplicate-free `http` URLs |
| Crawl.FollowedMembers | scraper/wiki.go:168-191 | a URL is followed from a page exactly when the page was fetched, the format is known, and the URL is a content link of the page resolved against its base URL |
| Crawl.Admitted | scraper/wiki.go:184-189 | the URLs a claim loop schedules are duplicate-free and are exactly the `http` URLs of its input not claimed before |
| Crawl.AdmittedNone | scraper/wiki.go:186 | claiming only URLs claimed before schedules nothing |
| Crawl.Progress | scraper/wiki.go:184-190 | each crawl step claims a new URL from a finite set or shortens the schedule, so the crawl ends |
| Crawl.LeastClosed | scraper/wiki.go:184-190 | a schedule of seeds and followed links lies inside every link-closed set that holds its seeds |
| Crawl.SeedAll | scraper/wiki.go:332-336 | claiming the seeds and scheduling the newly claimed `http` ones keeps the crawl invariant |
| Crawl.CrawlStep | scraper/wiki.go:184-190 | crawling the oldest scheduled URL and scheduling its newly claimed links keeps the crawl invariant |
| Crawl.CrawlComplete | scraper/wiki.go:184-190 | an empty schedule means the crawled set holds the `http` seeds, is link-closed, and lies within every such set |
| Crawl.SeedsOnly | scraper/wiki.go:174-191 | when no page follows links, the crawl visits exactly the `http` seeds |
| Crawl.SavedStep | scraper/wiki.go:174-178 | after a page's crawl, every crawled page has its file, for a known format |
| Crawl.Crawler.Claim | scraper/wiki.go:186 | `LoadOrStore`: it reports whether the URL was absent, and the URL is present afterwards |
| Crawl.Crawler.SeedLinks | scraper/wiki.go:332-338 | every seed is claimed; the newly claimed `http` seeds are scheduled in order; a non-`http` seed is claimed but never scheduled |
| Crawl.Crawler.ClaimSeeds | scraper/wiki.go:332-337 | the seed loop claims every seed and schedules, in order, exactly the `http` seeds not claimed before |
| Crawl.Crawler.ClaimSeed | scraper/wiki.go:333-337 | one seed is claimed, and scheduled only when it was absent and starts with `http` |
| Crawl.Crawler.CrawlNext | scraper/wiki.go:109-191 | one `Crawl`: the oldest scheduled page is crawled, its file written, and its newly claimed links scheduled; the invariant is kept |
| Crawl.Crawler.Visit | scraper/wiki.go:109-191 | the body of `Crawl`: nothing changes for an unfetched page; otherwise the page's file is written, and when that succeeds its followed links are claimed and the new ones scheduled |
| Crawl.Crawler.SavePage | scraper/wiki.go:146-178 | the page's records are segmented and written; the write fails exactly for an unknown format |
| Crawl.Crawler.FollowLinks | scraper/wiki.go:180-191 | every link is resolved and claimed; the newly claimed links are scheduled in order |
| Crawl.Crawler.FollowOne | scraper/wiki.go:185-190 | one resolved link is claimed, and scheduled only when it was absent |
| Crawl.Crawler.CrawlAll | scraper/wiki.go:339 | `wg.Wait()`: pages are crawled until none is scheduled, keeping the invariant and every earlier file |
| Crawl.Crawler.Scrape | scraper/wiki.go:332-339 | the crawl ends with nothing scheduled; no URL is crawled twice; every `http` seed is crawled; every link of a crawled page is crawled; nothing outside the least such set is crawled; earlier files are kept |

## Left out

- HTTP fetching, reading the body and goquery parsing (scraper/wiki.go:117-149) are foreign I/O. A page is given as its title and content nodes, and any failure is a URL missing from the site map.
- The page title's extraction from `#firstHeading` is a goquery selector. The title is part of the given page.
- Goroutines, the 50-slot semaphore and the `WaitGroup` are concurrency. The crawl is sequential, in first-in first-out order, with all seeds claimed before the first page is crawled. The proved invariant and end result do not depend on that order. Which of two racing tasks wins a claim is not modelled.
- `encoding/json` is a foreign library. `json.Marshal` of one record and `json.NewEncoder(f).Encode` of all records are function parameters. Their errors are not modelled, and neither is `f.Write`'s ignored error.
- `os.Stat`, `os.Create` and the files are a map from path to contents. `os.Create` fails only for the empty name, which is what an unknown output format produces.
- `CombineJSONFiles`, `CombineJSONLFiles`, `CleanDir`, `os.MkdirAll` and `os.RemoveAll` are directory enumeration and file I/O after or before the crawl.
- `pflag` parsing, the empty-links exit of `main` and `scraper/main.go` are command-line handling.
- `FormatContentSelection` is never called.
- GoStrings.ToLower: the model folds ASCII letters only, while Go's `strings.ToLower` folds every Unicode upper-case letter. Naming.SnakeCase and Naming.FileBase therefore keep non-ASCII capitals: for a title such as "Élan" the model's file name differs from Go's. Links.IsContentLink and Segmenter.IsSeeAlso are unaffected, because in Unicode's case tables the only non-ASCII letters that lower-case to ASCII give `i` and `k`, and neither occurs in `.jpg`, `.png` or `see also`.
- Strings are sequences of Unicode code points, while Go strings are UTF-8 bytes. Lengths therefore count code points: Naming.SnakeCase's `|r| == |TrimSpace(str)|` is not a statement about Go's `len()`. `strings.TrimSpace` uses Unicode's white-space list, which is finite.
- The error and progress output of `fmt.Println` (scraper/wiki.go:119, 126, 133, 176, 334) is console output.
- The site is a finite map, and the termination of Crawl.Progress and Crawl.Crawler.CrawlAll rests on it. The source likewise relies on a site with finitely many pages.
- PageWriter.WriteOnce and PageWriter.WriteOutcome: "the first write to a name wins" holds for the sequential model only. With goroutines, two pages whose titles give the same file name race between `os.Stat` and `os.Create` (scraper/wiki.go:56-60).
- `goquery`'s `Text()` of a node is taken as given. So are the anchors found under it.

## Findings

| source | as written | input that shows it | evidently intended | confidence | as-written member | corrected member |
|---|---|---|---|---|---|---|
| scraper/wiki.go:150-167 | records are only emitted at a heading change inside the `Each` callback, and there is no flush after the last node, so the last open section of every page is dropped | a page whose children are headings and paragraphs "Intro", "A", "B", "See also", "C", "End", "D": the records are only ("Intro", "AB") and ("End", "D") is lost | every content section outside "see also" becomes a record, including the last | not executed | Segmenter.TrailingSectionLost | Segmenter.SectionsFlushedKeepsAllText |

The model keeps the segmenter as written (`Sections`), because the crawler writes what the code produces. `Segmenter.SectionsFlushed` is the corrected walk. For it, the records' texts are proved to be exactly the kept text of the page.
