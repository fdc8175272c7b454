/**
 * `WriteData` (scraper/wiki.go:47-77): one page's records written to a file
 * named after the page, once.  The file system is a map from path to
 * contents; the JSON encoders are parameters.
 */
module PageWriter {
  import opened Wrappers
  import opened GoStrings
  import opened Segmenter

  /** The `OutputFormat_t` values (scraper/wiki.go:18-23); any other integer names no format. */
  const JSON: int := 0
  const JSONL: int := 1

  /**
   * The per-page file name (scraper/wiki.go:48-54): the directory, `/`, the
   * title and the format's extension; empty when the format is neither.
   */
  function FileName(tempDir: string, format: int, title: string): (name: string)
    ensures format == JSON ==> HasPrefix(name, tempDir + "/" + title) && HasSuffix(name, ".json")
    ensures format == JSONL ==> HasPrefix(name, tempDir + "/" + title) && HasSuffix(name, ".jsonl")
    ensures name == "" <==> format != JSON && format != JSONL
  {
    var base := tempDir + "/" + title;
    assert HasPrefix(base + ".json", base) && HasPrefix(base + ".jsonl", base);
    if format == JSON then base + ".json"
    else if format == JSONL then base + ".jsonl"
    else ""
  }

  /** Different titles never share a file in one directory and format. */
  lemma FileNameInjective(tempDir: string, format: int, t1: string, t2: string)
    requires format == JSON || format == JSONL
    requires FileName(tempDir, format, t1) == FileName(tempDir, format, t2)
    ensures t1 == t2
  {
    var ext := if format == JSON then ".json" else ".jsonl";
    var n1, n2 := FileName(tempDir, format, t1), FileName(tempDir, format, t2);
    var k := |tempDir| + 1;
    assert n1 == tempDir + "/" + t1 + ext && n2 == tempDir + "/" + t2 + ext;
    assert |t1| == |t2|;
    assert t1 == n1[k..k + |t1|];
    assert t2 == n2[k..k + |t2|];
  }

  /** JSONL framing (scraper/wiki.go:69-74): each encoded record followed by a newline, in order. */
  function Jsonl(enc: PageData -> string, data: seq<PageData>): (r: string)
    ensures r == "" <==> data == []
    ensures r != "" ==> r[|r| - 1] == '\n'
  {
    if data == [] then "" else Jsonl(enc, data[..|data| - 1]) + enc(data[|data| - 1]) + "\n"
  }

  lemma {:induction false} JsonlAppend(enc: PageData -> string, a: seq<PageData>, b: seq<PageData>)
    ensures Jsonl(enc, a + b) == Jsonl(enc, a) + Jsonl(enc, b)
    decreases |b|
  {
    if b != [] {
      var n := |b| - 1;
      assert (a + b)[..|a + b| - 1] == a + b[..n];
      JsonlAppend(enc, a, b[..n]);
    } else {
      assert a + b == a;
    }
  }

  /** A reader's view of a text file: the lines, each cut at its newline. */
  function Lines(s: string): seq<string>
    decreases |s|
  {
    if s == [] then []
    else
      var line := Before(s, '\n');
      if |line| == |s| then [s] else [line] + Lines(s[|line| + 1..])
  }

  lemma LinesCons(line: string, rest: string)
    requires '\n' !in line
    ensures Lines(line + "\n" + rest) == [line] + Lines(rest)
  {
    var s := line + "\n" + rest;
    BeforeConcat(line, '\n', "\n" + rest);
    assert s == line + ("\n" + rest);
    assert s[|line| + 1..] == rest;
  }

  /** Every line decoded, in order. */
  function DecodeAll(dec: string -> PageData, lines: seq<string>): (r: seq<PageData>)
    ensures |r| == |lines|
  {
    if lines == [] then [] else [dec(lines[0])] + DecodeAll(dec, lines[1..])
  }

  /**
   * Round trip: when no encoded record holds a newline and `dec` undoes
   * `enc`, reading the JSONL text back line by line gives the records in order.
   */
  lemma {:induction false} JsonlRoundTrip(enc: PageData -> string, dec: string -> PageData, data: seq<PageData>)
    requires forall d :: d in data ==> '\n' !in enc(d) && dec(enc(d)) == d
    ensures DecodeAll(dec, Lines(Jsonl(enc, data))) == data
    decreases |data|
  {
    if data != [] {
      var d := data[0];
      JsonlAppend(enc, [d], data[1..]);
      assert [d] + data[1..] == data;
      assert Jsonl(enc, [d]) == enc(d) + "\n" by {
        assert [d][..0] == [];
      }
      LinesCons(enc(d), Jsonl(enc, data[1..]));
      assert enc(d) + "\n" + Jsonl(enc, data[1..]) == Jsonl(enc, data);
      JsonlRoundTrip(enc, dec, data[1..]);
    }
  }

  /**
   * What a fresh file holds: in JSON format the encoded array and the
   * newline `json.Encoder` appends, in JSONL format one line per record.
   */
  function Content(format: int, data: seq<PageData>, enc: PageData -> string, encArray: seq<PageData> -> string): (r: string)
    ensures r == "" <==> format != JSON && data == []
    ensures r != "" ==> r[|r| - 1] == '\n'
  {
    if format == JSON then encArray(data) + "\n" else Jsonl(enc, data)
  }

  /** `os.Create` of the empty name, the only creation failure the model has. */
  datatype WriteError = CreateFailed(name: string)

  /**
   * The effect of `WriteData` on the file map and its result: an existing
   * file is left alone and nil returned (scraper/wiki.go:56-58); the empty
   * name cannot be created (60-63); otherwise the file is created with the
   * format's content.
   */
  function WriteOutcome(files: map<string, string>, name: string, format: int, data: seq<PageData>,
                        enc: PageData -> string, encArray: seq<PageData> -> string): (r: (map<string, string>, Option<WriteError>))
    ensures r.1.Some? <==> name !in files && name == ""
    ensures r.1.Some? ==> r.0 == files
    ensures r.1 == None ==> name in r.0
    ensures r.0.Keys <= files.Keys + {name}
    ensures forall f :: f in files ==> f in r.0 && r.0[f] == files[f]
    ensures name !in files && name != "" ==> r.0[name] == Content(format, data, enc, encArray)
  {
    if name in files then (files, None)
    else if name == "" then (files, Some(CreateFailed(name)))
    else (files[name := Content(format, data, enc, encArray)], None)
  }

  /**
   * Write-once: after a successful write, any later write to the same name,
   * whatever its records, leaves every file as it is and succeeds.
   */
  lemma WriteOnce(files: map<string, string>, name: string, format: int, data: seq<PageData>, data': seq<PageData>,
                  enc: PageData -> string, encArray: seq<PageData> -> string)
    requires WriteOutcome(files, name, format, data, enc, encArray).1 == None
    ensures var files' := WriteOutcome(files, name, format, data, enc, encArray).0;
            WriteOutcome(files', name, format, data', enc, encArray) == (files', None)
  {
  }

  /** The per-page output directory. */
  class FileStore {
    var files: map<string, string>

    /** No file has the empty path. */
    ghost predicate Valid()
      reads this
    {
      "" !in files
    }

    constructor (initial: map<string, string>)
      requires "" !in initial
      ensures Valid() && files == initial
    {
      files := initial;
    }

    method WriteData(tempDir: string, format: int, title: string, data: seq<PageData>,
                     enc: PageData -> string, encArray: seq<PageData> -> string)
      returns (err: Option<WriteError>)
      requires Valid()
      modifies this
      ensures Valid()
      ensures files == WriteOutcome(old(files), FileName(tempDir, format, title), format, data, enc, encArray).0
      ensures err == WriteOutcome(old(files), FileName(tempDir, format, title), format, data, enc, encArray).1
      ensures err.Some? <==> format != JSON && format != JSONL
    {
      var fName := FileName(tempDir, format, title);
      if fName in files {
        return None;
      }
      if fName == "" {
        return Some(CreateFailed(fName));
      }
      files := files[fName := ""];
      if format == JSON {
        files := files[fName := files[fName] + (encArray(data) + "\n")];
        assert files[fName] == Content(format, data, enc, encArray);
      } else {
        var i := 0;
        while i < |data|
          invariant 0 <= i <= |data|
          invariant files == old(files)[fName := Jsonl(enc, data[..i])]
        {
          assert data[..i + 1][..i] == data[..i];
          files := files[fName := files[fName] + enc(data[i])];
          files := files[fName := files[fName] + "\n"];
          i := i + 1;
        }
        assert data[..i] == data;
        assert files[fName] == Content(format, data, enc, encArray);
      }
      err := None;
    }
  }
}
