/**
 * The few functions of Go's `strings` package that the crawler uses, on
 * strings of Unicode code points.  Each is stated by what it means for
 * its result; `ReplaceAll` follows Go's leftmost, non-overlapping scan.
 */
module GoStrings {

  /** Go's `unicode.IsSpace`: the White_Space code points. */
  predicate IsSpace(c: char)
  {
    || c == ' '
    || '\t' <= c <= '\r'
    || c == '\U{0085}' || c == '\U{00A0}' || c == '\U{1680}'
    || '\U{2000}' <= c <= '\U{200A}'
    || c == '\U{2028}' || c == '\U{2029}' || c == '\U{202F}' || c == '\U{205F}'
    || c == '\U{3000}'
  }

  predicate IsUpper(c: char)
  {
    'A' <= c <= 'Z'
  }

  /** ASCII case folding of one character. */
  function LowerChar(c: char): (r: char)
    ensures !IsUpper(r)
    ensures IsUpper(c) ==> 'a' <= r <= 'z' && r as int == c as int + 32
    ensures !IsUpper(c) ==> r == c
    ensures IsSpace(r) <==> IsSpace(c)
  {
    if IsUpper(c) then (c as int + 32) as char else c
  }

  /** `strings.ToLower`, on ASCII letters. */
  function ToLower(s: string): (r: string)
    ensures |r| == |s|
    ensures forall i :: 0 <= i < |s| ==> r[i] == LowerChar(s[i])
  {
    if s == [] then [] else [LowerChar(s[0])] + ToLower(s[1..])
  }

  /** `ToLower(h)` is `t` when they agree character by character. */
  lemma LowerEq(h: string, t: string)
    requires |h| == |t|
    requires forall i :: 0 <= i < |h| ==> LowerChar(h[i]) == t[i]
    ensures ToLower(h) == t
  {
  }

  /** Lower-casing keeps a suffix: `ToLower(path + ext)` ends in `ToLower(ext)`. */
  lemma LowerSuffix(path: string, ext: string)
    ensures HasSuffix(ToLower(path + ext), ToLower(ext))
  {
    var s := path + ext;
    var l := ToLower(s);
    var e := ToLower(ext);
    forall i | 0 <= i < |e| ensures l[|l| - |e| + i] == e[i] {
      assert s[|path| + i] == ext[i];
    }
    assert l[|l| - |e|..] == e;
  }

  /** Leading whitespace removed. */
  function TrimLeft(s: string): (r: string)
    ensures |r| <= |s| && r == s[|s| - |r|..]
    ensures forall i :: 0 <= i < |s| - |r| ==> IsSpace(s[i])
    ensures r == [] || !IsSpace(r[0])
  {
    if s != [] && IsSpace(s[0]) then TrimLeft(s[1..]) else s
  }

  /** Trailing whitespace removed. */
  function TrimRight(s: string): (r: string)
    ensures |r| <= |s| && r == s[..|r|]
    ensures forall i :: |r| <= i < |s| ==> IsSpace(s[i])
    ensures r == [] || !IsSpace(r[|r| - 1])
  {
    if s != [] && IsSpace(s[|s| - 1]) then TrimRight(s[..|s| - 1]) else s
  }

  /**
   * `strings.TrimSpace`: the infix of `s` left once all leading and
   * trailing whitespace is cut off.
   */
  function TrimSpace(s: string): (r: string)
    ensures r == [] || (!IsSpace(r[0]) && !IsSpace(r[|r| - 1]))
    ensures var i := |s| - |TrimLeft(s)|;
            && i + |r| <= |s| && r == s[i..i + |r|]
            && (forall k :: 0 <= k < i ==> IsSpace(s[k]))
            && (forall k :: i + |r| <= k < |s| ==> IsSpace(s[k]))
    ensures forall c :: c in r ==> c in s
  {
    var t := TrimLeft(s);
    var r := TrimRight(t);
    assert r == s[|s| - |t|..|s| - |t| + |r|];
    r
  }

  predicate HasPrefix(s: string, prefix: string)
  {
    |prefix| <= |s| && s[..|prefix|] == prefix
  }

  predicate HasSuffix(s: string, suffix: string)
  {
    |suffix| <= |s| && s[|s| - |suffix|..] == suffix
  }

  /** `strings.TrimPrefix`: `s` without `prefix`, or `s` unchanged if it does not start with it. */
  function TrimPrefix(s: string, prefix: string): (r: string)
    ensures HasPrefix(s, prefix) ==> prefix + r == s
    ensures !HasPrefix(s, prefix) ==> r == s
  {
    if HasPrefix(s, prefix) then s[|prefix|..] else s
  }

  /**
   * `strings.Split(s, string(sep))[0]`: the longest prefix of `s` free of
   * `sep`; the whole of `s` when `sep` does not occur.
   */
  function Before(s: string, sep: char): (r: string)
    ensures HasPrefix(s, r) && sep !in r
    ensures |r| < |s| ==> s[|r|] == sep
  {
    if s == [] || s[0] == sep then [] else [s[0]] + Before(s[1..], sep)
  }

  /** The field before `sep` is exactly the separator-free part written before it. */
  lemma BeforeConcat(a: string, sep: char, b: string)
    requires sep !in a
    requires b == [] || b[0] == sep
    ensures Before(a + b, sep) == a
  {
    var s := a + b;
    assert forall k :: 0 <= k < |a| ==> s[k] == a[k] && s[k] != sep;
    assert b != [] ==> s[|a|] == sep;
  }

  /**
   * `strings.ReplaceAll(s, pat, rep)` for a non-empty `pat`: every leftmost,
   * non-overlapping occurrence of `pat` replaced by `rep`.
   */
  function ReplaceAll(s: string, pat: string, rep: string): (r: string)
    requires pat != []
    ensures forall c :: c in r ==> c in s || c in rep
    ensures rep == [] ==> |r| <= |s|
    decreases |s|
  {
    if s == [] then []
    else if HasPrefix(s, pat) then rep + ReplaceAll(s[|pat|..], pat, rep)
    else [s[0]] + ReplaceAll(s[1..], pat, rep)
  }

  /** Replacing one character by another works position by position. */
  lemma {:induction false} ReplaceCharPointwise(s: string, a: char, b: char)
    ensures |ReplaceAll(s, [a], [b])| == |s|
    ensures forall i :: 0 <= i < |s| ==> ReplaceAll(s, [a], [b])[i] == if s[i] == a then b else s[i]
  {
    if s != [] {
      ReplaceCharPointwise(s[1..], a, b);
      var r := ReplaceAll(s, [a], [b]);
      var t := ReplaceAll(s[1..], [a], [b]);
      assert HasPrefix(s, [a]) <==> s[0] == a;
      assert r == [if s[0] == a then b else s[0]] + t;
      forall i | 1 <= i < |s| ensures r[i] == if s[i] == a then b else s[i] {
        assert r[i] == t[i - 1];
        assert s[i] == s[1..][i - 1];
      }
    }
  }

  /** Once every `a` is replaced by a text without `a`, no `a` is left. */
  lemma {:induction false} ReplaceCharRemoves(s: string, a: char, rep: string)
    requires a !in rep
    ensures a !in ReplaceAll(s, [a], rep)
  {
    if s != [] {
      ReplaceCharRemoves(s[1..], a, rep);
      assert HasPrefix(s, [a]) <==> s[0] == a;
    }
  }

  /** A text in which the pattern's first character never occurs is left as it is. */
  lemma {:induction false} ReplaceAbsent(s: string, pat: string, rep: string)
    requires pat != [] && pat[0] !in s
    ensures ReplaceAll(s, pat, rep) == s
  {
    if s != [] {
      assert !HasPrefix(s, pat) by { assert s[0] != pat[0]; }
      ReplaceAbsent(s[1..], pat, rep);
      assert s == [s[0]] + s[1..];
    }
  }
}
