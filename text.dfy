/**
 * The string primitives the debate system leans on, with the semantics of the
 * two languages it is written in: Python's `in`, `str.find`, `str.split(sep)`,
 * `sep.join`, `str.strip()` and `str.lower()`, and JavaScript's
 * `String.prototype.split`, `Array.prototype.join` and `String.prototype.trim`.
 * Strings are sequences of Unicode scalar values (`char`).
 */
module Text {

  datatype Option<T> = None | Some(value: T)

  /** A value, or the error the source raises or returns instead. */
  datatype Result<T, E> = Ok(value: T) | Err(error: E)

  /** `pat` occurs in `s` starting at index `i`. */
  predicate OccursAt(s: string, pat: string, i: int) {
    0 <= i && i + |pat| <= |s| && s[i..i + |pat|] == pat
  }

  /** Python `pat in s`, JavaScript `s.includes(pat)`. */
  predicate Contains(s: string, pat: string) {
    exists i | 0 <= i <= |s| - |pat| :: OccursAt(s, pat, i)
  }

  /** The first occurrence of `pat` in `s` at or after index `k`, or -1. */
  function FindFrom(s: string, pat: string, k: nat): (r: int)
    requires k <= |s|
    ensures r == -1 || (k <= r && OccursAt(s, pat, r))
    ensures forall j :: k <= j && OccursAt(s, pat, j) ==> 0 <= r <= j
    decreases |s| - k
  {
    if k + |pat| > |s| then -1
    else if s[k..k + |pat|] == pat then k
    else FindFrom(s, pat, k + 1)
  }

  /** Python `s.find(pat)`: the index of the first occurrence of `pat`, or -1. */
  function Find(s: string, pat: string): (r: int)
    ensures r == -1 <==> !Contains(s, pat)
    ensures r != -1 ==> OccursAt(s, pat, r)
    ensures forall j :: OccursAt(s, pat, j) ==> 0 <= r <= j
  {
    FindFrom(s, pat, 0)
  }

  lemma SliceOfSlice<T>(s: seq<T>, a: nat, b: nat, i: nat, j: nat)
    requires a <= b <= |s| && i <= j <= b - a
    ensures s[a..b][i..j] == s[a + i..a + j]
  {
    var x, y := s[a..b][i..j], s[a + i..a + j];
    forall k | 0 <= k < |x| ensures x[k] == y[k] {}
  }

  lemma SliceIndex<T>(s: seq<T>, i: nat, j: nat, k: nat)
    requires i + k < j <= |s|
    ensures s[i..j][k] == s[i + k]
  {
  }

  /** A one-character pattern occurs exactly where that character stands. */
  lemma OccursAtChar(s: string, c: char, i: int)
    ensures OccursAt(s, [c], i) <==> 0 <= i < |s| && s[i] == c
  {
    if 0 <= i < |s| && s[i] == c {
      assert s[i..i + 1] == [c];
    }
  }

  /** A sequence that does not contain `pat` has no slice that contains it. */
  lemma SliceAvoids(s: string, pat: string, a: nat, b: nat)
    requires a <= b <= |s| && !Contains(s, pat)
    ensures !Contains(s[a..b], pat)
  {
    if Contains(s[a..b], pat) {
      var i :| 0 <= i && i + |pat| <= b - a && OccursAt(s[a..b], pat, i);
      SliceOfSlice(s, a, b, i, i + |pat|);
      assert OccursAt(s, pat, a + i);
    }
  }

  /** Dropping the first character keeps a text free of `pat`. */
  lemma TailAvoids(s: string, pat: string)
    requires |s| > 0 && !Contains(s, pat)
    ensures !Contains(s[1..], pat)
  {
    SliceAvoids(s, pat, 1, |s|);
    assert s[1..|s|] == s[1..];
  }

  /** The text before the first occurrence of `pat` does not contain `pat`. */
  lemma BeforeFirstAvoids(s: string, pat: string)
    requires pat != [] && Contains(s, pat)
    ensures !Contains(s[..Find(s, pat)], pat)
  {
    var f := Find(s, pat);
    if Contains(s[..f], pat) {
      var i :| 0 <= i && i + |pat| <= f && OccursAt(s[..f], pat, i);
      SliceOfSlice(s, 0, f, i, i + |pat|);
      assert OccursAt(s, pat, i);
    }
  }

  /**
   * Python `s.split(sep)` for a non-empty separator (Python raises on an empty
   * one): the pieces between successive non-overlapping occurrences.
   */
  function Split(s: string, sep: string): (r: seq<string>)
    requires sep != []
    ensures |r| >= 1
    ensures !Contains(s, sep) ==> r == [s]
    ensures Contains(s, sep) ==> |r| >= 2 && r[0] == s[..Find(s, sep)]
    decreases |s|
  {
    var i := Find(s, sep);
    if i < 0 then [s] else [s[..i]] + Split(s[i + |sep|..], sep)
  }

  /** No piece of a split contains the separator. */
  lemma {:induction false} SplitPiecesAvoid(s: string, sep: string)
    requires sep != []
    ensures forall k :: 0 <= k < |Split(s, sep)| ==> !Contains(Split(s, sep)[k], sep)
    decreases |s|
  {
    var i := Find(s, sep);
    if i >= 0 {
      BeforeFirstAvoids(s, sep);
      SplitPiecesAvoid(s[i + |sep|..], sep);
      assert Split(s, sep)[1..] == Split(s[i + |sep|..], sep);
    }
  }

  /** Python `sep.join(parts)`, JavaScript `parts.join(sep)`. */
  function Join(sep: string, parts: seq<string>): string {
    if |parts| == 0 then ""
    else if |parts| == 1 then parts[0]
    else parts[0] + sep + Join(sep, parts[1..])
  }

  lemma {:induction false} JoinSnoc(sep: string, parts: seq<string>, x: string)
    requires parts != []
    ensures Join(sep, parts + [x]) == Join(sep, parts) + sep + x
    decreases |parts|
  {
    if |parts| == 1 {
      assert parts + [x] == [parts[0], x];
      assert [parts[0], x][1..] == [x];
    } else {
      assert (parts + [x])[1..] == parts[1..] + [x];
      JoinSnoc(sep, parts[1..], x);
    }
  }

  /** Splitting and re-joining with the same separator gives the text back. */
  lemma {:induction false} JoinSplit(s: string, sep: string)
    requires sep != []
    ensures Join(sep, Split(s, sep)) == s
    decreases |s|
  {
    var i := Find(s, sep);
    if i >= 0 {
      var rest := s[i + |sep|..];
      JoinSplit(rest, sep);
      var r := Split(s, sep);
      assert r == [s[..i]] + Split(rest, sep);
      assert r[1..] == Split(rest, sep);
      assert s == s[..i] + sep + rest;
    }
  }

  /**
   * `s.split(c)` for a one-character separator, in Python and in JavaScript
   * alike (both keep empty pieces); defined character by character.
   */
  function SplitOn(s: string, c: char): (r: seq<string>)
    ensures |r| >= 1
    ensures forall k :: 0 <= k < |r| ==> c !in r[k]
    ensures c !in s ==> r == [s]
  {
    if |s| == 0 then [""]
    else
      var rest := SplitOn(s[1..], c);
      if s[0] == c then [""] + rest
      else
        assert c !in s ==> [s[0]] + s[1..] == s;
        [[s[0]] + rest[0]] + rest[1..]
  }

  lemma {:induction false} JoinSplitOn(s: string, c: char)
    ensures Join([c], SplitOn(s, c)) == s
  {
    if |s| > 0 {
      var rest := SplitOn(s[1..], c);
      JoinSplitOn(s[1..], c);
      if s[0] == c {
        assert ([""] + rest)[1..] == rest;
      } else if |rest| > 1 {
        assert ([[s[0]] + rest[0]] + rest[1..])[1..] == rest[1..];
        assert Join([c], rest) == rest[0] + [c] + Join([c], rest[1..]);
      }
    }
  }

  /** Splitting distributes over an occurrence of the separator. */
  lemma {:induction false} SplitAtSeparator(x: string, c: char, y: string)
    ensures SplitOn(x + [c] + y, c) == SplitOn(x, c) + SplitOn(y, c)
    decreases |x|
  {
    if |x| == 0 {
      assert x + [c] + y == [c] + y;
      SplitOnCons(c, y, c);
    } else {
      var t := x[1..] + [c] + y;
      assert x + [c] + y == [x[0]] + t;
      assert x == [x[0]] + x[1..];
      SplitOnCons(x[0], t, c);
      SplitOnCons(x[0], x[1..], c);
      SplitAtSeparator(x[1..], c, y);
      PiecesAppend(x[0] == c, [x[0]], SplitOn(x[1..], c), SplitOn(y, c));
    }
  }

  /** Splitting a text that starts with one given character. */
  lemma SplitOnCons(ch: char, t: string, c: char)
    ensures SplitOn([ch] + t, c)
      == if ch == c then [""] + SplitOn(t, c) else [[ch] + SplitOn(t, c)[0]] + SplitOn(t, c)[1..]
  {
    assert ([ch] + t)[1..] == t;
  }

  /** Growing or prepending the first piece commutes with appending more pieces. */
  lemma PiecesAppend<T>(sep: bool, h: seq<T>, a: seq<seq<T>>, b: seq<seq<T>>)
    requires |a| >= 1
    ensures (if sep then [[]] + (a + b) else [h + (a + b)[0]] + (a + b)[1..])
      == (if sep then [[]] + a else [h + a[0]] + a[1..]) + b
  {
    if !sep {
      assert (a + b)[0] == a[0];
      assert (a + b)[1..] == a[1..] + b;
    }
  }

  /** The first piece of a split is a prefix of the text. */
  lemma {:induction false} SplitOnHead(s: string, c: char)
    ensures |SplitOn(s, c)[0]| <= |s| && SplitOn(s, c)[0] == s[..|SplitOn(s, c)[0]|]
  {
    if |s| > 0 && s[0] != c {
      var rest := SplitOn(s[1..], c);
      SplitOnHead(s[1..], c);
      assert [s[0]] + rest[0] == [s[0]] + s[1..][..|rest[0]|];
      assert [s[0]] + s[1..][..|rest[0]|] == s[..1 + |rest[0]|];
    }
  }

  /** No piece of a split contains a pattern the text does not contain. */
  lemma {:induction false} SplitOnPiecesAvoid(s: string, c: char, pat: string)
    requires pat != [] && !Contains(s, pat)
    ensures forall k :: 0 <= k < |SplitOn(s, c)| ==> !Contains(SplitOn(s, c)[k], pat)
  {
    if |s| > 0 {
      var rest := SplitOn(s[1..], c);
      TailAvoids(s, pat);
      SplitOnPiecesAvoid(s[1..], c, pat);
      if s[0] != c {
        SplitOnHead(s[1..], c);
        var head := [s[0]] + rest[0];
        assert head == s[..1 + |rest[0]|];
        SliceAvoids(s, pat, 0, 1 + |rest[0]|);
        assert SplitOn(s, c) == [head] + rest[1..];
      }
    }
  }

  /** The pieces before the last one re-join to the text before the last separator. */
  lemma SplitLastPiece(s: string, c: char) returns (body: string, last: string)
    ensures var r := SplitOn(s, c);
      body == Join([c], r[..|r| - 1]) && last == r[|r| - 1]
      && c !in last
      && (s == body + [c] + last || (|r| == 1 && body == "" && s == last))
  {
    var r := SplitOn(s, c);
    var n := |r|;
    last := r[n - 1];
    body := Join([c], r[..n - 1]);
    JoinSplitOn(s, c);
    assert r == r[..n - 1] + [last];
    if n > 1 {
      JoinSnoc([c], r[..n - 1], last);
    }
  }

  /** A separator-free prefix glues onto the first piece of the split. */
  lemma {:induction false} SplitAfterPrefix(p: string, c: char, y: string)
    requires c !in p
    ensures var r := SplitOn(y, c);
      SplitOn(p + y, c) == [p + r[0]] + r[1..]
    decreases |p|
  {
    if |p| == 0 {
      var r := SplitOn(y, c);
      assert p + y == y && p + r[0] == r[0];
      assert [r[0]] + r[1..] == r;
    } else {
      var r := SplitOn(y, c);
      var t := p[1..] + y;
      assert p + y == [p[0]] + t;
      SplitOnCons(p[0], t, c);
      SplitAfterPrefix(p[1..], c, y);
      HeadThenRest(p, r[0]);
    }
  }

  lemma HeadThenRest<T>(p: seq<T>, q: seq<T>)
    requires |p| > 0
    ensures [p[0]] + (p[1..] + q) == p + q
  {
    assert p == [p[0]] + p[1..];
  }

  /**
   * If `a` does not contain `pat` and the first character of `pat` occurs
   * nowhere else in `pat`, the first occurrence of `pat` in `a + pat + b` is
   * the one right after `a`: no occurrence can straddle the boundary.
   */
  lemma FindAfterPrefix(a: string, pat: string, b: string)
    requires pat != [] && !Contains(a, pat)
    requires forall k :: 0 < k < |pat| ==> pat[k] != pat[0]
    ensures Find(a + pat + b, pat) == |a|
  {
    var s := a + pat + b;
    assert OccursAt(s, pat, |a|);
    var i := Find(s, pat);
    if i < |a| {
      if i + |pat| <= |a| {
        assert s[i..i + |pat|] == a[i..i + |pat|];
        assert OccursAt(a, pat, i);
        assert false;
      } else {
        StraddleChar(s, pat, i, |a|);
        assert false;
      }
    }
  }

  /** A text that starts with `pat` and has no other occurrence splits into "" and the rest. */
  lemma SplitLeading(pat: string, rest: string)
    requires pat != [] && !Contains(rest, pat)
    requires forall k :: 0 < k < |pat| ==> pat[k] != pat[0]
    ensures Contains(pat + rest, pat)
    ensures Split(pat + rest, pat) == ["", rest]
  {
    var s := pat + rest;
    assert OccursAt(s, pat, 0) by { assert s[..|pat|] == pat; }
    assert [] + pat + rest == s;
    FindAfterPrefix([], pat, rest);
    assert s[|pat|..] == rest;
  }

  /** `pat` cannot occur in a text that lacks one of its characters. */
  lemma MissingCharAvoids(s: string, pat: string, k: nat)
    requires k < |pat| && pat[k] !in s
    ensures !Contains(s, pat)
  {
    if Contains(s, pat) {
      var i :| 0 <= i <= |s| - |pat| && OccursAt(s, pat, i);
      SliceIndex(s, i, i + |pat|, k);
    }
  }

  /**
   * Appending text that lacks the last character of `pat` creates no
   * occurrence of `pat`: any new one would have to end inside the appended part.
   */
  lemma AppendAvoids(a: string, b: string, pat: string)
    requires pat != [] && !Contains(a, pat) && pat[|pat| - 1] !in b
    ensures !Contains(a + b, pat)
  {
    var s := a + b;
    if Contains(s, pat) {
      var i :| 0 <= i <= |s| - |pat| && OccursAt(s, pat, i);
      if i + |pat| <= |a| {
        SliceOfSlice(s, 0, |a|, i, i + |pat|);
        assert s[..|a|] == a;
        assert OccursAt(a, pat, i);
      } else {
        assert false;
      }
    }
  }

  /** Prepending a character that cannot start `pat` creates no occurrence of it. */
  lemma PrependAvoids(c: char, s: string, pat: string)
    requires pat != [] && c != pat[0] && !Contains(s, pat)
    ensures !Contains([c] + s, pat)
  {
    var t := [c] + s;
    if Contains(t, pat) {
      var i :| 0 <= i <= |t| - |pat| && OccursAt(t, pat, i);
      if i == 0 {
        SliceIndex(t, 0, |pat|, 0);
      } else {
        SliceOfSlice(t, 1, |t|, i - 1, i - 1 + |pat|);
        assert t[1..] == s;
        assert OccursAt(s, pat, i - 1);
      }
    }
  }

  /** Two overlapping occurrences of `pat`: the later one starts on a copy of `pat[0]`. */
  lemma StraddleChar(s: string, pat: string, i: int, j: int)
    requires OccursAt(s, pat, i) && OccursAt(s, pat, j) && i < j < i + |pat|
    ensures pat[j - i] == pat[0]
  {
    assert s[i..i + |pat|][j - i] == s[j] == s[j..j + |pat|][0];
  }

  /**
   * The last occurrence of `pat` in `s` starting between `lo` and `hi`
   * (inclusive), or -1.
   */
  function LastOccurrence(s: string, pat: string, lo: nat, hi: int): (r: int)
    ensures r == -1 || (lo <= r <= hi && OccursAt(s, pat, r))
    ensures forall j :: lo <= j <= hi && OccursAt(s, pat, j) ==> j <= r
    decreases hi - lo
  {
    if hi < lo then -1
    else if OccursAt(s, pat, hi) then hi
    else LastOccurrence(s, pat, lo, hi - 1)
  }

  /** No proper suffix of `pat` is also a prefix of it. */
  predicate BorderFree(pat: string) {
    forall k :: 0 < k < |pat| ==> pat[k..] != pat[..|pat| - k]
  }

  /**
   * For a border-free `pat`, the occurrence right after `a` is the last one
   * in `a + pat + b` when `b` does not contain `pat`.
   */
  lemma LastAfter(a: string, pat: string, b: string)
    requires BorderFree(pat) && !Contains(b, pat)
    ensures forall j :: |a| < j ==> !OccursAt(a + pat + b, pat, j)
  {
    forall j | |a| < j && OccursAt(a + pat + b, pat, j) ensures false {
      OccurrenceAfter(a, pat, b, j);
    }
  }

  /** What an occurrence of `pat` after `a` in `a + pat + b` looks like. */
  lemma OccurrenceAfter(a: string, pat: string, b: string, j: int)
    requires |a| < j && OccursAt(a + pat + b, pat, j)
    ensures var e := |a| + |pat|;
      if j >= e then OccursAt(b, pat, j - e)
      else pat[j - |a|..] == pat[..|pat| - (j - |a|)]
  {
    var s := a + pat + b;
    var e := |a| + |pat|;
    if j >= e {
      assert s[j..j + |pat|] == b[j - e..j - e + |pat|];
    } else {
      var k := j - |a|;
      assert pat[k..] == s[j..e];
      assert s[j..e] == s[j..j + |pat|][..|pat| - k];
    }
  }

  /** JavaScript's line terminators, the characters a regular expression `.` does not match. */
  predicate JsLineTerminator(c: char) {
    c == '\n' || c == '\r' || c == '\U{2028}' || c == '\U{2029}'
  }

  /** The longest prefix of `s` without a line terminator: what `(.*)` matches at the start of `s`. */
  function LineHead(s: string): (r: string)
    ensures |r| <= |s| && r == s[..|r|]
    ensures forall k :: 0 <= k < |r| ==> !JsLineTerminator(r[k])
    ensures |r| < |s| ==> JsLineTerminator(s[|r|])
  {
    if |s| == 0 || JsLineTerminator(s[0]) then "" else [s[0]] + LineHead(s[1..])
  }

  /** A text without line terminators is its own line head. */
  lemma LineHeadWhole(s: string)
    requires forall k :: 0 <= k < |s| ==> !JsLineTerminator(s[k])
    ensures LineHead(s) == s
  {
  }

  // ---------------------------------------------------------------------
  // Whitespace and trimming

  /** The characters for which Python's `str.isspace()` holds. */
  predicate PyWhitespace(c: char) {
    ('\t' <= c <= '\r') || ('\U{1c}' <= c <= '\U{1f}') || c == ' ' || c == '\U{85}' || c == '\U{a0}'
    || c == '\U{1680}' || ('\U{2000}' <= c <= '\U{200a}') || c == '\U{2028}' || c == '\U{2029}'
    || c == '\U{202f}' || c == '\U{205f}' || c == '\U{3000}'
  }

  /** The characters JavaScript's `trim` removes (WhiteSpace and LineTerminator). */
  predicate JsWhitespace(c: char) {
    ('\t' <= c <= '\r') || c == ' ' || c == '\U{a0}' || c == '\U{1680}'
    || ('\U{2000}' <= c <= '\U{200a}') || c == '\U{2028}' || c == '\U{2029}'
    || c == '\U{202f}' || c == '\U{205f}' || c == '\U{3000}' || c == '\U{feff}'
  }

  /** The two whitespace sets the system trims with. */
  datatype Whitespace = PySpace | JsSpace

  predicate IsSpace(ws: Whitespace, c: char) {
    match ws
    case PySpace => PyWhitespace(c)
    case JsSpace => JsWhitespace(c)
  }

  /** Drops the leading characters of the set `ws`. */
  function TrimStart(s: string, ws: Whitespace): (r: string)
    ensures |r| <= |s| && r == s[|s| - |r|..]
    ensures forall k :: 0 <= k < |s| - |r| ==> IsSpace(ws, s[k])
    ensures r == [] || !IsSpace(ws, r[0])
  {
    if |s| > 0 && IsSpace(ws, s[0]) then TrimStart(s[1..], ws) else s
  }

  /** Drops the trailing characters of the set `ws`. */
  function TrimEnd(s: string, ws: Whitespace): (r: string)
    ensures |r| <= |s| && r == s[..|r|]
    ensures forall k :: |r| <= k < |s| ==> IsSpace(ws, s[k])
    ensures r == [] || !IsSpace(ws, r[|r| - 1])
  {
    if |s| > 0 && IsSpace(ws, s[|s| - 1]) then TrimEnd(s[..|s| - 1], ws) else s
  }

  function Trim(s: string, ws: Whitespace): string {
    TrimEnd(TrimStart(s, ws), ws)
  }

  /** Python `s.strip()`. */
  function PyStrip(s: string): string {
    Trim(s, PySpace)
  }

  /** JavaScript `s.trim()`. */
  function JsTrim(s: string): string {
    Trim(s, JsSpace)
  }

  /** The result of trimming is a slice of the input. */
  lemma TrimIsSlice(s: string, ws: Whitespace) returns (a: nat, b: nat)
    ensures a <= b <= |s| && Trim(s, ws) == s[a..b]
  {
    var t := TrimStart(s, ws);
    var r := TrimEnd(t, ws);
    a, b := |s| - |t|, |s| - |t| + |r|;
    assert t == s[a..];
    assert r == t[..|r|];
    forall k | 0 <= k < |r| ensures r[k] == s[a..b][k] {
      assert r[k] == t[k] == s[a + k];
    }
  }

  /** Trimming never introduces an occurrence of a pattern. */
  lemma TrimAvoids(s: string, ws: Whitespace, pat: string)
    requires !Contains(s, pat)
    ensures !Contains(Trim(s, ws), pat)
  {
    var a, b := TrimIsSlice(s, ws);
    SliceAvoids(s, pat, a, b);
  }

  /** Trailing whitespace does not change the trimmed text. */
  lemma TrimAppendWhitespace(s: string, ws: Whitespace, c: char)
    requires IsSpace(ws, c)
    ensures Trim(s + [c], ws) == Trim(s, ws)
  {
    TrimStartAppend(s, ws, c);
    var t := TrimStart(s, ws);
    if t != [] {
      assert (t + [c])[..|t + [c]| - 1] == t;
    }
  }

  lemma {:induction false} TrimStartAppend(s: string, ws: Whitespace, c: char)
    requires IsSpace(ws, c)
    ensures TrimStart(s + [c], ws) == if TrimStart(s, ws) == [] then [] else TrimStart(s, ws) + [c]
    decreases |s|
  {
    if |s| > 0 && IsSpace(ws, s[0]) {
      assert (s + [c])[1..] == s[1..] + [c];
      TrimStartAppend(s[1..], ws, c);
    }
  }

  /** Leading whitespace does not change the trimmed text. */
  lemma TrimPrependWhitespace(c: char, s: string, ws: Whitespace)
    requires IsSpace(ws, c)
    ensures Trim([c] + s, ws) == Trim(s, ws)
  {
    assert ([c] + s)[1..] == s;
  }

  /** Trimming a text that has no whitespace at either end gives it back. */
  lemma TrimmedFixpoint(s: string, ws: Whitespace)
    requires s == [] || (!IsSpace(ws, s[0]) && !IsSpace(ws, s[|s| - 1]))
    ensures Trim(s, ws) == s
  {
  }

  /** A leading space does not change Python's strip. */
  lemma PyStripSpace(s: string)
    ensures PyStrip([' '] + s) == PyStrip(s)
  {
    TrimPrependWhitespace(' ', s, PySpace);
  }

  /** Python's strip gives back a text without whitespace at either end. */
  lemma PyStripFixpoint(s: string)
    requires s == [] || (!PyWhitespace(s[0]) && !PyWhitespace(s[|s| - 1]))
    ensures PyStrip(s) == s
  {
    TrimmedFixpoint(s, PySpace);
  }

  // ---------------------------------------------------------------------
  // Case mapping

  function AsciiLowerChar(c: char): char {
    if 'A' <= c <= 'Z' then (c as int + 32) as char else c
  }

  /** `s.lower()`, for the ASCII letters (see README for why that suffices). */
  function AsciiLower(s: string): (r: string)
    ensures |r| == |s|
    ensures forall k :: 0 <= k < |s| ==> r[k] == AsciiLowerChar(s[k])
  {
    seq(|s|, k requires 0 <= k < |s| => AsciiLowerChar(s[k]))
  }

  /** Lower-casing leaves a text without upper-case ASCII letters unchanged. */
  lemma AsciiLowerFixpoint(s: string)
    requires forall k :: 0 <= k < |s| ==> !('A' <= s[k] <= 'Z')
    ensures AsciiLower(s) == s
  {
  }
}
