/**
 * How the browser renders a message's text (static/script.js `formatContent`,
 * and the same two replacements inlined in `appendMessage`): every
 * `**bold**` span becomes a `<strong>` element, then every '\n' a `<br>`.
 */
module Format {
  import opened Text

  /**
   * Where the lazy `(.*?)\*\*` of the bold pattern, started at index `m`,
   * stops: the first "**" at or after `m`, provided no line terminator
   * comes before it.
   */
  function CloseAt(s: string, m: nat): (r: Option<nat>)
    requires m <= |s|
    ensures r.Some? ==> m <= r.value && r.value + 2 <= |s| && s[r.value..r.value + 2] == "**"
    ensures r.Some? ==> forall k :: m <= k < r.value ==> !JsLineTerminator(s[k]) && !OccursAt(s, "**", k)
    ensures r.None? ==> forall k :: m <= k && OccursAt(s, "**", k) ==>
      exists j :: m <= j < k && JsLineTerminator(s[j])
    decreases |s| - m
  {
    if m + 2 > |s| then None
    else if s[m..m + 2] == "**" then Some(m)
    else if JsLineTerminator(s[m]) then None
    else CloseAt(s, m + 1)
  }

  /**
   * The global replacement of the lazy pattern "**(.*?)**" by
   * `<strong>$1</strong>`: scanning left to right, a "**" that has a
   * closing "**" on the same line opens a bold span; the scan resumes after
   * the closing "**". A "**" without one stays as it is.
   */
  function Bold(s: string): string
    decreases |s|
  {
    if |s| == 0 then ""
    else if |s| >= 2 && s[..2] == "**" && CloseAt(s, 2).Some? then
      var m := CloseAt(s, 2).value;
      "<strong>" + s[2..m] + "</strong>" + Bold(s[m + 2..])
    else [s[0]] + Bold(s[1..])
  }

  /** The global replacement of '\n' by `<br>`. */
  function ReplaceNewlines(s: string): (r: string)
    ensures '\n' !in r
    ensures '\n' !in s ==> r == s
  {
    if |s| == 0 then ""
    else
      assert s == [s[0]] + s[1..];
      (if s[0] == '\n' then "<br>" else [s[0]]) + ReplaceNewlines(s[1..])
  }

  /**
   * `formatContent(text)`: the HTML shown for a message's text: the bold
   * rendering's lines joined with `<br>`, with no line breaks left.
   */
  function FormatContent(text: string): (r: string)
    ensures '\n' !in r
    ensures r == Join("<br>", SplitOn(Bold(text), '\n'))
  {
    ReplaceNewlinesIsJoin(Bold(text));
    ReplaceNewlines(Bold(text))
  }

  /** A text without "**" has no bold span. */
  lemma {:induction false} BoldPlain(s: string)
    requires !Contains(s, "**")
    ensures Bold(s) == s
    decreases |s|
  {
    if |s| > 0 {
      assert !OccursAt(s, "**", 0);
      TailAvoids(s, "**");
      BoldPlain(s[1..]);
      assert s == [s[0]] + s[1..];
    }
  }

  /** A text with neither "**" nor '\n' is shown as it is. */
  lemma PlainTextShownAsIs(text: string)
    requires !Contains(text, "**") && '\n' !in text
    ensures FormatContent(text) == text
  {
    BoldPlain(text);
  }

  /** A prefix without '*' is shown as it is, ahead of the rendering of the rest. */
  lemma {:induction false} BoldAfterPlain(p: string, s: string)
    requires '*' !in p
    ensures Bold(p + s) == p + Bold(s)
    decreases |p|
  {
    if |p| > 0 {
      var t := p + s;
      calc {
        Bold(t);
      == { BoldPlainHead(t); }
        [t[0]] + Bold(t[1..]);
      == { assert t[0] == p[0] && t[1..] == p[1..] + s; }
        [p[0]] + Bold(p[1..] + s);
      == { BoldAfterPlain(p[1..], s); }
        [p[0]] + (p[1..] + Bold(s));
      == { assert p == [p[0]] + p[1..]; }
        p + Bold(s);
      }
    } else {
      assert p + s == s;
    }
  }

  /** A text that does not start with '*' shows its first character as it is. */
  lemma BoldPlainHead(t: string)
    requires |t| > 0 && t[0] != '*'
    ensures Bold(t) == [t[0]] + Bold(t[1..])
  {
    if |t| >= 2 {
      assert t[..2][0] == t[0];
    }
  }

  /**
   * A bold span whose inner text has no '*' and no line terminator is
   * wrapped in one `<strong>` element, and the scan goes on after it.
   */
  lemma BoldSpan(x: string, y: string)
    requires '*' !in x
    requires forall k :: 0 <= k < |x| ==> !JsLineTerminator(x[k])
    ensures Bold("**" + x + "**" + y) == "<strong>" + x + "</strong>" + Bold(y)
  {
    var s := "**" + x + "**" + y;
    var e := 2 + |x|;
    assert s[e..e + 2] == "**";
    forall k | 2 <= k < e ensures s[k] == x[k - 2] {}
    CloseFinds(s, 2, e);
    assert s[..2] == "**";
    assert s[2..e] == x;
    assert s[e + 2..] == y;
  }

  /** `CloseAt` stops at the first "**" when no line terminator and no '*' comes before it. */
  lemma {:induction false} CloseFinds(s: string, m: nat, e: nat)
    requires m <= e && e + 2 <= |s| && s[e..e + 2] == "**"
    requires forall k :: m <= k < e ==> !JsLineTerminator(s[k]) && s[k] != '*'
    ensures CloseAt(s, m) == Some(e)
    decreases e - m
  {
    if m < e {
      assert s[m..m + 2][0] == s[m];
      CloseFinds(s, m + 1, e);
    }
  }

  /** Replacing line breaks is the same as splitting at them and joining with `<br>`. */
  lemma {:induction false} ReplaceNewlinesIsJoin(s: string)
    ensures ReplaceNewlines(s) == Join("<br>", SplitOn(s, '\n'))
    decreases |s|
  {
    if |s| > 0 {
      var rest := SplitOn(s[1..], '\n');
      ReplaceNewlinesIsJoin(s[1..]);
      if s[0] == '\n' {
        assert SplitOn(s, '\n') == [""] + rest;
        JoinCons("<br>", "", rest);
      } else {
        assert SplitOn(s, '\n') == [[s[0]] + rest[0]] + rest[1..];
        JoinFirstGrows("<br>", [s[0]], rest);
      }
    }
  }

  lemma JoinCons(sep: string, x: string, parts: seq<string>)
    requires parts != []
    ensures Join(sep, [x] + parts) == x + sep + Join(sep, parts)
  {
    assert ([x] + parts)[1..] == parts;
  }

  /** Prefixing the first part prefixes the joined text. */
  lemma JoinFirstGrows(sep: string, p: string, parts: seq<string>)
    requires parts != []
    ensures Join(sep, [p + parts[0]] + parts[1..]) == p + Join(sep, parts)
  {
    if |parts| > 1 {
      assert ([p + parts[0]] + parts[1..])[1..] == parts[1..];
    }
  }
}
