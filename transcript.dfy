/**
 * The browser's transcript format (static/script.js): the role names shown
 * in the chat, the Markdown file the save button writes, and the line-based
 * parser the load button runs on such a file.
 *
 * The chat container is given as the sequence of its children, each reduced
 * to the text the save handler reads from it.
 */
module Transcript {
  import opened Text

  const TopicMarker := "# Debate Topic: "
  const RoleSeparator := "**: "
  const UntitledTopic := "Untitled"

  // ---------------------------------------------------------------------
  // Role names

  /** The six role names a transcript may carry: Korean and English. */
  predicate IsDisplayName(displayRole: string) {
    displayRole == "사회자" || displayRole == "Moderator"
    || displayRole == "찬성" || displayRole == "Proponent"
    || displayRole == "반대" || displayRole == "Opponent"
  }

  /** The internal role of a displayed role name; unknown names give "unknown". */
  function MapRoleToInternal(displayRole: string): (r: string)
    ensures r == "moderator" <==> displayRole == "사회자" || displayRole == "Moderator"
    ensures r == "proponent" <==> displayRole == "찬성" || displayRole == "Proponent"
    ensures r == "opponent" <==> displayRole == "반대" || displayRole == "Opponent"
    ensures r == "unknown" <==> !IsDisplayName(displayRole)
  {
    if displayRole == "사회자" || displayRole == "Moderator" then "moderator"
    else if displayRole == "찬성" || displayRole == "Proponent" then "proponent"
    else if displayRole == "반대" || displayRole == "Opponent" then "opponent"
    else "unknown"
  }

  /** The Korean name shown for an internal role; other roles are shown as they are. */
  function GetDisplayRole(role: string): (r: string)
    ensures role == "moderator" || role == "proponent" || role == "opponent" ==>
      IsDisplayName(r) && MapRoleToInternal(r) == role
    ensures !(role == "moderator" || role == "proponent" || role == "opponent") ==> r == role
  {
    if role == "moderator" then "사회자"
    else if role == "proponent" then "찬성"
    else if role == "opponent" then "반대"
    else role
  }

  /**
   * Mapping a role name in and back out gives the Korean name of the same
   * role: the Korean names come back unchanged, the English ones are
   * translated.
   */
  lemma DisplayRoleRoundTrip(displayRole: string)
    requires IsDisplayName(displayRole)
    ensures GetDisplayRole(MapRoleToInternal(displayRole)) == displayRole
      <==> displayRole == "사회자" || displayRole == "찬성" || displayRole == "반대"
  {
  }

  /** No role name holds a line terminator. */
  lemma DisplayNameOnOneLine(displayRole: string)
    requires IsDisplayName(displayRole)
    ensures forall k :: 0 <= k < |displayRole| ==> !JsLineTerminator(displayRole[k])
  {
  }

  // ---------------------------------------------------------------------
  // Matching a role line

  /** The two groups of a match of `^\*\*(.*)\*\*: (.*)`. */
  datatype RoleLine = RoleLine(role: string, firstLine: string)

  /**
   * `line.match(/^\*\*(.*)\*\*: (.*)/)`. No group may run over a line
   * terminator, so only the line head counts; the greedy first group ends
   * at the last "**: " that starts at index 2 or later, and the second
   * group is the rest of the line head.
   */
  function MatchRoleLine(line: string): (m: Option<RoleLine>)
    ensures m.Some? ==>
      LineHead(line) == "**" + m.value.role + RoleSeparator + m.value.firstLine
      && !Contains(m.value.firstLine, RoleSeparator)
    ensures m.None? ==>
      var h := LineHead(line);
      !(|h| >= 2 && h[..2] == "**") || forall j :: 2 <= j ==> !OccursAt(h, RoleSeparator, j)
  {
    var h := LineHead(line);
    if |h| >= 2 && h[..2] == "**" then
      var i := LastOccurrence(h, RoleSeparator, 2, |h| - 4);
      if i >= 2 then
        AfterLastAvoids(h, RoleSeparator, i + 4);
        assert h == h[..2] + h[2..i] + h[i..i + 4] + h[i + 4..];
        Some(RoleLine(h[2..i], h[i + 4..]))
      else None
    else None
  }

  /** Past the last occurrence of a pattern, the pattern no longer occurs. */
  lemma AfterLastAvoids(s: string, pat: string, i: nat)
    requires i <= |s| && forall j :: i <= j ==> !OccursAt(s, pat, j)
    ensures !Contains(s[i..], pat)
  {
    if Contains(s[i..], pat) {
      var t :| 0 <= t <= |s[i..]| - |pat| && OccursAt(s[i..], pat, t);
      SliceOfSlice(s, i, |s|, t, t + |pat|);
      assert OccursAt(s, pat, i + t);
    }
  }

  lemma SeparatorBorderFree()
    ensures BorderFree(RoleSeparator)
  {
    assert RoleSeparator[1..] != RoleSeparator[..3] by { assert RoleSeparator[1..][1] != RoleSeparator[..3][1]; }
    assert RoleSeparator[2..] != RoleSeparator[..2] by { assert RoleSeparator[2..][0] != RoleSeparator[..2][0]; }
    assert RoleSeparator[3..] != RoleSeparator[..1] by { assert RoleSeparator[3..][0] != RoleSeparator[..1][0]; }
  }

  /**
   * A line made of "**", a role, "**: " and a first line without "**: " and
   * without line terminators matches with exactly that role and first line,
   * whatever the role holds.
   */
  lemma MatchesRoleLine(role: string, first: string)
    requires forall k :: 0 <= k < |role| ==> !JsLineTerminator(role[k])
    requires forall k :: 0 <= k < |first| ==> !JsLineTerminator(first[k])
    requires !Contains(first, RoleSeparator)
    ensures MatchRoleLine("**" + role + RoleSeparator + first) == Some(RoleLine(role, first))
  {
    var a := "**" + role;
    var line := a + RoleSeparator + first;
    forall k | 0 <= k < |line| ensures !JsLineTerminator(line[k]) {
      if k < 2 {
        assert line[k] == '*';
      } else if k < |a| {
        assert line[k] == role[k - 2];
      } else if k < |a| + 4 {
        assert line[k] == RoleSeparator[k - |a|];
      } else {
        assert line[k] == first[k - |a| - 4];
      }
    }
    LineHeadWhole(line);
    SeparatorBorderFree();
    LastAfter(a, RoleSeparator, first);
    assert line[|a|..|a| + 4] == RoleSeparator;
    assert OccursAt(line, RoleSeparator, |a|);
    assert line[..2] == "**";
    var i := LastOccurrence(line, RoleSeparator, 2, |line| - 4);
    assert i == |a|;
    assert line[2..i] == role;
    assert line[i + 4..] == first;
  }

  /** A line without "**: " is not a role line. */
  lemma NoSeparatorNoMatch(line: string)
    requires !Contains(line, RoleSeparator)
    ensures MatchRoleLine(line).None?
  {
    var h := LineHead(line);
    SliceAvoids(line, RoleSeparator, 0, |h|);
    assert line[0..|h|] == h;
  }

  /** A line that does not start with '*' is not a role line. */
  lemma NoStarNoMatch(line: string)
    requires |line| == 0 || line[0] != '*'
    ensures MatchRoleLine(line).None?
  {
    var h := LineHead(line);
    if |h| >= 2 {
      assert h[0] == line[0];
    }
  }

  // ---------------------------------------------------------------------
  // Loading a transcript

  /** One message as `appendMessage(role, content)` receives it. */
  datatype Message = Message(role: string, content: string)

  /** The message being collected: its role and its lines so far. */
  datatype Pending = Pending(role: string, lines: seq<string>)

  /** The loop state of the parser: the messages appended, and the one being collected. */
  datatype ParserState = ParserState(messages: seq<Message>, current: Option<Pending>)

  const Start := ParserState([], None)

  /** A collected message: its lines joined by '\n' and trimmed. */
  function Flush(p: Pending): Message {
    Message(p.role, JsTrim(Join("\n", p.lines)))
  }

  /** The messages appended once the collected one, if any, is flushed. */
  function Finish(s: ParserState): seq<Message> {
    s.messages + (if s.current.Some? then [Flush(s.current.value)] else [])
  }

  /**
   * One line: a role line flushes the message being collected and starts a
   * new one; another line is added to the message being collected, or
   * ignored while there is none.
   */
  function ParseLine(s: ParserState, line: string): ParserState {
    match MatchRoleLine(line)
    case Some(m) => ParserState(Finish(s), Some(Pending(MapRoleToInternal(m.role), [m.firstLine])))
    case None =>
      if s.current.Some? then s.(current := Some(s.current.value.(lines := s.current.value.lines + [line])))
      else s
  }

  function ParseLines(s: ParserState, lines: seq<string>): ParserState {
    if |lines| == 0 then s else ParseLine(ParseLines(s, lines[..|lines| - 1]), lines[|lines| - 1])
  }

  /** The messages a transcript loads as. */
  function ParseTranscript(markdown: string): seq<Message> {
    Finish(ParseLines(Start, SplitOn(markdown, '\n')))
  }

  /** `markdown.match(/# Debate Topic: (.*)/)[1].trim()`, when there is a match. */
  function TopicOf(markdown: string): (r: Option<string>)
    ensures r.None? <==> !Contains(markdown, TopicMarker)
  {
    var i := Find(markdown, TopicMarker);
    if i < 0 then None else Some(JsTrim(LineHead(markdown[i + |TopicMarker|..])))
  }

  function StateOf(loaded: seq<Message>, currentRole: Option<string>, currentContent: seq<string>): ParserState {
    ParserState(loaded, if currentRole.Some? then Some(Pending(currentRole.value, currentContent)) else None)
  }

  /**
   * Loads a transcript: the topic, when the file names one, and the
   * messages in file order. Clearing the chat and rendering each message is
   * left to the caller.
   */
  method ParseAndLoadDebate(markdown: string) returns (topic: Option<string>, loaded: seq<Message>)
    ensures topic == TopicOf(markdown)
    ensures loaded == ParseTranscript(markdown)
  {
    var lines := SplitOn(markdown, '\n');
    var currentRole: Option<string> := None;
    var currentContent: seq<string> := [];
    loaded := [];
    topic := TopicOf(markdown);
    var i := 0;
    while i < |lines|
      invariant i <= |lines|
      invariant ParseLines(Start, lines[..i]) == StateOf(loaded, currentRole, currentContent)
    {
      assert lines[..i + 1][..i] == lines[..i];
      var m := MatchRoleLine(lines[i]);
      if m.Some? {
        if currentRole.Some? {
          loaded := loaded + [Message(currentRole.value, JsTrim(Join("\n", currentContent)))];
        }
        currentRole := Some(MapRoleToInternal(m.value.role));
        currentContent := [m.value.firstLine];
      } else if currentRole.Some? {
        currentContent := currentContent + [lines[i]];
      }
      i := i + 1;
    }
    assert lines[..i] == lines;
    if currentRole.Some? {
      loaded := loaded + [Message(currentRole.value, JsTrim(Join("\n", currentContent)))];
    }
  }

  lemma {:induction false} ParseLinesAppend(s: ParserState, xs: seq<string>, ys: seq<string>)
    ensures ParseLines(s, xs + ys) == ParseLines(ParseLines(s, xs), ys)
    decreases |ys|
  {
    if |ys| == 0 {
      assert xs + ys == xs;
    } else {
      var n := |ys| - 1;
      assert (xs + ys)[..|xs + ys| - 1] == xs + ys[..n];
      assert (xs + ys)[|xs + ys| - 1] == ys[n];
      ParseLinesAppend(s, xs, ys[..n]);
    }
  }

  /** The roles of a sequence of messages, in order. */
  function Roles(messages: seq<Message>): (r: seq<string>)
    ensures |r| == |messages|
  {
    if |messages| == 0 then [] else Roles(messages[..|messages| - 1]) + [messages[|messages| - 1].role]
  }

  /** The internal roles named by the role lines among `lines`, in order. */
  function RoleLineRoles(lines: seq<string>): seq<string> {
    if |lines| == 0 then []
    else
      var m := MatchRoleLine(lines[|lines| - 1]);
      RoleLineRoles(lines[..|lines| - 1]) + (if m.Some? then [MapRoleToInternal(m.value.role)] else [])
  }

  lemma RolesSnoc(messages: seq<Message>, m: Message)
    ensures Roles(messages + [m]) == Roles(messages) + [m.role]
  {
    assert (messages + [m])[..|messages|] == messages;
  }

  /**
   * Loading yields exactly one message per role line, in order, each with
   * the internal role of its line; lines before the first role line add
   * nothing.
   */
  lemma {:induction false} OneMessagePerRoleLine(lines: seq<string>)
    ensures Roles(Finish(ParseLines(Start, lines))) == RoleLineRoles(lines)
    ensures ParseLines(Start, lines).current.Some? <==> RoleLineRoles(lines) != []
  {
    if |lines| > 0 {
      var n := |lines| - 1;
      var s := ParseLines(Start, lines[..n]);
      OneMessagePerRoleLine(lines[..n]);
      var m := MatchRoleLine(lines[n]);
      if m.Some? {
        var p := Pending(MapRoleToInternal(m.value.role), [m.value.firstLine]);
        RolesSnoc(Finish(s), Flush(p));
      } else if s.current.Some? {
        var c := s.current.value;
        RolesSnoc(s.messages, Flush(c));
        RolesSnoc(s.messages, Flush(c.(lines := c.lines + [lines[n]])));
      }
    }
  }

  /** The number of messages loaded is the number of role lines. */
  lemma MessageCount(markdown: string)
    ensures |ParseTranscript(markdown)| == |RoleLineRoles(SplitOn(markdown, '\n'))|
  {
    OneMessagePerRoleLine(SplitOn(markdown, '\n'));
  }

  /** Lines that are not role lines leave a parser with no message being collected alone. */
  lemma {:induction false} IgnoredLines(lines: seq<string>)
    requires forall k :: 0 <= k < |lines| ==> MatchRoleLine(lines[k]).None?
    ensures ParseLines(Start, lines) == Start
  {
    if |lines| > 0 {
      IgnoredLines(lines[..|lines| - 1]);
    }
  }

  /** Lines that are not role lines add themselves to the message being collected. */
  lemma {:induction false} CollectedLines(s: ParserState, lines: seq<string>)
    requires s.current.Some?
    requires forall k :: 0 <= k < |lines| ==> MatchRoleLine(lines[k]).None?
    ensures ParseLines(s, lines) == s.(current := Some(s.current.value.(lines := s.current.value.lines + lines)))
  {
    if |lines| > 0 {
      var n := |lines| - 1;
      var c := s.current.value;
      CollectedLines(s, lines[..n]);
      var s' := ParseLines(s, lines[..n]);
      assert s' == s.(current := Some(c.(lines := c.lines + lines[..n])));
      assert MatchRoleLine(lines[n]).None?;
      assert ParseLines(s, lines) == ParseLine(s', lines[n]);
      assert c.lines + lines[..n] + [lines[n]] == c.lines + lines;
    } else {
      assert s.current.value.lines + lines == s.current.value.lines;
    }
  }

  /** Lines before the first role line are ignored. */
  lemma LeadingLinesIgnored(before: seq<string>, lines: seq<string>)
    requires forall k :: 0 <= k < |before| ==> MatchRoleLine(before[k]).None?
    ensures ParseLines(Start, before + lines) == ParseLines(Start, lines)
  {
    ParseLinesAppend(Start, before, lines);
    IgnoredLines(before);
  }

  // ---------------------------------------------------------------------
  // Saving a transcript

  /** A child of the chat container, reduced to what the save handler reads. */
  datatype Child =
    | MessageDiv(displayRole: string, text: string)
      // a rendered message: the text of its role element and the innerText of its content element
    | ThinkingIndicator
      // carries the `message` class but no role element
    | WelcomeMessage
    | SystemNote(note: string)

  /** A saved message: its displayed role and its text. */
  datatype Entry = Entry(displayRole: string, text: string)

  datatype SaveOutcome =
    | NothingToSave       // the alert, no file
    | SaveFailed          // a `message` child without a role element: the handler throws
    | Saved(markdown: string)

  function TopicText(topicValue: string): string {
    if topicValue == "" then UntitledTopic else topicValue
  }

  function HeaderLine(topicValue: string): string {
    TopicMarker + TopicText(topicValue)
  }

  /** A message's role line and following content lines, without the blank line after them. */
  function RoleLineText(e: Entry): string {
    "**" + e.displayRole + RoleSeparator + e.text
  }

  /** The transcript file for a topic field value and a sequence of messages. */
  function Serialize(topicValue: string, entries: seq<Entry>): (r: string)
    ensures |r| >= 2 && r[|r| - 1] == '\n'
  {
    if |entries| == 0 then HeaderLine(topicValue) + "\n\n"
    else Serialize(topicValue, entries[..|entries| - 1]) + RoleLineText(entries[|entries| - 1]) + "\n\n"
  }

  /** The messages of the chat container, in order. */
  function EntriesOf(children: seq<Child>): seq<Entry> {
    if |children| == 0 then []
    else
      var c := children[|children| - 1];
      EntriesOf(children[..|children| - 1]) + (if c.MessageDiv? then [Entry(c.displayRole, c.text)] else [])
  }

  predicate NothingToSaveIn(children: seq<Child>) {
    |children| == 0 || (|children| == 1 && children[0] == WelcomeMessage)
  }

  /**
   * The save button: nothing when the chat is empty or holds only the
   * welcome message; otherwise the header and one block per message, in
   * order. A thinking indicator in the chat makes the handler throw before
   * any file is written.
   */
  method SaveMarkdown(topicValue: string, children: seq<Child>) returns (r: SaveOutcome)
    ensures NothingToSaveIn(children) ==> r == NothingToSave
    ensures !NothingToSaveIn(children) && ThinkingIndicator in children ==> r == SaveFailed
    ensures !NothingToSaveIn(children) && ThinkingIndicator !in children ==>
      r == Saved(Serialize(topicValue, EntriesOf(children)))
  {
    if |children| == 0 || (|children| == 1 && children[0] == WelcomeMessage) {
      return NothingToSave;
    }
    var markdownContent := HeaderLine(topicValue) + "\n\n";
    var i := 0;
    while i < |children|
      invariant i <= |children|
      invariant ThinkingIndicator !in children[..i]
      invariant markdownContent == Serialize(topicValue, EntriesOf(children[..i]))
    {
      var child := children[i];
      if child.ThinkingIndicator? {
        return SaveFailed;
      }
      SaveStep(topicValue, children, i);
      if child.MessageDiv? {
        markdownContent := markdownContent + ("**" + child.displayRole + RoleSeparator + child.text) + "\n\n";
      }
      i := i + 1;
    }
    assert children[..i] == children;
    r := Saved(markdownContent);
  }

  /** One more child adds its block to the file when it is a message, and nothing otherwise. */
  lemma SaveStep(topicValue: string, children: seq<Child>, i: nat)
    requires i < |children| && !children[i].ThinkingIndicator?
    ensures ThinkingIndicator !in children[..i] ==> ThinkingIndicator !in children[..i + 1]
    ensures var c := children[i]; c.MessageDiv? ==>
      Serialize(topicValue, EntriesOf(children[..i + 1]))
      == Serialize(topicValue, EntriesOf(children[..i])) + ("**" + c.displayRole + RoleSeparator + c.text) + "\n\n"
    ensures !children[i].MessageDiv? ==>
      Serialize(topicValue, EntriesOf(children[..i + 1])) == Serialize(topicValue, EntriesOf(children[..i]))
  {
    var c := children[i];
    var saved := EntriesOf(children[..i]);
    assert children[..i + 1] == children[..i] + [c];
    assert children[..i + 1][..i] == children[..i];
    if c.MessageDiv? {
      var e := Entry(c.displayRole, c.text);
      assert EntriesOf(children[..i + 1]) == saved + [e];
      assert (saved + [e])[..|saved|] == saved;
    } else {
      assert EntriesOf(children[..i + 1]) == saved;
    }
  }

  // ---------------------------------------------------------------------
  // Saving then loading

  /**
   * A message that survives a save and a load: a role name, text that is
   * already trimmed, has no line break other than '\n' and no "**: ".
   */
  predicate Saveable(e: Entry) {
    IsDisplayName(e.displayRole)
    && JsTrim(e.text) == e.text
    && (forall k :: 0 <= k < |e.text| ==> e.text[k] == '\n' || !JsLineTerminator(e.text[k]))
    && !Contains(e.text, RoleSeparator)
  }

  /** What a load gives back for saved messages. */
  function Loaded(entries: seq<Entry>): seq<Message> {
    if |entries| == 0 then []
    else
      var e := entries[|entries| - 1];
      Loaded(entries[..|entries| - 1]) + [Message(MapRoleToInternal(e.displayRole), e.text)]
  }

  /** The lines of the saved messages, each followed by its blank line. */
  function BlockLines(entries: seq<Entry>): seq<string> {
    if |entries| == 0 then []
    else BlockLines(entries[..|entries| - 1]) + SplitOn(RoleLineText(entries[|entries| - 1]), '\n') + [""]
  }

  lemma ConsSnoc<T>(a: T, b: seq<T>, x: T)
    ensures ([a] + b) + [x] == [a] + (b + [x])
  {
  }

  lemma HeadTailSnoc<T>(r: seq<T>, x: T)
    requires |r| > 0
    ensures [r[0]] + (r[1..] + [x]) == r + [x]
  {
    assert r == [r[0]] + r[1..];
  }

  lemma Regroup<T>(p: seq<T>, b: seq<T>, t: seq<T>, e: T)
    ensures (p + b) + (t + [e, e]) == p + (b + t + [e]) + [e]
  {
    assert [e, e] == [e] + [e];
  }

  lemma SnocCancel<T>(p: seq<T>, q: seq<T>, z: T)
    requires p + [z] == q + [z]
    ensures p == q
  {
    assert p == (p + [z])[..|p|];
  }

  /** A final line break adds a final empty line. */
  lemma SplitOnBreak(y: string)
    ensures SplitOn(y + "\n", '\n') == SplitOn(y, '\n') + [""]
  {
    assert y + "\n" == y + ['\n'] + "";
    SplitAtSeparator(y, '\n', "");
  }

  /** Two final line breaks add two final empty lines. */
  lemma SplitOnTwoBreaks(y: string)
    ensures SplitOn(y + "\n\n", '\n') == SplitOn(y, '\n') + ["", ""]
  {
    SplitOnBreak(y);
    SplitOnBreak(y + "\n");
    assert y + "\n\n" == (y + "\n") + "\n";
  }

  /** The lines of a saved file: the header, a blank line, the messages and a final empty line. */
  lemma {:induction false} SerializedLines(topicValue: string, entries: seq<Entry>)
    requires '\n' !in TopicText(topicValue)
    ensures SplitOn(Serialize(topicValue, entries), '\n') == [HeaderLine(topicValue), ""] + BlockLines(entries) + [""]
  {
    if |entries| == 0 {
      SerializedHeader(topicValue);
    } else {
      var n := |entries| - 1;
      SerializedLines(topicValue, entries[..n]);
      SerializedBlockLines(topicValue, entries);
    }
  }

  /** A file without messages is the header, a blank line and a final empty line. */
  lemma SerializedHeader(topicValue: string)
    requires '\n' !in TopicText(topicValue)
    ensures SplitOn(Serialize(topicValue, []), '\n') == [HeaderLine(topicValue), ""] + BlockLines([]) + [""]
  {
    var h := HeaderLine(topicValue);
    assert '\n' !in TopicMarker;
    assert SplitOn(h, '\n') == [h];
    SplitOnTwoBreaks(h);
  }

  /** One more message adds its lines and a blank line before the final empty line. */
  lemma SerializedBlockLines(topicValue: string, entries: seq<Entry>)
    requires |entries| > 0
    requires var prefix := entries[..|entries| - 1];
      SplitOn(Serialize(topicValue, prefix), '\n') == [HeaderLine(topicValue), ""] + BlockLines(prefix) + [""]
    ensures SplitOn(Serialize(topicValue, entries), '\n') == [HeaderLine(topicValue), ""] + BlockLines(entries) + [""]
  {
    var prefix := entries[..|entries| - 1];
    var x := Serialize(topicValue, prefix);
    var r := RoleLineText(entries[|entries| - 1]);
    var x' := x[..|x| - 1];
    var a := [HeaderLine(topicValue), ""] + BlockLines(prefix);
    assert x == x' + "\n";
    SplitOnBreak(x');
    SnocCancel(SplitOn(x', '\n'), a, "");
    SplitOnTwoBreaks(r);
    assert Serialize(topicValue, entries) == x' + ['\n'] + (r + "\n\n");
    SplitAtSeparator(x', '\n', r + "\n\n");
    assert BlockLines(entries) == BlockLines(prefix) + SplitOn(r, '\n') + [""];
    Regroup([HeaderLine(topicValue), ""], BlockLines(prefix), SplitOn(r, '\n'), "");
  }

  /** Joining a text's lines plus an empty one adds one '\n'. */
  lemma JoinWithBlank(text: string)
    ensures Join("\n", SplitOn(text, '\n') + [""]) == text + "\n"
  {
    JoinSplitOn(text, '\n');
    JoinSnoc("\n", SplitOn(text, '\n'), "");
  }

  /** A saved message's collected lines flush back to its text. */
  lemma FlushSaved(role: string, text: string)
    requires JsTrim(text) == text
    ensures Flush(Pending(role, SplitOn(text, '\n') + [""])) == Message(role, text)
  {
    JoinWithBlank(text);
    TrimAppendWhitespace(text, JsSpace, '\n');
  }

  /** The same with the extra empty line that ends every saved file. */
  lemma FlushSavedLast(role: string, text: string)
    requires JsTrim(text) == text
    ensures Flush(Pending(role, SplitOn(text, '\n') + [""] + [""])) == Message(role, text)
  {
    var lines := SplitOn(text, '\n') + [""];
    JoinWithBlank(text);
    JoinSnoc("\n", lines, "");
    assert Join("\n", lines + [""]) == (text + "\n") + ['\n'];
    TrimAppendWhitespace(text + "\n", JsSpace, '\n');
    TrimAppendWhitespace(text, JsSpace, '\n');
  }

  /**
   * The first line of a saved message is a role line naming its role; the
   * remaining lines are its text's further lines.
   */
  lemma SavedRoleLine(e: Entry) returns (first: string)
    requires Saveable(e)
    ensures var r := SplitOn(e.text, '\n');
      SplitOn(RoleLineText(e), '\n') == [first] + r[1..]
      && MatchRoleLine(first) == Some(RoleLine(e.displayRole, r[0]))
  {
    var p := "**" + e.displayRole + RoleSeparator;
    var r := SplitOn(e.text, '\n');
    DisplayNameOnOneLine(e.displayRole);
    assert '\n' !in p by {
      assert forall k :: 0 <= k < |p| ==> !JsLineTerminator(p[k]);
    }
    SplitAfterPrefix(p, '\n', e.text);
    assert RoleLineText(e) == p + e.text;
    SplitOnHead(e.text, '\n');
    SliceAvoids(e.text, RoleSeparator, 0, |r[0]|);
    assert e.text[0..|r[0]|] == r[0];
    assert forall k :: 0 <= k < |r[0]| ==> r[0][k] == e.text[k];
    MatchesRoleLine(e.displayRole, r[0]);
    first := p + r[0];
  }

  /** The further lines of a saved message, and the blank line after it, are not role lines. */
  lemma SavedContinuationLines(text: string)
    requires !Contains(text, RoleSeparator)
    ensures var rest := SplitOn(text, '\n')[1..] + [""];
      forall k :: 0 <= k < |rest| ==> MatchRoleLine(rest[k]).None?
  {
    var r := SplitOn(text, '\n');
    var rest := r[1..] + [""];
    SplitOnPiecesAvoid(text, '\n', RoleSeparator);
    forall k | 0 <= k < |rest| ensures MatchRoleLine(rest[k]).None? {
      if k < |r| - 1 {
        assert rest[k] == r[k + 1];
        NoSeparatorNoMatch(rest[k]);
      } else {
        NoStarNoMatch(rest[k]);
      }
    }
  }

  /**
   * The lines of one saved message, read in any state: they flush the
   * message being collected and leave this one collected, with a trailing
   * empty line.
   */
  lemma BlockStep(s: ParserState, e: Entry)
    requires Saveable(e)
    ensures ParseLines(s, SplitOn(RoleLineText(e), '\n') + [""])
      == ParserState(Finish(s), Some(Pending(MapRoleToInternal(e.displayRole), SplitOn(e.text, '\n') + [""])))
  {
    var r := SplitOn(e.text, '\n');
    var first := SavedRoleLine(e);
    var s1 := ParserState(Finish(s), Some(Pending(MapRoleToInternal(e.displayRole), [r[0]])));
    var rest := r[1..] + [""];
    calc {
      ParseLines(s, SplitOn(RoleLineText(e), '\n') + [""]);
      { ConsSnoc(first, r[1..], ""); }
      ParseLines(s, [first] + rest);
      { FirstLineThenRest(s, first, RoleLine(e.displayRole, r[0]), rest); }
      ParseLines(s1, rest);
      { SavedContinuationLines(e.text); CollectedLines(s1, rest); HeadTailSnoc(r, ""); }
      ParserState(Finish(s), Some(Pending(MapRoleToInternal(e.displayRole), r + [""])));
    }
  }

  /** After a role line, the lines that follow are read in the state it starts. */
  lemma FirstLineThenRest(s: ParserState, line: string, m: RoleLine, rest: seq<string>)
    requires MatchRoleLine(line) == Some(m)
    ensures ParseLines(s, [line] + rest)
      == ParseLines(ParserState(Finish(s), Some(Pending(MapRoleToInternal(m.role), [m.firstLine]))), rest)
  {
    ParseLinesAppend(s, [line], rest);
    FirstLineParse(s, line, m);
  }

  /** A single role line flushes the collected message and starts a new one. */
  lemma FirstLineParse(s: ParserState, line: string, m: RoleLine)
    requires MatchRoleLine(line) == Some(m)
    ensures ParseLines(s, [line]) == ParserState(Finish(s), Some(Pending(MapRoleToInternal(m.role), [m.firstLine])))
  {
    assert [line][..0] == [];
  }

  /** The parser state after the lines of saved messages. */
  function StateAfter(entries: seq<Entry>): ParserState {
    if |entries| == 0 then Start
    else
      var e := entries[|entries| - 1];
      ParserState(Loaded(entries[..|entries| - 1]),
        Some(Pending(MapRoleToInternal(e.displayRole), SplitOn(e.text, '\n') + [""])))
  }

  lemma FinishStateAfter(entries: seq<Entry>)
    requires forall k :: 0 <= k < |entries| ==> Saveable(entries[k])
    ensures Finish(StateAfter(entries)) == Loaded(entries)
  {
    if |entries| > 0 {
      var e := entries[|entries| - 1];
      FlushSaved(MapRoleToInternal(e.displayRole), e.text);
    }
  }

  lemma {:induction false} BlocksParse(entries: seq<Entry>)
    requires forall k :: 0 <= k < |entries| ==> Saveable(entries[k])
    ensures ParseLines(Start, BlockLines(entries)) == StateAfter(entries)
  {
    if |entries| > 0 {
      var n := |entries| - 1;
      BlocksParse(entries[..n]);
      FinishStateAfter(entries[..n]);
      BlockAfterBlocks(entries);
    }
  }

  /** One more saved message on top of the ones already read. */
  lemma BlockAfterBlocks(entries: seq<Entry>)
    requires |entries| > 0 && Saveable(entries[|entries| - 1])
    requires var prefix := entries[..|entries| - 1];
      ParseLines(Start, BlockLines(prefix)) == StateAfter(prefix) && Finish(StateAfter(prefix)) == Loaded(prefix)
    ensures ParseLines(Start, BlockLines(entries)) == StateAfter(entries)
  {
    var prefix := entries[..|entries| - 1];
    var e := entries[|entries| - 1];
    var lines := SplitOn(RoleLineText(e), '\n') + [""];
    assert BlockLines(entries) == BlockLines(prefix) + lines;
    ParseLinesAppend(Start, BlockLines(prefix), lines);
    BlockStep(StateAfter(prefix), e);
  }

  /** The topic comes back trimmed from the header line. */
  lemma TopicRoundTrip(topicValue: string, entries: seq<Entry>)
    requires forall k :: 0 <= k < |TopicText(topicValue)| ==> !JsLineTerminator(TopicText(topicValue)[k])
    ensures TopicOf(Serialize(topicValue, entries)) == Some(JsTrim(TopicText(topicValue)))
  {
    HeaderPrefix(topicValue, entries);
    TopicAtStart(Serialize(topicValue, entries), TopicText(topicValue));
  }

  /** A text that starts with the topic marker, a one-line topic and a line break names that topic. */
  lemma TopicAtStart(s: string, t: string)
    requires forall k :: 0 <= k < |t| ==> !JsLineTerminator(t[k])
    requires |s| > |TopicMarker| + |t| && s[..|TopicMarker| + |t| + 1] == TopicMarker + t + "\n"
    ensures TopicOf(s) == Some(JsTrim(t))
  {
    var m := |TopicMarker|;
    var rest := s[m..];
    assert s[..m] == (TopicMarker + t + "\n")[..m];
    assert OccursAt(s, TopicMarker, 0);
    assert rest[..|t|] == t by {
      SliceOfSlice(s, 0, m + |t| + 1, m, m + |t|);
    }
    assert rest[|t|] == s[m + |t|] == '\n';
    LineHeadStops(rest, |t|);
  }

  /** Every saved file starts with its header line and a line break. */
  lemma {:induction false} HeaderPrefix(topicValue: string, entries: seq<Entry>)
    ensures var h := HeaderLine(topicValue);
      |Serialize(topicValue, entries)| > |h| && Serialize(topicValue, entries)[..|h| + 1] == h + "\n"
  {
    if |entries| > 0 {
      HeaderPrefix(topicValue, entries[..|entries| - 1]);
    }
  }

  /** The line head of a text whose first `n` characters are not terminators but the next is. */
  lemma LineHeadStops(s: string, n: nat)
    requires n < |s| && JsLineTerminator(s[n])
    requires forall k :: 0 <= k < n ==> !JsLineTerminator(s[k])
    ensures LineHead(s) == s[..n]
  {
  }

  /** Loading a saved file gives back its messages, roles mapped to internal names. */
  lemma MessagesRoundTrip(topicValue: string, entries: seq<Entry>)
    requires '\n' !in TopicText(topicValue)
    requires forall k :: 0 <= k < |entries| ==> Saveable(entries[k])
    ensures ParseTranscript(Serialize(topicValue, entries)) == Loaded(entries)
  {
    var h := HeaderLine(topicValue);
    var blocks := BlockLines(entries);
    calc {
      ParseTranscript(Serialize(topicValue, entries));
      { SerializedLines(topicValue, entries); }
      Finish(ParseLines(Start, [h, ""] + blocks + [""]));
      { assert [h, ""] + blocks + [""] == [h, ""] + (blocks + [""]);
        assert h[0] == TopicMarker[0];
        HeaderIgnored(h, blocks + [""]); }
      Finish(ParseLines(Start, blocks + [""]));
      { ParseLinesAppend(Start, blocks, [""]); BlocksParse(entries); }
      Finish(ParseLines(StateAfter(entries), [""]));
      { FinalEmptyLine(entries); }
      Loaded(entries);
    }
  }

  /** The header line and the blank line after it start no message. */
  lemma HeaderIgnored(h: string, lines: seq<string>)
    requires |h| > 0 && h[0] == '#'
    ensures ParseLines(Start, [h, ""] + lines) == ParseLines(Start, lines)
  {
    NoStarNoMatch(h);
    NoStarNoMatch("");
    LeadingLinesIgnored([h, ""], lines);
  }

  /** The empty line that ends a saved file changes nothing once flushed. */
  lemma FinalEmptyLine(entries: seq<Entry>)
    requires forall k :: 0 <= k < |entries| ==> Saveable(entries[k])
    ensures Finish(ParseLines(StateAfter(entries), [""])) == Loaded(entries)
  {
    var s := StateAfter(entries);
    NoStarNoMatch("");
    assert ParseLines(s, [""]) == ParseLine(s, "") by {
      assert [""][..0] == [];
    }
    if |entries| > 0 {
      var e := entries[|entries| - 1];
      FlushSavedLast(MapRoleToInternal(e.displayRole), e.text);
    }
  }

  /**
   * Saving messages and loading the file gives the same topic, trimmed, and
   * the same messages with their roles mapped to internal names.
   */
  lemma SaveLoadRoundTrip(topicValue: string, entries: seq<Entry>)
    requires forall k :: 0 <= k < |TopicText(topicValue)| ==> !JsLineTerminator(TopicText(topicValue)[k])
    requires forall k :: 0 <= k < |entries| ==> Saveable(entries[k])
    ensures TopicOf(Serialize(topicValue, entries)) == Some(JsTrim(TopicText(topicValue)))
    ensures ParseTranscript(Serialize(topicValue, entries)) == Loaded(entries)
  {
    TopicRoundTrip(topicValue, entries);
    assert '\n' !in TopicText(topicValue) by {
      assert JsLineTerminator('\n');
    }
    MessagesRoundTrip(topicValue, entries);
  }
}
