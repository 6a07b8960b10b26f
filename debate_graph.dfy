/**
 * The debate orchestrator of debate_graph.py: a moderator node and two debater
 * nodes over one shared dialogue state, the moderator's decision parser, the
 * routing table of the graph, and the retrying backend call.
 *
 * The text-generation backend is a parameter: for each prompt and attempt
 * number it yields the chunks that attempt streams and, possibly, the
 * exception that ends it.
 */
module DebateGraph {
  import opened Text

  /** Once the history holds this many lines the moderator closes the debate. */
  const MaxTurns: nat := 100
  /** A parsed `stop` is overridden while the history holds fewer lines than this. */
  const MinHistoryForStop: nat := 6
  /** Without a decision line, `stop` in the text only counts past this many lines. */
  const FallbackStopAfter: nat := 10
  /** Attempts the retry policy allows for one backend call. */
  const MaxAttempts: nat := 10

  const ModeratorTag := "사회자:"
  const ThinkClose := "</think>"
  const DecisionMarker := "Decision:"
  const ClosingRemark := "토론이 최대 턴 수에 도달하여 종료합니다. 모두 수고하셨습니다."
  const FloorNote := "\n(아직 토론이 충분하지 않아 계속 진행합니다.)"
  /** The stance names the two debater nodes are built with. */
  const ProponentName := "찬성"
  const OpponentName := "반대"

  datatype Decision = Continue | Instruction | Stop

  /** What the moderator commits: its decision and the text of its history line. */
  datatype ModeratorReply = ModeratorReply(decision: Decision, text: string)

  /** The history line of a moderator utterance. */
  function ModeratorLine(text: string): string {
    ModeratorTag + " " + text
  }

  /** The history line of a debater utterance. */
  function DebaterLine(name: string, text: string): string {
    name + ": " + text
  }

  // ---------------------------------------------------------------------
  // Reasoning blocks

  /**
   * What the moderator keeps of a reply: the stripped text after the first
   * `</think>` when there is one, otherwise the reply exactly as received.
   */
  function ModeratorVisible(content: string): string {
    if Contains(content, ThinkClose) then PyStrip(content[Find(content, ThinkClose) + 8..]) else content
  }

  /** What a debater keeps of a reply: the same cut, stripped in both cases. */
  function DebaterVisible(content: string): string {
    if Contains(content, ThinkClose) then PyStrip(content[Find(content, ThinkClose) + 8..]) else PyStrip(content)
  }

  /**
   * A reply made of a reasoning block, `</think>` and an answer is reduced to
   * the stripped answer by both nodes, whatever the answer contains.
   */
  lemma ReasoningDropped(reasoning: string, answer: string)
    requires !Contains(reasoning, ThinkClose)
    ensures ModeratorVisible(reasoning + ThinkClose + answer) == PyStrip(answer)
    ensures DebaterVisible(reasoning + ThinkClose + answer) == PyStrip(answer)
  {
    var content := reasoning + ThinkClose + answer;
    assert OccursAt(content, ThinkClose, |reasoning|) by {
      assert content[|reasoning|..|reasoning| + 8] == ThinkClose;
    }
    FindAfterPrefix(reasoning, ThinkClose, answer);
    assert content[|reasoning| + 8..] == answer;
  }

  // ---------------------------------------------------------------------
  // The moderator's decision parser

  /** The decision a control line names, from its lower-cased text after the marker. */
  function DecisionOf(part: string): Decision {
    if Contains(part, "stop") then Stop
    else if Contains(part, "instruction") then Instruction
    else Continue
  }

  /** The lines of the stripped visible reply, split on `\n`. */
  function ReplyLines(content: string): (lines: seq<string>)
    ensures |lines| >= 1
  {
    SplitOn(PyStrip(ModeratorVisible(content)), '\n')
  }

  /** The reply's last line, stripped. */
  function ControlLine(content: string): string {
    var lines := ReplyLines(content);
    PyStrip(lines[|lines| - 1])
  }

  /** The reply ends with a `Decision:` control line. */
  predicate HasDecisionLine(content: string) {
    Contains(ControlLine(content), DecisionMarker)
  }

  /** The decision a control line carries: the word between the first and any second marker. */
  function ControlDecision(line: string): Decision
    requires Contains(line, DecisionMarker)
  {
    DecisionOf(AsciiLower(PyStrip(Split(line, DecisionMarker)[1])))
  }

  /** The committed text when a control line is present: every line but the last, stripped. */
  function BodyText(lines: seq<string>): string
    requires |lines| >= 1
  {
    PyStrip(Join("\n", lines[..|lines| - 1]))
  }

  /** The decision when no control line is present. */
  function FallbackDecision(visible: string, historyLen: nat): Decision {
    if Contains(AsciiLower(visible), "stop") && historyLen > FallbackStopAfter then Stop
    else if historyLen == 0 then Instruction
    else Continue
  }

  /** The reply as parsed, before the minimum-history floor is applied. */
  function ParseReply(content: string, historyLen: nat): ModeratorReply {
    if HasDecisionLine(content) then
      ModeratorReply(ControlDecision(ControlLine(content)), BodyText(ReplyLines(content)))
    else
      ModeratorReply(FallbackDecision(ModeratorVisible(content), historyLen), ModeratorVisible(content))
  }

  /** The minimum-history floor: an early `stop` becomes `continue`, with a note. */
  function ApplyFloor(reply: ModeratorReply, historyLen: nat): (r: ModeratorReply)
    ensures historyLen < MinHistoryForStop ==> r.decision != Stop
    ensures r.decision == Stop ==> reply.decision == Stop
    ensures reply.decision == Stop && historyLen < MinHistoryForStop ==>
      r == ModeratorReply(Continue, reply.text + FloorNote)
    ensures reply.decision != Stop || historyLen >= MinHistoryForStop ==> r == reply
  {
    if reply.decision == Stop && historyLen < MinHistoryForStop then
      ModeratorReply(Continue, reply.text + FloorNote)
    else reply
  }

  /** What the moderator makes of a backend reply when the history has `historyLen` lines. */
  function ParseModerator(content: string, historyLen: nat): ModeratorReply {
    ApplyFloor(ParseReply(content, historyLen), historyLen)
  }

  /**
   * The decision rules: `stop` never before the minimum history; without a
   * control line, `stop` exactly when the lower-cased reply mentions it past
   * the fallback threshold, and an opening reply asks for an instruction.
   */
  lemma DecisionRules(content: string, historyLen: nat)
    ensures var r := ParseModerator(content, historyLen);
      (r.decision == Stop ==> historyLen >= MinHistoryForStop)
      && (!HasDecisionLine(content) ==>
            (r.decision == Stop <==>
               Contains(AsciiLower(ModeratorVisible(content)), "stop") && historyLen > FallbackStopAfter))
      && (!HasDecisionLine(content) && historyLen == 0 ==>
            r == ModeratorReply(Instruction, ModeratorVisible(content)))
      && (!HasDecisionLine(content) && historyLen >= MinHistoryForStop ==>
            r.text == ModeratorVisible(content))
  {
  }

  /**
   * With a control line, what is committed is the stripped text BEFORE the
   * last line: the stripped visible reply is `body`, a newline and that last
   * line (or the last line alone), and the committed text is `body` stripped.
   */
  lemma DecisionLineNotCommitted(content: string) returns (body: string, lastLine: string)
    requires HasDecisionLine(content)
    ensures var u := PyStrip(ModeratorVisible(content));
      (u == body + "\n" + lastLine || (body == "" && u == lastLine))
      && '\n' !in lastLine
      && ControlLine(content) == PyStrip(lastLine)
      && BodyText(ReplyLines(content)) == PyStrip(body)
  {
    body, lastLine := SplitLastPiece(PyStrip(ModeratorVisible(content)), '\n');
  }

  /** The decision word the prompts ask for. */
  function DecisionWord(d: Decision): string {
    match d
    case Continue => "continue"
    case Instruction => "instruction"
    case Stop => "stop"
  }

  /** Each requested decision word names its decision. */
  lemma DecisionWordNames(d: Decision)
    ensures DecisionOf(DecisionWord(d)) == d
  {
    var w := DecisionWord(d);
    if d == Stop {
      assert OccursAt(w, "stop", 0);
    } else if d == Instruction {
      MissingCharAvoids(w, "stop", 3);
      assert OccursAt(w, "instruction", 0);
    } else {
      MissingCharAvoids(w, "stop", 3);
      MissingCharAvoids(w, "instruction", 2);
    }
  }

  /** The decision words are lower-case letters. */
  lemma DecisionWordLetters(d: Decision)
    ensures var w := DecisionWord(d);
      w != [] && forall k :: 0 <= k < |w| ==> 'a' <= w[k] <= 'z'
  {
  }

  /** The control line the prompts ask for. */
  function RequestedControlLine(d: Decision): string {
    DecisionMarker + [' '] + DecisionWord(d)
  }

  /** The requested control line is one stripped line without `>`. */
  lemma RequestedControlLineShape(d: Decision)
    ensures var line := RequestedControlLine(d);
      line != [] && '\n' !in line && '>' !in line && PyStrip(line) == line
  {
    var w := DecisionWord(d);
    var line := RequestedControlLine(d);
    DecisionWordLetters(d);
    assert line == "Decision: " + w;
    assert line[|line| - 1] == w[|w| - 1];
    PyStripFixpoint(line);
    LettersAfter("Decision: ", w);
  }

  /** Text free of '\n' and '>' followed by lower-case letters stays free of them. */
  lemma LettersAfter(prefix: string, w: string)
    requires '\n' !in prefix && '>' !in prefix
    requires forall k :: 0 <= k < |w| ==> 'a' <= w[k] <= 'z'
    ensures '\n' !in prefix + w && '>' !in prefix + w
  {
    forall k | 0 <= k < |prefix + w|
      ensures (prefix + w)[k] != '\n' && (prefix + w)[k] != '>'
    {
      if k >= |prefix| {
        assert (prefix + w)[k] == w[k - |prefix|];
      }
    }
  }

  lemma LetterNotSpace(c: char)
    requires 'a' <= c <= 'z'
    ensures !PyWhitespace(c) && !('A' <= c <= 'Z')
  {
  }

  /** A space then a lower-case word strips and lower-cases back to the word. */
  lemma SpacedLetters(w: string)
    requires w != [] && forall k :: 0 <= k < |w| ==> 'a' <= w[k] <= 'z'
    ensures AsciiLower(PyStrip([' '] + w)) == w
  {
    LetterNotSpace(w[0]);
    LetterNotSpace(w[|w| - 1]);
    PyStripSpace(w);
    PyStripFixpoint(w);
    AsciiLowerFixpoint(w);
  }

  /** A space then a decision word reads back as the word. */
  lemma SpacedWordReads(d: Decision)
    ensures AsciiLower(PyStrip([' '] + DecisionWord(d))) == DecisionWord(d)
  {
    DecisionWordLetters(d);
    SpacedLetters(DecisionWord(d));
  }

  /** The requested control line carries its decision. */
  lemma RequestedControlLineReads(d: Decision)
    ensures Contains(RequestedControlLine(d), DecisionMarker)
    ensures ControlDecision(RequestedControlLine(d)) == d
  {
    var rest := [' '] + DecisionWord(d);
    assert RequestedControlLine(d) == DecisionMarker + rest;
    MissingCharAvoids(rest, DecisionMarker, 0);
    SplitLeading(DecisionMarker, rest);
    SpacedWordReads(d);
    DecisionWordNames(d);
  }

  /** Without `</think>` in the utterance and `>` in the last line, the reply is kept whole. */
  lemma NoReasoningKept(text: string, line: string)
    requires !Contains(text, ThinkClose) && '>' !in line
    ensures ModeratorVisible(text + "\n" + line) == text + "\n" + line
  {
    assert text + "\n" + line == text + ("\n" + line);
    AppendAvoids(text, "\n" + line, ThinkClose);
  }

  /** A reply that starts and ends with non-whitespace is its own strip. */
  lemma JoinedStripped(text: string, line: string)
    requires text != [] && !PyWhitespace(text[0])
    requires line != [] && !PyWhitespace(line[|line| - 1])
    ensures PyStrip(text + "\n" + line) == text + "\n" + line
  {
    var content := text + "\n" + line;
    assert content[0] == text[0];
    assert content[|content| - 1] == line[|line| - 1];
    PyStripFixpoint(content);
  }

  /** A last line without a newline adds exactly one line. */
  lemma LastLineAdded(text: string, line: string)
    requires '\n' !in line
    ensures SplitOn(text + "\n" + line, '\n') == SplitOn(text, '\n') + [line]
  {
    assert text + "\n" + line == text + ['\n'] + line;
    SplitAtSeparator(text, '\n', line);
  }

  /** The lines before an appended last line re-join, stripped, to a stripped text. */
  lemma BodyOfLines(text: string, line: string)
    requires text == [] || (!PyWhitespace(text[0]) && !PyWhitespace(text[|text| - 1]))
    ensures BodyText(SplitOn(text, '\n') + [line]) == text
  {
    var lines := SplitOn(text, '\n') + [line];
    assert lines[..|lines| - 1] == SplitOn(text, '\n');
    JoinSplitOn(text, '\n');
    PyStripFixpoint(text);
  }

  /** The lines of a reply in the requested shape. */
  lemma RequestedReplyLines(text: string, d: Decision)
    requires text != [] && !PyWhitespace(text[0]) && !PyWhitespace(text[|text| - 1])
    requires !Contains(text, ThinkClose)
    ensures var content := text + "\n" + RequestedControlLine(d);
      ReplyLines(content) == SplitOn(text, '\n') + [RequestedControlLine(d)]
  {
    var line := RequestedControlLine(d);
    RequestedControlLineShape(d);
    NoReasoningKept(text, line);
    JoinedStripped(text, line);
    LastLineAdded(text, line);
  }

  /**
   * A reply in the shape the prompts ask for — the utterance, a newline, and
   * `Decision: <word>` — is read back as that utterance and that decision
   * (then subject to the minimum-history floor).
   */
  lemma RequestedFormatParses(text: string, d: Decision, historyLen: nat)
    requires text != [] && !PyWhitespace(text[0]) && !PyWhitespace(text[|text| - 1])
    requires !Contains(text, ThinkClose)
    ensures ParseModerator(text + "\n" + RequestedControlLine(d), historyLen)
         == ApplyFloor(ModeratorReply(d, text), historyLen)
  {
    var line := RequestedControlLine(d);
    var content := text + "\n" + line;
    RequestedControlLineShape(d);
    RequestedReplyLines(text, d);
    assert ControlLine(content) == line;
    RequestedControlLineReads(d);
    BodyOfLines(text, line);
  }

  // ---------------------------------------------------------------------
  // The debaters' view of the moderator's latest instruction

  /**
   * The instruction carried by a history line holding the moderator tag: the
   * stripped text between the first and any second tag, cut before a
   * `Decision:` marker.
   */
  function InstructionOf(line: string): (r: string)
    requires Contains(line, ModeratorTag)
    ensures !Contains(r, DecisionMarker)
    ensures r == [] || (!PyWhitespace(r[0]) && !PyWhitespace(r[|r| - 1]))
  {
    var content := PyStrip(Split(line, ModeratorTag)[1]);
    if Contains(content, DecisionMarker) then
      var before := Split(content, DecisionMarker)[0];
      BeforeFirstAvoids(content, DecisionMarker);
      TrimAvoids(before, PySpace, DecisionMarker);
      PyStrip(before)
    else content
  }

  /**
   * The instruction of the newest history line holding the moderator tag;
   * empty when no line holds it.
   */
  function GetLastInstructions(history: seq<string>): (r: string)
    ensures !Contains(r, DecisionMarker)
  {
    if |history| == 0 then ""
    else if Contains(history[|history| - 1], ModeratorTag) then InstructionOf(history[|history| - 1])
    else GetLastInstructions(history[..|history| - 1])
  }

  /** The instruction comes from the newest tagged line, however old it is. */
  lemma NewestTaggedLineWins(history: seq<string>, k: nat)
    requires k < |history| && Contains(history[k], ModeratorTag)
    requires forall j :: k < j < |history| ==> !Contains(history[j], ModeratorTag)
    ensures GetLastInstructions(history) == InstructionOf(history[k])
  {
    UntaggedLinesSkipped(history, k);
    TaggedLineLast(history, k);
  }

  /** Cut after a tagged line, the history gives that line's instruction. */
  lemma TaggedLineLast(history: seq<string>, k: nat)
    requires k < |history| && Contains(history[k], ModeratorTag)
    ensures GetLastInstructions(history[..k + 1]) == InstructionOf(history[k])
  {
    var front := history[..k + 1];
    assert front[k] == history[k];
  }

  /** Lines newer than line `k` that lack the tag are passed over. */
  lemma {:induction false} UntaggedLinesSkipped(history: seq<string>, k: nat)
    requires k < |history|
    requires forall j :: k < j < |history| ==> !Contains(history[j], ModeratorTag)
    ensures GetLastInstructions(history) == GetLastInstructions(history[..k + 1])
    decreases |history|
  {
    var n := |history|;
    if k < n - 1 {
      var front := history[..n - 1];
      UntaggedLineSkipped(history);
      forall j | k < j < |front|
        ensures !Contains(front[j], ModeratorTag)
      {
        assert front[j] == history[j];
      }
      UntaggedLinesSkipped(front, k);
      assert front[..k + 1] == history[..k + 1];
    } else {
      assert history[..k + 1] == history;
    }
  }

  /** Without a tagged line there is no instruction. */
  lemma {:induction false} NoTaggedLineNoInstruction(history: seq<string>)
    requires forall k :: 0 <= k < |history| ==> !Contains(history[k], ModeratorTag)
    ensures GetLastInstructions(history) == ""
  {
    if |history| > 0 {
      UntaggedLineSkipped(history);
      NoTaggedLineNoInstruction(history[..|history| - 1]);
    }
  }

  /** A newest line without the tag is passed over. */
  lemma UntaggedLineSkipped(history: seq<string>)
    requires |history| > 0 && !Contains(history[|history| - 1], ModeratorTag)
    ensures GetLastInstructions(history) == GetLastInstructions(history[..|history| - 1])
  {
  }

  /** A moderator line splits on the tag into "" and the text after it. */
  lemma ModeratorLineSplits(text: string)
    requires !Contains(text, ModeratorTag)
    ensures Contains(ModeratorLine(text), ModeratorTag)
    ensures Split(ModeratorLine(text), ModeratorTag) == ["", [' '] + text]
  {
    var rest := [' '] + text;
    assert ModeratorLine(text) == ModeratorTag + rest;
    PrependAvoids(' ', text, ModeratorTag);
    SplitLeading(ModeratorTag, rest);
  }

  /**
   * A moderator line whose stripped text holds neither the tag nor a decision
   * marker carries that text as its instruction.
   */
  lemma InstructionOfModeratorLine(text: string)
    requires text == [] || (!PyWhitespace(text[0]) && !PyWhitespace(text[|text| - 1]))
    requires !Contains(text, ModeratorTag) && !Contains(text, DecisionMarker)
    ensures Contains(ModeratorLine(text), ModeratorTag)
    ensures InstructionOf(ModeratorLine(text)) == text
  {
    ModeratorLineSplits(text);
    PyStripSpace(text);
    PyStripFixpoint(text);
  }

  /** The debaters are handed the moderator's latest text exactly as committed. */
  lemma InstructionHandOff(history: seq<string>, text: string)
    requires text == [] || (!PyWhitespace(text[0]) && !PyWhitespace(text[|text| - 1]))
    requires !Contains(text, ModeratorTag) && !Contains(text, DecisionMarker)
    ensures GetLastInstructions(history + [ModeratorLine(text)]) == text
  {
    InstructionOfModeratorLine(text);
    NewestTaggedLineWins(history + [ModeratorLine(text)], |history|);
  }

  // ---------------------------------------------------------------------
  // The backend call with its retry policy

  /** The prompts the nodes send; their wording is not modelled. */
  datatype Prompt =
    | OpeningPrompt(topic: Option<string>)
    | SteeringPrompt(topic: Option<string>, history: string)
    | DebaterPrompt(name: string, topic: Option<string>, history: string, instruction: string)

  datatype Failure = ResourceExhausted | OtherFailure(message: string)

  /** One attempt: the chunks it streams and the exception that ends it, if any. */
  datatype Attempt = Attempt(chunks: seq<string>, failure: Option<Failure>)

  /** The error a backend call surfaces: the retry policy gave up, or a non-retried exception. */
  datatype LlmError = RetryError | Raised(message: string)

  /** The index of the attempt that ends a call, counting from attempt `k`. */
  function FinalAttempt(backend: (Prompt, nat) -> Attempt, prompt: Prompt, k: nat): (n: nat)
    requires k < MaxAttempts
    ensures k <= n < MaxAttempts
    ensures forall j :: k <= j < n ==> backend(prompt, j).failure == Some(ResourceExhausted)
    ensures backend(prompt, n).failure == Some(ResourceExhausted) ==> n == MaxAttempts - 1
    decreases MaxAttempts - k
  {
    if backend(prompt, k).failure == Some(ResourceExhausted) && k + 1 < MaxAttempts
    then FinalAttempt(backend, prompt, k + 1)
    else k
  }

  /** In-order concatenation of streamed chunks. */
  function Concat(chunks: seq<string>): string {
    if |chunks| == 0 then "" else Concat(chunks[..|chunks| - 1]) + chunks[|chunks| - 1]
  }

  /** What a backend call returns or raises. */
  function InvokeResult(backend: (Prompt, nat) -> Attempt, prompt: Prompt): Result<string, LlmError> {
    var last := backend(prompt, FinalAttempt(backend, prompt, 0));
    match last.failure
    case None => Ok(Concat(last.chunks))
    case Some(ResourceExhausted) => Err(RetryError)
    case Some(OtherFailure(m)) => Err(Raised(m))
  }

  /**
   * The retrying backend call: each attempt concatenates the chunks it
   * streams; only `ResourceExhausted` is retried, at most `MaxAttempts` times
   * in all. `attempts` is the number of attempts made.
   */
  method InvokeLlm(backend: (Prompt, nat) -> Attempt, prompt: Prompt)
    returns (r: Result<string, LlmError>, attempts: nat)
    ensures 1 <= attempts <= MaxAttempts
    ensures forall j :: 0 <= j < attempts - 1 ==> backend(prompt, j).failure == Some(ResourceExhausted)
    ensures var last := backend(prompt, attempts - 1);
      match last.failure
      case None => r == Ok(Concat(last.chunks))
      case Some(ResourceExhausted) => attempts == MaxAttempts && r == Err(RetryError)
      case Some(OtherFailure(m)) => r == Err(Raised(m))
    ensures attempts == FinalAttempt(backend, prompt, 0) + 1 && r == InvokeResult(backend, prompt)
  {
    var attempt := 0;
    while true
      invariant attempt < MaxAttempts
      invariant FinalAttempt(backend, prompt, attempt) == FinalAttempt(backend, prompt, 0)
      decreases MaxAttempts - attempt
    {
      var outcome := backend(prompt, attempt);
      var content := "";
      var i := 0;
      while i < |outcome.chunks|
        invariant i <= |outcome.chunks|
        invariant content == Concat(outcome.chunks[..i])
      {
        assert outcome.chunks[..i + 1][..i] == outcome.chunks[..i];
        content := content + outcome.chunks[i];
        i := i + 1;
      }
      assert outcome.chunks[..i] == outcome.chunks;
      match outcome.failure {
        case None =>
          r, attempts := Ok(content), attempt + 1;
          return;
        case Some(OtherFailure(m)) =>
          r, attempts := Err(Raised(m)), attempt + 1;
          return;
        case Some(ResourceExhausted) =>
          if attempt + 1 == MaxAttempts {
            r, attempts := Err(RetryError), attempt + 1;
            return;
          }
      }
      attempt := attempt + 1;
    }
  }

  // ---------------------------------------------------------------------
  // The graph

  /** The nodes of the graph; `End` is the terminal state, also "nothing to run". */
  datatype Node = Moderator | DebaterA | DebaterB | End

  /** The node the graph enters on fresh input. */
  const EntryPoint: Node := Moderator

  /** The routing rule after the moderator: `"end"` exactly on a `stop` decision. */
  function DecideContinue(decision: Option<Decision>): (r: string)
    ensures r == "end" || r == "continue"
    ensures r == "end" <==> decision == Some(Stop)
  {
    if decision == Some(Stop) then "end" else "continue"
  }

  /** The edge table: moderator to debater A or the end, A to B, B to the moderator. */
  function Successor(node: Node, decision: Option<Decision>): Node {
    match node
    case Moderator => if DecideContinue(decision) == "end" then End else DebaterA
    case DebaterA => DebaterB
    case DebaterB => Moderator
    case End => End
  }

  /** The node reached after `n` routing steps under a fixed decision. */
  function Advance(node: Node, decision: Option<Decision>, n: nat): Node
    decreases n
  {
    if n == 0 then node else Advance(Successor(node, decision), decision, n - 1)
  }

  /** `n + m` steps are `n` steps then `m` steps. */
  lemma {:induction false} AdvanceSplit(node: Node, decision: Option<Decision>, n: nat, m: nat)
    ensures Advance(node, decision, n + m) == Advance(Advance(node, decision, n), decision, m)
    decreases n
  {
    if n > 0 {
      AdvanceSplit(Successor(node, decision), decision, n - 1, m);
    }
  }

  /** Without a `stop`, the graph cycles moderator, A, B: every third step is the moderator's. */
  lemma {:induction false} ModeratorEveryThirdStep(decision: Option<Decision>, k: nat)
    requires decision != Some(Stop)
    ensures Advance(Moderator, decision, 3 * k) == Moderator
    ensures Advance(Moderator, decision, 3 * k + 1) == DebaterA
    ensures Advance(Moderator, decision, 3 * k + 2) == DebaterB
  {
    assert Advance(DebaterB, decision, 1) == Advance(Moderator, decision, 0) == Moderator;
    assert Advance(DebaterA, decision, 1) == DebaterB;
    assert Advance(DebaterA, decision, 2) == Advance(DebaterB, decision, 1);
    assert Advance(Moderator, decision, 3) == Advance(DebaterA, decision, 2);
    if k > 0 {
      ModeratorEveryThirdStep(decision, k - 1);
      AdvanceSplit(Moderator, decision, 3 * (k - 1), 3);
    }
    AdvanceSplit(Moderator, decision, 3 * k, 1);
    AdvanceSplit(Moderator, decision, 3 * k, 2);
  }

  /** Once the graph has ended, no step leaves the end. */
  lemma {:induction false} EndIsFinal(decision: Option<Decision>, n: nat)
    ensures Advance(End, decision, n) == End
  {
    if n > 0 {
      EndIsFinal(decision, n - 1);
    }
  }

  /** The prompt the moderator sends: the opening one on an empty history. */
  function ModeratorPrompt(topic: Option<string>, history: seq<string>): Prompt {
    if |history| == 0 then OpeningPrompt(topic) else SteeringPrompt(topic, Join("\n", history))
  }

  /** The prompt a debater sends, carrying the moderator's latest instruction. */
  function DebaterPromptFor(name: string, topic: Option<string>, history: seq<string>): Prompt {
    DebaterPrompt(name, topic, Join("\n", history), GetLastInstructions(history))
  }

  /** What the moderator node commits, or the error that aborts it. */
  function ModeratorOutcome(backend: (Prompt, nat) -> Attempt, topic: Option<string>, history: seq<string>)
    : (r: Result<ModeratorReply, LlmError>)
    ensures |history| >= MaxTurns ==> r == Ok(ModeratorReply(Stop, ClosingRemark))
    ensures r.Ok? && r.value.decision == Stop ==> |history| >= MinHistoryForStop
  {
    if |history| >= MaxTurns then Ok(ModeratorReply(Stop, ClosingRemark))
    else
      match InvokeResult(backend, ModeratorPrompt(topic, history))
      case Ok(content) => Ok(ParseModerator(content, |history|))
      case Err(e) => Err(e)
  }

  /** What a debater node commits, or the error that aborts it. */
  function DebaterOutcome(backend: (Prompt, nat) -> Attempt, name: string, topic: Option<string>, history: seq<string>)
    : Result<string, LlmError>
  {
    match InvokeResult(backend, DebaterPromptFor(name, topic, history))
    case Ok(content) => Ok(DebaterVisible(content))
    case Err(e) => Err(e)
  }

  /** The fresh input a first turn supplies. */
  datatype Inputs = Inputs(history: seq<string>, currentTopic: Option<string>)

  /**
   * One compiled graph with its checkpointed state: the dialogue state the
   * nodes update in place and the node the next resume runs.
   */
  class DebateApp {
    const model: Option<string>     // None: the request sent JSON null
    const provider: Option<string>
    const apiKey: Option<string>
    var history: seq<string>
    var topic: Option<string>
    var decision: Option<Decision>
    var next: Node

    constructor (model: Option<string>, provider: Option<string>, apiKey: Option<string>)
      ensures this.model == model && this.provider == provider && this.apiKey == apiKey
      ensures history == [] && topic == None && decision == None && next == End
    {
      this.model, this.provider, this.apiKey := model, provider, apiKey;
      history, topic, decision, next := [], None, None, End;
    }

    /**
     * The moderator node: at the turn ceiling it closes the debate without
     * calling the backend; otherwise it parses the reply and appends one line.
     */
    method ModeratorNode(backend: (Prompt, nat) -> Attempt) returns (r: Result<(), LlmError>, attempts: nat)
      modifies this`history, this`decision
      ensures |old(history)| >= MaxTurns ==> attempts == 0
      ensures |old(history)| < MaxTurns ==> 1 <= attempts <= MaxAttempts
      ensures match ModeratorOutcome(backend, old(topic), old(history))
        case Ok(reply) =>
          r.Ok? && history == old(history) + [ModeratorLine(reply.text)] && decision == Some(reply.decision)
        case Err(e) =>
          r == Err(e) && history == old(history) && decision == old(decision)
    {
      if |history| >= MaxTurns {
        history := history + [ModeratorLine(ClosingRemark)];
        decision := Some(Stop);
        return Ok(()), 0;
      }
      r, attempts := ModeratorReplyTurn(backend);
    }

    /** Below the ceiling: one backend call, parsed into a decision and one history line. */
    method ModeratorReplyTurn(backend: (Prompt, nat) -> Attempt) returns (r: Result<(), LlmError>, attempts: nat)
      modifies this`history, this`decision
      ensures 1 <= attempts <= MaxAttempts
      ensures match InvokeResult(backend, ModeratorPrompt(old(topic), old(history)))
        case Ok(content) =>
          var reply := ParseModerator(content, |old(history)|);
          r.Ok? && history == old(history) + [ModeratorLine(reply.text)] && decision == Some(reply.decision)
        case Err(e) =>
          r == Err(e) && history == old(history) && decision == old(decision)
    {
      var content;
      content, attempts := InvokeLlm(backend, ModeratorPrompt(topic, history));
      match content {
        case Err(e) =>
          r := Err(e);
        case Ok(c) =>
          var reply := ParseModerator(c, |history|);
          history := history + [ModeratorLine(reply.text)];
          decision := Some(reply.decision);
          r := Ok(());
      }
    }

    /** A debater node: one backend call, one appended line. */
    method DebaterNode(name: string, backend: (Prompt, nat) -> Attempt) returns (r: Result<(), LlmError>)
      modifies this`history
      ensures match DebaterOutcome(backend, name, old(topic), old(history))
        case Ok(text) => r.Ok? && history == old(history) + [DebaterLine(name, text)]
        case Err(e) => r == Err(e) && history == old(history)
    {
      var content, attempts := InvokeLlm(backend, DebaterPromptFor(name, topic, history));
      match content {
        case Err(e) =>
          r := Err(e);
        case Ok(c) =>
          history := history + [DebaterLine(name, DebaterVisible(c))];
          r := Ok(());
      }
    }

    /**
     * Runs the pending node and pauses after it. A node that raises leaves
     * the state and the pending node as they were, so the next resume retries it.
     */
    method Step(backend: (Prompt, nat) -> Attempt) returns (ran: Node, r: Result<(), LlmError>)
      modifies this`history, this`decision, this`next
      ensures ran == old(next)
      ensures ran == End ==> r.Ok? && history == old(history) && decision == old(decision) && next == End
      ensures r.Err? ==> history == old(history) && decision == old(decision) && next == old(next)
      ensures ran != End && r.Ok? ==>
        |history| == |old(history)| + 1 && history[..|old(history)|] == old(history)
        && next == Successor(ran, decision)
      ensures ran == Moderator && |old(history)| >= MaxTurns ==>
        r.Ok? && history[|old(history)|] == ModeratorLine(ClosingRemark) && next == End
      ensures ran == Moderator ==> match ModeratorOutcome(backend, old(topic), old(history))
        case Ok(reply) =>
          r.Ok? && history == old(history) + [ModeratorLine(reply.text)] && decision == Some(reply.decision)
        case Err(e) => r == Err(e)
      ensures ran != Moderator ==> decision == old(decision)
      ensures ran == DebaterA || ran == DebaterB ==>
        var name := if ran == DebaterA then ProponentName else OpponentName;
        match DebaterOutcome(backend, name, old(topic), old(history))
        case Ok(text) => r.Ok? && history == old(history) + [DebaterLine(name, text)]
        case Err(e) => r == Err(e)
    {
      ran := next;
      match ran {
        case End =>
          r := Ok(());
        case Moderator =>
          var attempts;
          r, attempts := ModeratorNode(backend);
        case DebaterA =>
          r := DebaterNode(ProponentName, backend);
        case DebaterB =>
          r := DebaterNode(OpponentName, backend);
      }
      if ran != End && r.Ok? {
        next := Successor(ran, decision);
      }
    }

    /**
     * One resume of the graph: fresh input restarts the debate at the entry
     * point with that state; no input continues from the pending node.
     */
    method Resume(inputs: Option<Inputs>, backend: (Prompt, nat) -> Attempt) returns (ran: Node, r: Result<(), LlmError>)
      modifies this`history, this`topic, this`decision, this`next
      ensures inputs.Some? ==> ran == EntryPoint && topic == inputs.value.currentTopic
      ensures inputs.None? ==> ran == old(next) && topic == old(topic)
      ensures var before := if inputs.Some? then inputs.value.history else old(history);
        (ran == End ==> r.Ok? && history == before && decision == old(decision) && next == End)
        && (r.Err? ==> history == before && decision == old(decision) && next == ran)
        && (ran != End && r.Ok? ==>
              |history| == |before| + 1 && history[..|before|] == before && next == Successor(ran, decision))
        && (ran == Moderator ==> match ModeratorOutcome(backend, topic, before)
              case Ok(reply) =>
                r.Ok? && history == before + [ModeratorLine(reply.text)] && decision == Some(reply.decision)
              case Err(e) => r == Err(e))
        && (ran == DebaterA || ran == DebaterB ==>
              var name := if ran == DebaterA then ProponentName else OpponentName;
              match DebaterOutcome(backend, name, topic, before)
              case Ok(text) => r.Ok? && history == before + [DebaterLine(name, text)]
              case Err(e) => r == Err(e))
        && (ran != Moderator ==> decision == old(decision))
    {
      if inputs.Some? {
        history := inputs.value.history;
        topic := inputs.value.currentTopic;
        next := EntryPoint;
      }
      ran, r := Step(backend);
    }
  }
}
