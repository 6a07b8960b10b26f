/**
 * The browser's side of a debate stream (static/script.js): incoming events
 * wait in a FIFO queue; `processQueue` drains it, growing message boxes
 * token by token with `handleToken`, and pauses at the end of a turn when
 * auto-play is off.
 *
 * The events are the ones the server sends. The page's elements are reduced
 * to the state they show: the message boxes with their raw text, the
 * system notes, and a flag per control.
 */
module ChatStream {
  import opened Text
  import Server

  const EndNotice := "토론이 종료되었습니다."
  const ErrorNoticePrefix := "오류 발생: "

  /** A streamed piece of text and the role it came from. */
  datatype Chunk = Chunk(role: string, content: string)

  /** A message box: its speaker role and the text buffered for it. */
  datatype Box = Box(role: string, text: string)

  /**
   * One chunk arriving (`handleToken`): the last box grows when the chunk's
   * role is the last box's, otherwise a box of the chunk's role opens.
   */
  function AddChunk(boxes: seq<Box>, c: Chunk): (r: seq<Box>)
    ensures |boxes| <= |r| <= |boxes| + 1 && 0 < |r| && r[|r| - 1].role == c.role
  {
    if |boxes| > 0 && boxes[|boxes| - 1].role == c.role then
      boxes[..|boxes| - 1] + [Box(c.role, boxes[|boxes| - 1].text + c.content)]
    else boxes + [Box(c.role, c.content)]
  }

  /** The boxes after the chunks arrive, in order, on top of the boxes shown. */
  function Extend(boxes: seq<Box>, chunks: seq<Chunk>): (r: seq<Box>)
    ensures |boxes| <= |r| <= |boxes| + |chunks|
    ensures |chunks| > 0 ==> 0 < |r| && r[|r| - 1].role == chunks[|chunks| - 1].role
  {
    if |chunks| == 0 then boxes
    else AddChunk(Extend(boxes, chunks[..|chunks| - 1]), chunks[|chunks| - 1])
  }

  /**
   * The message boxes a sequence of chunks fills on an empty page:
   * consecutive chunks of the same role extend one box, a change of role
   * opens the next.
   */
  function Boxes(chunks: seq<Chunk>): seq<Box> {
    Extend([], chunks)
  }

  /** Chunks arriving in two runs fill the same boxes as all of them in one. */
  lemma {:induction false} ExtendTwice(boxes: seq<Box>, a: seq<Chunk>, b: seq<Chunk>)
    ensures Extend(Extend(boxes, a), b) == Extend(boxes, a + b)
  {
    if |b| == 0 {
      assert a + b == a;
    } else {
      var n := |b| - 1;
      ExtendTwice(boxes, a, b[..n]);
      assert (a + b)[..|a + b| - 1] == a + b[..n];
      assert (a + b)[|a + b| - 1] == b[n];
    }
  }

  /** A page that shows the boxes of some chunks shows, after more arrive, the boxes of all of them. */
  lemma BoxesExtend(a: seq<Chunk>, b: seq<Chunk>)
    ensures Extend(Boxes(a), b) == Boxes(a + b)
  {
    ExtendTwice([], a, b);
  }

  /** All chunk contents in order. */
  function ChunkText(chunks: seq<Chunk>): string {
    if |chunks| == 0 then "" else ChunkText(chunks[..|chunks| - 1]) + chunks[|chunks| - 1].content
  }

  /** All box texts in order. */
  function BoxText(boxes: seq<Box>): string {
    if |boxes| == 0 then "" else BoxText(boxes[..|boxes| - 1]) + boxes[|boxes| - 1].text
  }

  /** Roles of the chunks with consecutive repeats collapsed. */
  function Speakers(chunks: seq<Chunk>): seq<string> {
    if |chunks| == 0 then []
    else
      var prev := Speakers(chunks[..|chunks| - 1]);
      var r := chunks[|chunks| - 1].role;
      if |prev| > 0 && prev[|prev| - 1] == r then prev else prev + [r]
  }

  lemma BoxTextSnoc(boxes: seq<Box>, b: Box)
    ensures BoxText(boxes + [b]) == BoxText(boxes) + b.text
  {
    assert (boxes + [b])[..|boxes|] == boxes;
  }

  /** The boxes together hold every chunk's text, in order: nothing is lost or repeated. */
  lemma {:induction false} BoxesKeepAllText(chunks: seq<Chunk>)
    ensures BoxText(Boxes(chunks)) == ChunkText(chunks)
  {
    if |chunks| > 0 {
      var n := |chunks| - 1;
      var prev := Boxes(chunks[..n]);
      var c := chunks[n];
      BoxesKeepAllText(chunks[..n]);
      assert ChunkText(chunks) == ChunkText(chunks[..n]) + c.content;
      if |prev| > 0 && prev[|prev| - 1].role == c.role {
        var m := |prev| - 1;
        var before := BoxText(prev[..m]);
        assert prev == prev[..m] + [prev[m]];
        BoxTextSnoc(prev[..m], prev[m]);
        BoxTextSnoc(prev[..m], Box(c.role, prev[m].text + c.content));
        assert Boxes(chunks) == prev[..m] + [Box(c.role, prev[m].text + c.content)];
        calc {
          BoxText(Boxes(chunks));
          before + (prev[m].text + c.content);
          (before + prev[m].text) + c.content;
          BoxText(prev) + c.content;
        }
      } else {
        assert Boxes(chunks) == prev + [Box(c.role, c.content)];
        BoxTextSnoc(prev, Box(c.role, c.content));
      }
    }
  }

  /**
   * The boxes' roles are the chunks' roles with repeats collapsed, so two
   * neighbouring boxes never share a role.
   */
  lemma {:induction false} BoxRolesAlternate(chunks: seq<Chunk>)
    ensures |Boxes(chunks)| == |Speakers(chunks)|
    ensures forall k :: 0 <= k < |Boxes(chunks)| ==> Boxes(chunks)[k].role == Speakers(chunks)[k]
    ensures forall k :: 0 < k < |Boxes(chunks)| ==> Boxes(chunks)[k - 1].role != Boxes(chunks)[k].role
  {
    if |chunks| > 0 {
      var n := |chunks| - 1;
      var prev := Boxes(chunks[..n]);
      var c := chunks[n];
      assert Boxes(chunks) == AddChunk(prev, c) by {
        assert chunks[..|chunks| - 1] == chunks[..n];
      }
      BoxRolesAlternate(chunks[..n]);
      var sp := Speakers(chunks[..n]);
      assert Speakers(chunks) == if |sp| > 0 && sp[|sp| - 1] == c.role then sp else sp + [c.role];
      AddChunkRoles(prev, c);
      var r := Boxes(chunks);
      if |prev| > 0 && prev[|prev| - 1].role == c.role {
        assert Speakers(chunks) == sp;
      } else {
        assert Speakers(chunks) == sp + [c.role];
        assert forall k :: 0 <= k < |r| ==> r[k].role == Speakers(chunks)[k];
      }
    }
  }

  /** A chunk of the last box's role keeps every box's role; any other chunk opens a box after them. */
  lemma AddChunkRoles(boxes: seq<Box>, c: Chunk)
    ensures var r := AddChunk(boxes, c);
      if |boxes| > 0 && boxes[|boxes| - 1].role == c.role
      then |r| == |boxes| && forall k :: 0 <= k < |r| ==> r[k].role == boxes[k].role
      else r == boxes + [Box(c.role, c.content)]
  {
  }

  /** The page state `processQueue` changes besides the boxes. */
  datatype Controls = Controls(
    waiting: bool,            // `isWaitingForNext`
    thinking: bool,           // the thinking indicator is shown
    streamOpen: bool,         // `eventSource` is open
    loading: bool,            // the start button shows its loader
    stopShown: bool,          // the stop button is visible
    nextEnabled: bool,        // the next button is enabled
    sessionActive: bool,      // `currentSessionId` is set
    notes: seq<string>,       // system messages, in order
    scheduledTurns: nat)      // turns scheduled to start after the auto-play delay

  /** An `end` or `error` event: the stream closes and the session is over. */
  function Closed(c: Controls, note: string): Controls {
    c.(streamOpen := false, loading := false, stopShown := false, thinking := false,
       notes := c.notes + [note], sessionActive := false)
  }

  /** The effect of one event on the controls. */
  function Apply(c: Controls, autoPlay: bool, e: Server.OutEvent): Controls {
    match e
    case Token(_, _) => c.(thinking := false)
    case TurnEnd(_) => c
    case StreamEnd =>
      if autoPlay then c.(streamOpen := false, scheduledTurns := c.scheduledTurns + 1)
      else c.(streamOpen := false, waiting := true, nextEnabled := true)
    case DebateEnd => Closed(c, EndNotice)
    case ErrorEvent(message) => Closed(c, ErrorNoticePrefix + message)
  }

  function ApplyAll(c: Controls, autoPlay: bool, events: seq<Server.OutEvent>): Controls {
    if |events| == 0 then c else Apply(ApplyAll(c, autoPlay, events[..|events| - 1]), autoPlay, events[|events| - 1])
  }

  /** The chunks carried by the token events, in order. */
  function TokensIn(events: seq<Server.OutEvent>): seq<Chunk> {
    if |events| == 0 then []
    else
      var e := events[|events| - 1];
      TokensIn(events[..|events| - 1]) + (if e.Token? then [Chunk(e.role, e.content)] else [])
  }

  /** The index of the first `stream_end`, or the length when there is none. */
  function FirstStreamEnd(events: seq<Server.OutEvent>): (r: nat)
    ensures r <= |events|
    ensures r < |events| ==> events[r] == Server.StreamEnd
    ensures forall k :: 0 <= k < r ==> events[k] != Server.StreamEnd
  {
    if |events| == 0 then 0
    else if events[0] == Server.StreamEnd then 0
    else 1 + FirstStreamEnd(events[1..])
  }

  /**
   * How many queued events one `processQueue` run takes: all of them in
   * auto-play, otherwise up to and including the first `stream_end`.
   */
  function Consumed(queue: seq<Server.OutEvent>, autoPlay: bool): (n: nat)
    ensures n <= |queue|
  {
    if autoPlay || FirstStreamEnd(queue) == |queue| then |queue| else FirstStreamEnd(queue) + 1
  }

  /**
   * In manual mode a run stops right after the first `stream_end`: the
   * events it takes hold no other `stream_end`, and events are left queued
   * only behind that one.
   */
  lemma ManualRunStopsAtStreamEnd(queue: seq<Server.OutEvent>)
    ensures var n := Consumed(queue, false);
      (forall k :: 0 <= k < n - 1 ==> queue[k] != Server.StreamEnd)
      && (n < |queue| ==> n > 0 && queue[n - 1] == Server.StreamEnd)
      && (Server.StreamEnd in queue <==> n > 0 && queue[n - 1] == Server.StreamEnd)
  {
    var n := Consumed(queue, false);
    if Server.StreamEnd in queue {
      var i :| 0 <= i < |queue| && queue[i] == Server.StreamEnd;
      assert FirstStreamEnd(queue) <= i;
    }
  }

  /** Taking one more event applies it to the controls and adds its chunk. */
  lemma RunStep(c: Controls, autoPlay: bool, queue: seq<Server.OutEvent>, i: nat, e: Server.OutEvent,
                before: Controls, after: Controls)
    requires i < |queue| && e == queue[i]
    requires before == ApplyAll(c, autoPlay, queue[..i]) && after == Apply(before, autoPlay, e)
    ensures after == ApplyAll(c, autoPlay, queue[..i + 1])
  {
    assert queue[..i + 1][..i] == queue[..i];
  }

  /** Taking one more event adds its chunk to the boxes when it is a token. */
  lemma TokenStep(queue: seq<Server.OutEvent>, i: nat, e: Server.OutEvent,
                  boxes0: seq<Box>, before: seq<Box>, after: seq<Box>)
    requires i < |queue| && e == queue[i]
    requires before == Extend(boxes0, TokensIn(queue[..i]))
    requires after == if e.Token? then AddChunk(before, Chunk(e.role, e.content)) else before
    ensures after == Extend(boxes0, TokensIn(queue[..i + 1]))
  {
    var q := queue[..i + 1];
    assert q[..i] == queue[..i] && q[i] == e;
    var t := TokensIn(queue[..i]);
    if e.Token? {
      var c := Chunk(e.role, e.content);
      assert TokensIn(q) == t + [c];
      assert (t + [c])[..|t|] == t;
    } else {
      assert TokensIn(q) == t + [];
      assert t + [] == t;
    }
  }

  /**
   * A run that has taken `i` events and not yet passed a `stream_end` may
   * take one more; in manual mode that one ends the run when it is a
   * `stream_end`.
   */
  lemma ConsumedStep(queue: seq<Server.OutEvent>, autoPlay: bool, i: nat, e: Server.OutEvent,
                     before: Controls, after: Controls)
    requires i < |queue| && e == queue[i] && (autoPlay || i <= FirstStreamEnd(queue))
    requires !before.waiting && after == Apply(before, autoPlay, e)
    ensures i + 1 <= Consumed(queue, autoPlay)
    ensures after.waiting ==> i + 1 == Consumed(queue, autoPlay)
    ensures !after.waiting && !autoPlay ==> i + 1 <= FirstStreamEnd(queue)
  {
    if !autoPlay {
      var f := FirstStreamEnd(queue);
      if e == Server.StreamEnd {
        assert f == i;
        assert after.waiting;
      } else {
        assert f != i;
        assert !after.waiting;
      }
    }
  }

  /** In auto-play a run takes every queued event. */
  lemma AutoPlayRunDrains(queue: seq<Server.OutEvent>)
    ensures Consumed(queue, true) == |queue|
  {
  }

  /** Events other than `stream_end` leave the waiting flag as it was. */
  lemma {:induction false} WaitingOnlyAtStreamEnd(c: Controls, events: seq<Server.OutEvent>)
    requires forall k :: 0 <= k < |events| ==> events[k] != Server.StreamEnd
    ensures ApplyAll(c, false, events).waiting == c.waiting
  {
    if |events| > 0 {
      WaitingOnlyAtStreamEnd(c, events[..|events| - 1]);
    }
  }

  /**
   * After a manual-mode run that started not waiting, the page waits for
   * the next button exactly when the run took a `stream_end`.
   */
  lemma ManualRunWaits(c: Controls, queue: seq<Server.OutEvent>)
    requires !c.waiting
    ensures var n := Consumed(queue, false);
      ApplyAll(c, false, queue[..n]).waiting <==> Server.StreamEnd in queue
  {
    var n := Consumed(queue, false);
    ManualRunStopsAtStreamEnd(queue);
    if n > 0 && queue[n - 1] == Server.StreamEnd {
      assert queue[..n][..n - 1] == queue[..n - 1];
      WaitingOnlyAtStreamEnd(c, queue[..n - 1]);
    } else {
      WaitingOnlyAtStreamEnd(c, queue[..n]);
    }
  }

  /** `currentRole`: the role of the last box, none before the first token. */
  function LastRole(boxes: seq<Box>): Option<string> {
    if boxes == [] then None else Some(boxes[|boxes| - 1].role)
  }

  /** `currentContentBuffer`: the text of the last box. */
  function LastText(boxes: seq<Box>): string {
    if boxes == [] then "" else boxes[|boxes| - 1].text
  }

  /**
   * A token keeps the current role and buffer on the last box: a new role
   * opens an empty box, and the content goes to the end of the last box and
   * the buffer, which is the chunk arriving on the boxes.
   */
  lemma TokenTracked(boxes: seq<Box>, current: Option<string>, buffer: string, role: string, content: string)
    requires current == LastRole(boxes) && buffer == LastText(boxes)
    ensures var grown := if current == Some(role) then boxes else boxes + [Box(role, "")];
      var text := (if current == Some(role) then buffer else "") + content;
      var after := grown[..|grown| - 1] + [Box(role, text)];
      after == AddChunk(boxes, Chunk(role, content)) && LastRole(after) == Some(role) && LastText(after) == text
  {
    if current != Some(role) {
      assert (boxes + [Box(role, "")])[..|boxes|] == boxes;
      assert "" + content == content;
    }
  }

  /** The page's streaming state. */
  class ChatClient {
    var eventQueue: seq<Server.OutEvent>
    var isProcessingQueue: bool
    var isWaitingForNext: bool
    var isAutoPlay: bool
    var currentRole: Option<string>
    var currentContentBuffer: string
    var boxes: seq<Box>
    var thinkingShown: bool
    var streamOpen: bool
    var loading: bool
    var stopShown: bool
    var nextEnabled: bool
    var sessionActive: bool
    var notes: seq<string>
    var scheduledTurns: nat
    /** The current role and buffer are the last box's role and text. */
    ghost predicate Valid()
      reads this`boxes, this`currentRole, this`currentContentBuffer
    {
      currentRole == LastRole(boxes) && currentContentBuffer == LastText(boxes)
    }

    function ControlsOf(): Controls
      reads this`isWaitingForNext, this`thinkingShown, this`streamOpen, this`loading, this`stopShown
      reads this`nextEnabled, this`sessionActive, this`notes, this`scheduledTurns
    {
      Controls(isWaitingForNext, thinkingShown, streamOpen, loading, stopShown, nextEnabled,
               sessionActive, notes, scheduledTurns)
    }

    constructor (autoPlay: bool)
      ensures Valid() && boxes == []
      ensures eventQueue == [] && !isProcessingQueue && !isWaitingForNext && isAutoPlay == autoPlay
      ensures notes == [] && scheduledTurns == 0
    {
      eventQueue := [];
      isProcessingQueue := false;
      isWaitingForNext := false;
      isAutoPlay := autoPlay;
      currentRole := None;
      currentContentBuffer := "";
      boxes := [];
      thinkingShown := false;
      streamOpen := false;
      loading := false;
      stopShown := false;
      nextEnabled := false;
      sessionActive := false;
      notes := [];
      scheduledTurns := 0;
    }

    /**
     * One token: a new role opens a new box with an empty buffer; the
     * content is appended to the buffer, and the current box shows it.
     */
    method HandleToken(role: string, content: string)
      requires Valid()
      modifies this`currentRole, this`currentContentBuffer, this`boxes
      ensures Valid() && boxes == AddChunk(old(boxes), Chunk(role, content))
    {
      TokenTracked(boxes, currentRole, currentContentBuffer, role, content);
      if Some(role) != currentRole {
        currentRole := Some(role);
        currentContentBuffer := "";
        boxes := boxes + [Box(role, "")];
      }
      currentContentBuffer := currentContentBuffer + content;
      boxes := boxes[..|boxes| - 1] + [Box(role, currentContentBuffer)];
    }

    /** One event taken off the queue. */
    method HandleEvent(e: Server.OutEvent)
      requires Valid()
      modifies this`currentRole, this`currentContentBuffer, this`boxes, this`thinkingShown
      modifies this`streamOpen, this`isWaitingForNext, this`nextEnabled, this`scheduledTurns
      modifies this`loading, this`stopShown, this`notes, this`sessionActive
      ensures Valid()
      ensures ControlsOf() == Apply(old(ControlsOf()), isAutoPlay, e)
      ensures boxes == if e.Token? then AddChunk(old(boxes), Chunk(e.role, e.content)) else old(boxes)
    {
      match e
      case Token(role, content) =>
        thinkingShown := false;
        HandleToken(role, content);
      case TurnEnd(_) =>
      case StreamEnd =>
        EndStream();
      case DebateEnd =>
        CloseSession(EndNotice);
      case ErrorEvent(message) =>
        CloseSession(ErrorNoticePrefix + message);
    }

    /**
     * A `stream_end` event: the stream closes; in manual mode the page waits
     * for the next button, in auto-play the next turn is scheduled.
     */
    method EndStream()
      modifies this`streamOpen, this`isWaitingForNext, this`nextEnabled, this`scheduledTurns
      ensures ControlsOf() == Apply(old(ControlsOf()), isAutoPlay, Server.StreamEnd)
    {
      streamOpen := false;
      if !isAutoPlay {
        isWaitingForNext := true;
        nextEnabled := true;
      } else {
        scheduledTurns := scheduledTurns + 1;
      }
    }

    /** The shared handling of `end` and `error`. */
    method CloseSession(note: string)
      modifies this`streamOpen, this`loading, this`stopShown, this`thinkingShown, this`notes, this`sessionActive
      ensures ControlsOf() == Closed(old(ControlsOf()), note)
    {
      streamOpen := false;
      loading := false;
      stopShown := false;
      thinkingShown := false;
      notes := notes + [note];
      sessionActive := false;
    }

    /**
     * `processQueue`: a run that finds the page already processing or
     * waiting does nothing; otherwise it drains the queue and leaves the
     * processing flag cleared.
     */
    method ProcessQueue()
      requires Valid()
      modifies this`eventQueue, this`isProcessingQueue
      modifies this`currentRole, this`currentContentBuffer, this`boxes, this`thinkingShown
      modifies this`streamOpen, this`isWaitingForNext, this`nextEnabled, this`scheduledTurns
      modifies this`loading, this`stopShown, this`notes, this`sessionActive
      ensures Valid()
      ensures old(isProcessingQueue) || old(isWaitingForNext) ==>
        eventQueue == old(eventQueue) && ControlsOf() == old(ControlsOf()) && boxes == old(boxes)
        && isProcessingQueue == old(isProcessingQueue)
      ensures !old(isProcessingQueue) && !old(isWaitingForNext) ==>
        var n := Consumed(old(eventQueue), isAutoPlay);
        eventQueue == old(eventQueue)[n..]
        && ControlsOf() == ApplyAll(old(ControlsOf()), isAutoPlay, old(eventQueue)[..n])
        && boxes == Extend(old(boxes), TokensIn(old(eventQueue)[..n]))
        && !isProcessingQueue
    {
      if isProcessingQueue || isWaitingForNext {
        return;
      }
      isProcessingQueue := true;
      DrainQueue();
      isProcessingQueue := false;
    }

    /**
     * The loop of `processQueue`: takes events off the front of the queue
     * in arrival order and handles each, until the queue is empty or a
     * `stream_end` leaves the page waiting for the next button. The events
     * taken are the ones `Consumed` counts.
     */
    method DrainQueue()
      requires Valid() && !isWaitingForNext
      modifies this`eventQueue
      modifies this`currentRole, this`currentContentBuffer, this`boxes, this`thinkingShown
      modifies this`streamOpen, this`isWaitingForNext, this`nextEnabled, this`scheduledTurns
      modifies this`loading, this`stopShown, this`notes, this`sessionActive
      ensures Valid()
      ensures var n := Consumed(old(eventQueue), isAutoPlay);
        eventQueue == old(eventQueue)[n..]
        && ControlsOf() == ApplyAll(old(ControlsOf()), isAutoPlay, old(eventQueue)[..n])
        && boxes == Extend(old(boxes), TokensIn(old(eventQueue)[..n]))
    {
      ghost var queue := eventQueue;
      ghost var c0 := ControlsOf();
      ghost var boxes0 := boxes;
      ghost var i := 0;
      while |eventQueue| > 0
        invariant Valid()
        invariant i <= Consumed(queue, isAutoPlay) && eventQueue == queue[i..]
        invariant ControlsOf() == ApplyAll(c0, isAutoPlay, queue[..i])
        invariant boxes == Extend(boxes0, TokensIn(queue[..i]))
        invariant isWaitingForNext ==> i == Consumed(queue, isAutoPlay)
        invariant !isWaitingForNext && !isAutoPlay ==> i <= FirstStreamEnd(queue)
        decreases |eventQueue|
      {
        if isWaitingForNext {
          break;
        }
        TakeNext(queue, i, c0, boxes0);
        i := i + 1;
      }
    }

    /**
     * One pass of the `processQueue` loop: the event at the front of the
     * queue, the `i`-th of the run, is taken off and handled, which applies
     * it to the controls and to the boxes.
     */
    method TakeNext(ghost queue: seq<Server.OutEvent>, ghost i: nat, ghost c0: Controls, ghost boxes0: seq<Box>)
      requires Valid() && !isWaitingForNext
      requires i < |queue| && eventQueue == queue[i..]
      requires ControlsOf() == ApplyAll(c0, isAutoPlay, queue[..i])
      requires boxes == Extend(boxes0, TokensIn(queue[..i]))
      requires isAutoPlay || i <= FirstStreamEnd(queue)
      modifies this`eventQueue
      modifies this`currentRole, this`currentContentBuffer, this`boxes, this`thinkingShown
      modifies this`streamOpen, this`isWaitingForNext, this`nextEnabled, this`scheduledTurns
      modifies this`loading, this`stopShown, this`notes, this`sessionActive
      ensures Valid()
      ensures i + 1 <= Consumed(queue, isAutoPlay) && eventQueue == queue[i + 1..]
      ensures ControlsOf() == ApplyAll(c0, isAutoPlay, queue[..i + 1])
      ensures boxes == Extend(boxes0, TokensIn(queue[..i + 1]))
      ensures isWaitingForNext ==> i + 1 == Consumed(queue, isAutoPlay)
      ensures !isWaitingForNext && !isAutoPlay ==> i + 1 <= FirstStreamEnd(queue)
    {
      var data := eventQueue[0];
      eventQueue := eventQueue[1..];
      ghost var before := ControlsOf();
      ghost var boxesBefore := boxes;
      HandleEvent(data);
      RunStep(c0, isAutoPlay, queue, i, data, before, ControlsOf());
      TokenStep(queue, i, data, boxes0, boxesBefore, boxes);
      ConsumedStep(queue, isAutoPlay, i, data, before, ControlsOf());
    }

    /** A message from the server: it joins the queue, which is then drained. */
    method OnMessage(e: Server.OutEvent)
      requires Valid()
      modifies this`eventQueue, this`isProcessingQueue
      modifies this`currentRole, this`currentContentBuffer, this`boxes, this`thinkingShown
      modifies this`streamOpen, this`isWaitingForNext, this`nextEnabled, this`scheduledTurns
      modifies this`loading, this`stopShown, this`notes, this`sessionActive
      ensures Valid()
      ensures !old(isProcessingQueue) && !old(isWaitingForNext) ==>
        var queue := old(eventQueue) + [e];
        var n := Consumed(queue, isAutoPlay);
        eventQueue == queue[n..]
        && ControlsOf() == ApplyAll(old(ControlsOf()), isAutoPlay, queue[..n])
        && boxes == Extend(old(boxes), TokensIn(queue[..n]))
        && !isProcessingQueue
      ensures old(isProcessingQueue) || old(isWaitingForNext) ==>
        eventQueue == old(eventQueue) + [e] && ControlsOf() == old(ControlsOf()) && boxes == old(boxes)
        && isProcessingQueue == old(isProcessingQueue)
    {
      eventQueue := eventQueue + [e];
      ProcessQueue();
    }
  }
}
