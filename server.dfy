/**
 * The web server of server.py: the session registry, the start endpoint and
 * the per-turn event relay that turns the graph's internal event stream into
 * the events the browser reads.
 *
 * The internal event stream of one resumed graph run is a parameter: what
 * the run emitted before it finished, and the exception that ended it, if any.
 */
module Server {
  import opened Text
  import DebateGraph

  const DefaultModel := "qwq"
  const DefaultProvider := "ollama"

  /** A key of a JSON object: left out, sent as `null`, or sent as a string. */
  datatype Field = Missing | Null | Str(value: string)

  /**
   * The JSON body of a start request; every key is optional. `topic` and
   * `google_api_key` are read without a default, so a missing key and `null`
   * both read as None.
   */
  datatype StartRequest = StartRequest(
    topic: Option<string>, model: Field, provider: Field, googleApiKey: Option<string>)

  /** Python `data.get(key, default)`: the default only for a missing key; `null` reads as None. */
  function OrDefault(value: Field, default: string): (r: Option<string>)
    ensures value.Missing? ==> r == Some(default)
    ensures value.Null? ==> r == None
    ensures value.Str? ==> r == Some(value.value)
  {
    match value
    case Missing => Some(default)
    case Null => None
    case Str(v) => Some(v)
  }

  /** One registered debate: its graph, its topic and the turns relayed so far. */
  datatype Session = Session(app: DebateGraph.DebateApp, topic: Option<string>, turnCount: nat)

  /** An event of the graph run, reduced to the fields the relay reads. */
  datatype InternalEvent =
    | ChatModelStream(node: string, content: string)
      // `node` is "" when the event carries no node name
    | ChainEnd(endedNode: Option<string>, decision: Option<string>)
      // `decision` is the `decision` entry of the node's output, when there is one
    | OtherEvent

  /** The events a run emitted, and the exception that ended it early, if any. */
  datatype InternalStream = InternalStream(events: seq<InternalEvent>, failure: Option<string>)

  /** The events the browser receives. */
  datatype OutEvent =
    | Token(role: string, content: string)
    | TurnEnd(role: string)
    | DebateEnd
    | ErrorEvent(content: string)
    | StreamEnd

  datatype Response =
    | NotFound
    | EventStream(inputs: Option<DebateGraph.Inputs>, events: seq<OutEvent>)

  /** The graph's three node names. */
  predicate IsGraphNode(node: string) {
    node == "moderator" || node == "debater_A" || node == "debater_B"
  }

  /** The speaker role of a node; other names have none. */
  function RoleOfNode(node: string): (r: Option<string>)
    ensures r.Some? <==> IsGraphNode(node)
    ensures r.Some? ==> r.value in {"moderator", "proponent", "opponent"}
  {
    if node == "moderator" then Some("moderator")
    else if node == "debater_A" then Some("proponent")
    else if node == "debater_B" then Some("opponent")
    else None
  }

  /** What one internal event is relayed as. */
  function Translate(e: InternalEvent): seq<OutEvent> {
    match e
    case ChatModelStream(node, content) =>
      if content != "" && RoleOfNode(node).Some? then [Token(RoleOfNode(node).value, content)] else []
    case ChainEnd(node, decision) =>
      (if node.Some? && IsGraphNode(node.value) then [TurnEnd(node.value)] else [])
      + (if node == Some("moderator") && decision == Some("stop") then [DebateEnd] else [])
    case OtherEvent => []
  }

  /** The relayed events of a sequence of internal events, in order. */
  function Translated(events: seq<InternalEvent>): seq<OutEvent> {
    if |events| == 0 then [] else Translated(events[..|events| - 1]) + Translate(events[|events| - 1])
  }

  /** The whole body of one turn's event stream. */
  function TurnEvents(run: InternalStream): seq<OutEvent> {
    Translated(run.events)
    + (if run.failure.Some? then [ErrorEvent(run.failure.value)] else [])
    + [StreamEnd]
  }

  /** The first turn of a session supplies the initial state; later turns resume. */
  function TurnInputs(session: Session): Option<DebateGraph.Inputs> {
    if session.turnCount == 0 then Some(DebateGraph.Inputs([], session.topic)) else None
  }

  /** Relayed events are never errors or stream ends. */
  lemma {:induction false} TranslatedBody(events: seq<InternalEvent>)
    ensures forall k :: 0 <= k < |Translated(events)| ==>
      !Translated(events)[k].ErrorEvent? && !Translated(events)[k].StreamEnd?
  {
    if |events| > 0 {
      TranslatedBody(events[..|events| - 1]);
    }
  }

  /**
   * Every relayed token has one of the three speaker roles and carries
   * non-empty content; every turn end names a graph node.
   */
  lemma {:induction false} RelayedTokensWellFormed(events: seq<InternalEvent>)
    ensures forall k :: 0 <= k < |Translated(events)| && Translated(events)[k].Token? ==>
      Translated(events)[k].role in {"moderator", "proponent", "opponent"}
      && Translated(events)[k].content != ""
    ensures forall k :: 0 <= k < |Translated(events)| && Translated(events)[k].TurnEnd? ==>
      IsGraphNode(Translated(events)[k].role)
  {
    if |events| > 0 {
      RelayedTokensWellFormed(events[..|events| - 1]);
    }
  }

  /** An `end` event always comes right after the moderator's turn end. */
  lemma {:induction false} EndFollowsModeratorTurn(events: seq<InternalEvent>)
    ensures forall k :: 0 <= k < |Translated(events)| && Translated(events)[k] == DebateEnd ==>
      k > 0 && Translated(events)[k - 1] == TurnEnd("moderator")
  {
    if |events| > 0 {
      EndFollowsModeratorTurn(events[..|events| - 1]);
    }
  }

  /** The contents of the relayed tokens, in order. */
  function TokenText(out: seq<OutEvent>): string {
    if |out| == 0 then ""
    else TokenText(out[..|out| - 1]) + (if out[|out| - 1].Token? then out[|out| - 1].content else "")
  }

  /** The chunk contents of the internal events streamed by the graph's nodes, in order. */
  function NodeChunkText(events: seq<InternalEvent>): string {
    if |events| == 0 then ""
    else
      var e := events[|events| - 1];
      NodeChunkText(events[..|events| - 1])
      + (if e.ChatModelStream? && IsGraphNode(e.node) then e.content else "")
  }

  lemma {:induction false} TokenTextAppend(a: seq<OutEvent>, b: seq<OutEvent>)
    ensures TokenText(a + b) == TokenText(a) + TokenText(b)
    decreases |b|
  {
    if |b| == 0 {
      assert a + b == a;
    } else {
      var n := |b| - 1;
      assert (a + b)[..|a + b| - 1] == a + b[..n];
      assert (a + b)[|a + b| - 1] == b[n];
      TokenTextAppend(a, b[..n]);
    }
  }

  /** The token contents relayed are exactly the text the graph's nodes streamed, nothing lost or added. */
  lemma {:induction false} TokensCarryNodeText(events: seq<InternalEvent>)
    ensures TokenText(Translated(events)) == NodeChunkText(events)
  {
    if |events| > 0 {
      var n := |events| - 1;
      TokensCarryNodeText(events[..n]);
      TokenTextAppend(Translated(events[..n]), Translate(events[n]));
      TranslateTokenText(events[n]);
    }
  }

  /** One internal event relays, as tokens, the chunk a graph node streamed and nothing else. */
  lemma TranslateTokenText(e: InternalEvent)
    ensures TokenText(Translate(e)) == if e.ChatModelStream? && IsGraphNode(e.node) then e.content else ""
  {
    var t := Translate(e);
    if |t| == 1 {
      assert TokenText(t) == TokenText([]) + (if t[0].Token? then t[0].content else "");
    } else if |t| == 2 {
      assert t[..1][..0] == [];
      assert TokenText(t) == TokenText(t[..1]) + "";
    }
  }

  /**
   * The shape of every turn's stream: it ends with exactly one `stream_end`,
   * preceded by one error event exactly when the run raised.
   */
  lemma TurnStreamShape(run: InternalStream)
    ensures var out := TurnEvents(run);
      |out| >= 1 && out[|out| - 1] == StreamEnd
      && (forall k :: 0 <= k < |out| - 1 ==> out[k] != StreamEnd)
      && (run.failure.Some? <==> (exists k :: 0 <= k < |out| && out[k].ErrorEvent?))
      && (run.failure.Some? ==> out[|out| - 2] == ErrorEvent(run.failure.value))
  {
    var body := Translated(run.events);
    TranslatedBody(run.events);
    var out := TurnEvents(run);
    assert forall k :: 0 <= k < |body| ==> out[k] == body[k];
    if run.failure.Some? {
      assert out[|out| - 2].ErrorEvent?;
    }
  }

  /** The registry of active debates, keyed by session id. */
  class SessionRegistry {
    var sessions: map<string, Session>

    constructor ()
      ensures sessions == map[]
    {
      sessions := map[];
    }

    /**
     * Creates a graph for the requested model and provider (defaults `qwq`
     * and `ollama`) and registers it under `sessionId` with no turns relayed.
     * The id generator is a parameter.
     */
    method StartDebate(request: StartRequest, sessionId: string) returns (id: string)
      modifies this
      ensures id == sessionId && id in sessions
      ensures var s := sessions[id];
        fresh(s.app) && s.topic == request.topic && s.turnCount == 0
        && s.app.model == OrDefault(request.model, DefaultModel)
        && s.app.provider == OrDefault(request.provider, DefaultProvider)
        && s.app.apiKey == request.googleApiKey
        && s.app.history == [] && s.app.next == DebateGraph.End
      ensures forall other :: other != id ==>
        (other in sessions <==> other in old(sessions))
        && (other in sessions ==> sessions[other] == old(sessions)[other])
    {
      var model := OrDefault(request.model, DefaultModel);
      var provider := OrDefault(request.provider, DefaultProvider);
      var app := new DebateGraph.DebateApp(model, provider, request.googleApiKey);
      sessions := sessions[sessionId := Session(app, request.topic, 0)];
      id := sessionId;
    }

    /**
     * Relays one turn: an unknown id is refused; otherwise the first turn
     * supplies the initial state, the run's events are relayed in order, an
     * error event reports a raised exception, and `stream_end` closes the
     * stream. The turn count advances only when the run did not raise.
     */
    method NextTurn(sessionId: string, run: InternalStream) returns (response: Response)
      modifies this
      ensures sessionId !in old(sessions) ==> response == NotFound && sessions == old(sessions)
      ensures sessionId in old(sessions) ==>
        var s := old(sessions)[sessionId];
        response == EventStream(TurnInputs(s), TurnEvents(run))
        && sessions == old(sessions)[sessionId :=
             s.(turnCount := if run.failure.None? then s.turnCount + 1 else s.turnCount)]
    {
      if sessionId !in sessions {
        return NotFound;
      }
      var session := sessions[sessionId];
      var inputs := TurnInputs(session);
      var out: seq<OutEvent> := [];
      var i := 0;
      while i < |run.events|
        invariant i <= |run.events|
        invariant out == Translated(run.events[..i])
      {
        assert run.events[..i + 1][..i] == run.events[..i];
        out := out + Translate(run.events[i]);
        i := i + 1;
      }
      assert run.events[..i] == run.events;
      if run.failure.None? {
        sessions := sessions[sessionId := session.(turnCount := session.turnCount + 1)];
      } else {
        out := out + [ErrorEvent(run.failure.value)];
      }
      out := out + [StreamEnd];
      response := EventStream(inputs, out);
    }
  }
}
