/**
 * `websocket_endpoint` (main.py): the per-connection loop that relays a
 * call's speech-to-text prompts to the chat sessions and sends the replies
 * back over the socket.
 *
 * The socket is abstracted into the sequence of events it delivers (a text
 * frame, already decoded as JSON or not, or the client's disconnect) and
 * the sequence of messages sent. The session registry is the module-level
 * `GeminiLLM` shared by the whole server; one connection is modelled at a
 * time.
 */
module Relay {
  import opened Wrappers
  import opened Sessions

  /**
   * A decoded JSON object received from the relay. A field is `None` when
   * the key is absent, so reading it raises `KeyError`; `kind` is also
   * `None` when the frame is JSON but not an object.
   */
  datatype Message = Message(kind: Option<string>, callSid: Option<string>, voicePrompt: Option<string>)

  /** What `websocket.receive_text()` yields: a frame (`None` when it is not valid JSON), or a disconnect. */
  datatype Event = Frame(message: Option<Message>) | Disconnect

  /** `{"type": kind, "token": token, "last": last}` as sent by `websocket.send_text`. */
  datatype Outbound = Outbound(kind: string, token: string, last: bool)

  /**
   * `Open` while the loop runs; `Closed` after the disconnect handler ran;
   * `Crashed` when any other exception left the handler, so no cleanup ran.
   */
  datatype Status = Open | Closed | Crashed

  /** The connection: the local `call_sid`, the shared registry, what was sent, and whether the loop still runs. */
  datatype Conn = Conn(callSid: Option<string>, reg: Registry, sent: seq<Outbound>, status: Status)

  /** Python truthiness of `call_sid`: `None` and the empty string are false. */
  predicate Truthy(sid: Option<string>): (b: bool)
    ensures sid.None? ==> !b
    ensures sid == Some("") ==> !b
    ensures sid.Some? && |sid.value| > 0 ==> b
  {
    sid.Some? && sid.value != ""
  }

  /** The reply message for `token`. */
  function FinalText(token: string): Outbound {
    Outbound("text", token, true)
  }

  /** The state right after `websocket.accept()`: `call_sid = None`, nothing sent. */
  function Start(reg: Registry): Conn {
    Conn(None, reg, [], Open)
  }

  /** The message is a "prompt" (the only kind that can produce output). */
  predicate IsPrompt(ev: Event) {
    ev.Frame? && ev.message.Some? && ev.message.value.kind == Some("prompt")
  }

  /** The call id a "setup" frame registers, if it is one. */
  function SetupId(ev: Event): (r: Option<string>)
    ensures r.Some? ==> ev.Frame? && ev.message.Some? && ev.message.value.kind == Some("setup")
  {
    if ev.Frame? && ev.message.Some? && ev.message.value.kind == Some("setup") then ev.message.value.callSid
    else None
  }

  /** A "prompt" with a live session: `call_sid` is truthy and registered. */
  predicate Live(conn: Conn) {
    Truthy(conn.callSid) && conn.callSid.value in conn.reg.sessions
  }

  /** The handling of a "prompt" frame carrying `prompt` (`None` when `voicePrompt` is absent). */
  function OnPrompt(conn: Conn, prompt: Option<string>, backend: Backend): (next: Conn)
    requires conn.status == Open
    ensures next.callSid == conn.callSid && next.status != Closed
    ensures next.reg.sessions.Keys == conn.reg.sessions.Keys && next.reg.started == conn.reg.started
    ensures next.sent == conn.sent ||
      (&& Live(conn) && prompt.Some? && |next.sent| == |conn.sent| + 1
       && next.sent[..|conn.sent|] == conn.sent && next.sent[|conn.sent|].kind == "text")
    ensures !Live(conn) ==> next == conn
  {
    if !Live(conn) then conn
    else if prompt.None? then conn.(status := Crashed)
    else
      var (reg, r) := Respond(conn.reg, conn.callSid.value, prompt.value, backend);
      match r
      case Ok(t) => conn.(reg := reg, sent := conn.sent + [FinalText(t)])
      case Err(ValueError(_)) => conn.(reg := reg)
      case Err(OtherError) => conn.(reg := reg, status := Crashed)
  }

  /**
   * One iteration of the `while True` loop, or the disconnect handler.
   * At most one message is sent, and only for a "prompt"; the registry
   * gains no id but the one a "setup" names.
   */
  function Step(conn: Conn, ev: Event, backend: Backend): (next: Conn)
    requires conn.status == Open
    ensures next.sent == conn.sent ||
      (&& IsPrompt(ev) && conn.sent <= next.sent && |next.sent| == |conn.sent| + 1
       && next.sent[|conn.sent|].kind == "text" && next.sent[|conn.sent|].last)
    ensures next.reg.sessions.Keys <= conn.reg.sessions.Keys + (if SetupId(ev).Some? then {SetupId(ev).value} else {})
    ensures Numbered(conn.reg) ==> Numbered(next.reg)
    ensures next.status == Closed <==> ev.Disconnect?
  {
    match ev
    case Disconnect =>
      var reg := if Truthy(conn.callSid) then Remove(conn.reg, conn.callSid.value) else conn.reg;
      conn.(reg := reg, status := Closed)
    case Frame(None) => conn.(status := Crashed)
    case Frame(Some(m)) =>
      if m.kind.None? then conn.(status := Crashed)
      else if m.kind.value == "setup" then
        if m.callSid.None? then conn.(status := Crashed)
        else conn.(callSid := m.callSid, reg := Create(conn.reg, m.callSid.value))
      else if m.kind.value == "prompt" then OnPrompt(conn, m.voicePrompt, backend)
      else conn
  }

  /** The loop over a whole event sequence; it stops once the connection is closed or crashed. */
  function Run(conn: Conn, events: seq<Event>, backend: Backend): (final: Conn)
    ensures conn.status != Open ==> final == conn
    ensures final.status == Open ==> forall i :: 0 <= i < |events| ==> !events[i].Disconnect?
    ensures conn.status == Open && Disconnect in events ==> final.status != Open
    decreases |events|
  {
    if events == [] || conn.status != Open then conn
    else Run(Step(conn, events[0], backend), events[1..], backend)
  }

  /**
   * The disconnect handler, for any open connection: a truthy `call_sid`
   * loses its session and every other entry stays; a `None` or empty
   * `call_sid` leaves the registry alone; nothing is sent.
   */
  lemma DisconnectRemovesCurrent(conn: Conn, backend: Backend)
    requires conn.status == Open
    ensures var next := Step(conn, Disconnect, backend);
      && next.status == Closed && next.sent == conn.sent
      && next.reg == (if Truthy(conn.callSid) then Remove(conn.reg, conn.callSid.value) else conn.reg)
  {
  }

  /** The number of "prompt" frames among `events`. */
  function Prompts(events: seq<Event>): nat {
    if events == [] then 0 else (if IsPrompt(events[0]) then 1 else 0) + Prompts(events[1..])
  }

  /** The call ids the "setup" frames among `events` name. */
  function SetupIds(events: seq<Event>): set<string> {
    if events == [] then {}
    else (if SetupId(events[0]).Some? then {SetupId(events[0]).value} else {}) + SetupIds(events[1..])
  }

  /** A "setup" makes its `callSid` the connection's call and gives it a fresh, empty session. */
  lemma SetupStartsSession(conn: Conn, c: string, prompt: Option<string>, backend: Backend)
    requires conn.status == Open && Numbered(conn.reg)
    ensures var next := Step(conn, Frame(Some(Message(Some("setup"), Some(c), prompt))), backend);
      && next.callSid == Some(c) && next.status == Open && next.sent == conn.sent
      && c in next.reg.sessions && next.reg.sessions[c].history == []
      && forall d :: d in conn.reg.sessions ==> next.reg.sessions[c] != conn.reg.sessions[d]
  {
  }

  /** A "prompt" without a live session is dropped: nothing is sent and nothing changes. */
  lemma PromptWithoutSessionDropped(conn: Conn, m: Message, backend: Backend)
    requires conn.status == Open && m.kind == Some("prompt") && !Live(conn)
    ensures Step(conn, Frame(Some(m)), backend) == conn
  {
  }

  /** A "prompt" with a live session whose backend replies sends exactly that reply, recorded in the session. */
  lemma PromptWithSessionReplies(conn: Conn, p: string, sid: Option<string>, backend: Backend, t: string)
    requires conn.status == Open && Live(conn)
    requires backend(conn.reg.sessions[conn.callSid.value].history, p) == Text(t)
    ensures var next := Step(conn, Frame(Some(Message(Some("prompt"), sid, Some(p)))), backend);
      && next.sent == conn.sent + [Outbound("text", t, true)]
      && next.status == Open && next.callSid == conn.callSid
      && next.reg.sessions[conn.callSid.value].history
         == conn.reg.sessions[conn.callSid.value].history + [User(p), Model(t)]
  {
  }

  /** A `ValueError` from the backend is swallowed: nothing is sent, nothing changes, the loop goes on. */
  lemma ValueErrorIgnored(conn: Conn, p: string, sid: Option<string>, backend: Backend, msg: string)
    requires conn.status == Open && Live(conn)
    requires backend(conn.reg.sessions[conn.callSid.value].history, p) == Raised(ValueError(msg))
    ensures Step(conn, Frame(Some(Message(Some("prompt"), sid, Some(p)))), backend) == conn
  {
  }

  /** "interrupt" and unknown message types change nothing and send nothing. */
  lemma OtherKindsIgnored(conn: Conn, m: Message, backend: Backend)
    requires conn.status == Open && m.kind.Some? && m.kind.value !in {"setup", "prompt"}
    ensures Step(conn, Frame(Some(m)), backend) == conn
  {
  }

  /** Every message sent is a final "text" message, one at most per "prompt" frame. */
  lemma {:induction false} RunSendsRepliesOnly(conn: Conn, events: seq<Event>, backend: Backend)
    ensures var final := Run(conn, events, backend);
      && conn.sent <= final.sent
      && |final.sent| <= |conn.sent| + Prompts(events)
      && forall i :: |conn.sent| <= i < |final.sent| ==> final.sent[i].kind == "text" && final.sent[i].last
    decreases |events|
  {
    if events != [] && conn.status == Open {
      var next := Step(conn, events[0], backend);
      RunSendsRepliesOnly(next, events[1..], backend);
    }
  }

  /** The registry only ever gains the call ids named by "setup" frames. */
  lemma {:induction false} RunRegistersSetupIdsOnly(conn: Conn, events: seq<Event>, backend: Backend)
    ensures Run(conn, events, backend).reg.sessions.Keys <= conn.reg.sessions.Keys + SetupIds(events)
    decreases |events|
  {
    if events != [] && conn.status == Open {
      var next := Step(conn, events[0], backend);
      RunRegistersSetupIdsOnly(next, events[1..], backend);
    }
  }

  /** Every handle in the registry stays distinguishable from every later one. */
  lemma {:induction false} RunKeepsNumbered(conn: Conn, events: seq<Event>, backend: Backend)
    requires Numbered(conn.reg)
    ensures Numbered(Run(conn, events, backend).reg)
    decreases |events|
  {
    if events != [] && conn.status == Open {
      RunKeepsNumbered(Step(conn, events[0], backend), events[1..], backend);
    }
  }

  /** The setup frame for call id `c`. */
  function Setup(c: string): Event {
    Frame(Some(Message(Some("setup"), Some(c), None)))
  }

  /**
   * Two setups on one socket then a disconnect: only the latest call's
   * session is removed; the earlier one stays registered.
   */
  lemma DisconnectClearsLatestOnly(reg: Registry, c1: string, c2: string, backend: Backend)
    requires c1 != c2 && c2 != ""
    ensures var final := Run(Start(reg), [Setup(c1), Setup(c2), Disconnect], backend);
      && final.status == Closed
      && c1 in final.reg.sessions && c2 !in final.reg.sessions
  {
    var s0 := Start(reg);
    var s1 := Step(s0, Setup(c1), backend);
    var s2 := Step(s1, Setup(c2), backend);
    var s3 := Step(s2, Disconnect, backend);
    assert c1 in s2.reg.sessions;
    assert [Setup(c1), Setup(c2), Disconnect][1..] == [Setup(c2), Disconnect];
    assert [Setup(c2), Disconnect][1..] == [Disconnect];
    assert Run(s2, [Disconnect], backend) == s3;
    assert Run(s1, [Setup(c2), Disconnect], backend) == s3;
  }

  /** A setup whose `callSid` is the empty string is never cleaned up: `""` is falsy. */
  lemma EmptyCallSidLeaks(reg: Registry, backend: Backend)
    ensures var final := Run(Start(reg), [Setup(""), Disconnect], backend);
      final.status == Closed && "" in final.reg.sessions
  {
    var s1 := Step(Start(reg), Setup(""), backend);
    var s2 := Step(s1, Disconnect, backend);
    assert Run(s2, [], backend) == s2;
    assert [Setup(""), Disconnect][1..] == [Disconnect];
    assert [Disconnect][1..] == [];
  }

  /** A frame that is not JSON ends the handler without cleanup: the call's session survives the disconnect. */
  lemma MalformedFrameLeaks(reg: Registry, c: string, backend: Backend)
    ensures var final := Run(Start(reg), [Setup(c), Frame(None), Disconnect], backend);
      final.status == Crashed && c in final.reg.sessions
  {
    var s1 := Step(Start(reg), Setup(c), backend);
    var s2 := Step(s1, Frame(None), backend);
    assert [Setup(c), Frame(None), Disconnect][1..] == [Frame(None), Disconnect];
    assert Run(s2, [Disconnect], backend) == s2;
  }

  /**
   * Any exception other than the disconnect ends the handler on the spot:
   * the failing event changes only the status, no later event (a disconnect
   * included) is handled, so the registry keeps the call's session.
   */
  lemma CrashSkipsCleanup(conn: Conn, ev: Event, rest: seq<Event>, backend: Backend)
    requires conn.status == Open && Step(conn, ev, backend).status == Crashed
    ensures var final := Run(conn, [ev] + rest, backend);
      && final.status == Crashed
      && final.reg == conn.reg && final.sent == conn.sent && final.callSid == conn.callSid
  {
    var next := Step(conn, ev, backend);
    assert ([ev] + rest)[1..] == rest;
    assert Run(conn, [ev] + rest, backend) == Run(next, rest, backend) == next;
    if ev.Frame? && ev.message.Some? && ev.message.value.kind == Some("prompt") && Live(conn) && ev.message.value.voicePrompt.Some? {
      var out := Respond(conn.reg, conn.callSid.value, ev.message.value.voicePrompt.value, backend);
      assert out.1.Err?;
    }
  }

  /**
   * The endpoint itself: the loop over `events`, updating `call_sid` and
   * the shared `llm` in place. It does what `Run` says.
   */
  method Serve(llm: GeminiLLM, events: seq<Event>, backend: Backend) returns (sent: seq<Outbound>, status: Status)
    requires llm.Valid()
    modifies llm
    ensures var final := Run(Start(old(llm.State())), events, backend);
      llm.State() == final.reg && sent == final.sent && status == final.status
    ensures llm.Valid()
  {
    var callSid: Option<string> := None;
    sent, status := [], Open;
    var i := 0;
    while i < |events| && status == Open
      invariant i <= |events| && llm.Valid()
      decreases |events| - i
      invariant Run(Start(old(llm.State())), events, backend)
        == Run(Conn(callSid, llm.State(), sent, status), events[i..], backend)
    {
      assert events[i..][1..] == events[i + 1..];
      callSid, sent, status := Handle(llm, callSid, sent, events[i], backend);
      i := i + 1;
    }
  }

  /** One pass of the loop body, or the disconnect handler, on the open connection `call_sid`, `llm`, `sent`: it does what `Step` says. */
  method Handle(llm: GeminiLLM, callSid: Option<string>, sent: seq<Outbound>, ev: Event, backend: Backend)
    returns (callSid': Option<string>, sent': seq<Outbound>, status: Status)
    requires llm.Valid()
    modifies llm
    ensures Conn(callSid', llm.State(), sent', status) == Step(Conn(callSid, old(llm.State()), sent, Open), ev, backend)
    ensures llm.Valid()
  {
    callSid', sent', status := callSid, sent, Open;
    match ev {
    case Disconnect =>
      if Truthy(callSid) {
        llm.RemoveSession(callSid.value);
      }
      status := Closed;
    case Frame(None) =>
      status := Crashed;
    case Frame(Some(m)) =>
      if m.kind.None? {
        status := Crashed;
      } else if m.kind.value == "setup" {
        if m.callSid.None? {
          status := Crashed;
        } else {
          callSid' := m.callSid;
          llm.CreateSession(m.callSid.value);
        }
      } else if m.kind.value == "prompt" {
        if !Truthy(callSid) || !llm.HasSession(callSid.value) {
          // dropped: the loop continues
        } else if m.voicePrompt.None? {
          status := Crashed;
        } else {
          var r := llm.GetResponse(callSid.value, m.voicePrompt.value, backend);
          match r {
          case Ok(t) =>
            sent' := sent + [FinalText(t)];
          case Err(ValueError(_)) =>
          case Err(OtherError) =>
            status := Crashed;
          }
        }
      }
    }
  }
}
