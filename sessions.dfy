/**
 * `GeminiLLM` (llm.py, and its identical copy services/api/llm.py): the
 * per-call registry of chat sessions, keyed by the call id (`call_sid`).
 *
 * The Gemini SDK is not visible: a chat handle is modelled as a value
 * carrying a serial number (so a handle from a later `start_chat` is told
 * apart from every earlier one) and the conversation so far, and the model's
 * behaviour is a `Backend` parameter mapping that conversation and a prompt
 * to a reply or a raised error.
 */
module Sessions {
  import opened Wrappers

  /** One turn of a conversation. */
  datatype Turn = User(text: string) | Model(text: string)

  /** A handle returned by `model.start_chat(history=[])`. */
  datatype ChatSession = ChatSession(serial: nat, history: seq<Turn>)

  /** The exceptions the model distinguishes: `ValueError` and anything else. */
  datatype Fault = ValueError(message: string) | OtherError

  /** What `send_message_async` does with one prompt: a reply text, or an exception. */
  datatype Reply = Text(text: string) | Raised(fault: Fault)

  /** The chat backend: the reply to a prompt given the conversation so far. */
  type Backend = (seq<Turn>, string) -> Reply

  /** `self.sessions`, with the number of handles started so far. */
  datatype Registry = Registry(sessions: map<string, ChatSession>, started: nat)

  /** Every registered handle was started before the next one will be. */
  predicate Numbered(reg: Registry) {
    forall c :: c in reg.sessions ==> reg.sessions[c].serial < reg.started
  }

  /** The message `get_response` raises for an unknown call id. */
  const NoSessionMessage: string := "No session found for call_sid: "

  /**
   * `create_session(call_sid)`: a fresh, empty-history handle is stored
   * under `c`, replacing any earlier one; every other entry is untouched.
   */
  function Create(reg: Registry, c: string): (r: Registry)
    ensures c in r.sessions && r.sessions[c].history == []
    ensures r.sessions.Keys == reg.sessions.Keys + {c}
    ensures forall d :: d in reg.sessions && d != c ==> r.sessions[d] == reg.sessions[d]
    ensures Numbered(reg) ==> Numbered(r) && forall d :: d in reg.sessions ==> r.sessions[c] != reg.sessions[d]
  {
    Registry(reg.sessions[c := ChatSession(reg.started, [])], reg.started + 1)
  }

  /** `remove_session(call_sid)`: `c` is no longer registered; nothing changes if it was not. */
  function Remove(reg: Registry, c: string): (r: Registry)
    ensures c !in r.sessions
    ensures r.sessions.Keys == reg.sessions.Keys - {c}
    ensures forall d :: d in r.sessions ==> r.sessions[d] == reg.sessions[d]
    ensures c !in reg.sessions ==> r == reg
    ensures Numbered(reg) ==> Numbered(r)
  {
    if c in reg.sessions then reg.(sessions := reg.sessions - {c}) else reg
  }

  /**
   * `get_response(call_sid, user_prompt)`: an unknown id raises
   * `ValueError` and changes nothing; otherwise the session's reply is
   * returned and the exchange is recorded in that session's history. A
   * backend exception propagates and leaves the history as it was.
   */
  function Respond(reg: Registry, c: string, prompt: string, backend: Backend): (out: (Registry, Result<string, Fault>))
    ensures c !in reg.sessions ==> out == (reg, Err(ValueError(NoSessionMessage + c)))
    ensures out.0.sessions.Keys == reg.sessions.Keys && out.0.started == reg.started
    ensures forall d :: d in reg.sessions && d != c ==> out.0.sessions[d] == reg.sessions[d]
    ensures out.1.Err? ==> out.0 == reg
    ensures out.1.Ok? ==>
      && c in reg.sessions
      && var s := reg.sessions[c];
         && backend(s.history, prompt) == Text(out.1.value)
         && out.0.sessions[c] == s.(history := s.history + [User(prompt), Model(out.1.value)])
    ensures c in reg.sessions && backend(reg.sessions[c].history, prompt).Raised? ==>
      out.1 == Err(backend(reg.sessions[c].history, prompt).fault)
    ensures Numbered(reg) ==> Numbered(out.0)
  {
    if c !in reg.sessions then (reg, Err(ValueError(NoSessionMessage + c)))
    else
      var s := reg.sessions[c];
      match backend(s.history, prompt)
      case Text(t) => (reg.(sessions := reg.sessions[c := s.(history := s.history + [User(prompt), Model(t)])]), Ok(t))
      case Raised(f) => (reg, Err(f))
  }

  /** Re-creating a registered call's session discards its conversation for a handle never seen before. */
  lemma RecreateReplaces(reg: Registry, c: string)
    requires Numbered(reg) && c in reg.sessions
    ensures Create(reg, c).sessions[c] != reg.sessions[c]
    ensures Create(reg, c).sessions[c].history == []
  {
  }

  /** `GeminiLLM`: the registry as an object whose `sessions` dict is updated in place. */
  class GeminiLLM {
    /** `self.sessions`. */
    var sessions: map<string, ChatSession>
    /** How many handles `start_chat` has produced. */
    var started: nat

    function State(): Registry
      reads this
    {
      Registry(sessions, started)
    }

    /** Every stored handle was started before the next one will be, so a new handle is never confused with a stored one. */
    predicate Valid()
      reads this
    {
      Numbered(State())
    }

    /** `GeminiLLM()`: no sessions. */
    constructor ()
      ensures State() == Registry(map[], 0) && Valid()
    {
      sessions := map[];
      started := 0;
    }

    /** `create_session(call_sid)`. */
    method CreateSession(c: string)
      requires Valid()
      modifies this
      ensures State() == Create(old(State()), c) && Valid()
      ensures forall d :: d in old(sessions) ==> sessions[c] != old(sessions)[d]
    {
      sessions := sessions[c := ChatSession(started, [])];
      started := started + 1;
    }

    /** `get_session(call_sid)`: `dict.get`, `None` exactly when the id is not registered. */
    function GetSession(c: string): (r: Option<ChatSession>)
      reads this
      ensures r.None? <==> c !in sessions
      ensures r.Some? ==> r.value == sessions[c]
    {
      if c in sessions then Some(sessions[c]) else None
    }

    /** `remove_session(call_sid)`. */
    method RemoveSession(c: string)
      requires Valid()
      modifies this
      ensures State() == Remove(old(State()), c) && Valid()
    {
      if c in sessions {
        sessions := sessions - {c};
      }
    }

    /** `get_response(call_sid, user_prompt)`; a raised exception is an `Err` result. */
    method GetResponse(c: string, prompt: string, backend: Backend) returns (r: Result<string, Fault>)
      requires Valid()
      modifies this
      ensures (State(), r) == Respond(old(State()), c, prompt, backend) && Valid()
    {
      var chatSession := GetSession(c);
      if chatSession.None? {
        return Err(ValueError(NoSessionMessage + c));
      }
      var s := chatSession.value;
      var reply := backend(s.history, prompt);
      match reply
      case Text(t) =>
        sessions := sessions[c := s.(history := s.history + [User(prompt), Model(t)])];
        r := Ok(t);
      case Raised(f) =>
        r := Err(f);
    }

    /** `has_session(call_sid)`: agrees with `get_session`. */
    function HasSession(c: string): (b: bool)
      reads this
      ensures b <==> GetSession(c).Some?
    {
      c in sessions
    }
  }
}
