/** What the client exchanges with the world outside: messages, launcher calls and their outcomes. */
module ClientWorld {
  import opened Wrappers

  const IPC_PROTOCOL_VERSION: nat := 3
  const MAX_PLAYBACK_SIZE: nat := 512

  datatype CommandType =
    | CREATE_SESSION | DELETE_SESSION | SEND_KEY | TEST_SEND_KEY | SEND_COMMAND | GET_CONFIG | SET_CONFIG
    | SET_REQUEST | SYNC_DATA | SHUTDOWN | RELOAD | CLEANUP | CLEAR_USER_HISTORY | CLEAR_USER_PREDICTION
    | CLEAR_UNUSED_USER_PREDICTION | NO_OPERATION

  /** A request without its session id; key, command and context are one payload. */
  datatype Body = Body(kind: CommandType, payload: string, config: Option<string>)

  datatype Input = Input(id: nat, body: Body)

  datatype Output = Output(id: nat, success: bool, consumed: Option<bool>, mode: Option<nat>, hasResult: bool,
      config: Option<string>)

  datatype Transfer = TimedOut | Failed | Unparsable | Parsed(output: Output)

  /** How far one call got: no client object, no connection, or what the connected server did. */
  datatype Outcome = NoClient | NotConnected | Connected(protocol: nat, older: bool, transfer: Transfer)

  datatype ServerError = SERVER_TIMEOUT_ERROR | SERVER_BROKEN_MESSAGE_ERROR | SERVER_VERSION_MISMATCH_ERROR
      | SERVER_FATAL_ERROR

  /** sessionsLost: the server had forgotten all sessions by the time of the exchange. */
  datatype Event =
    | Exchange(input: Input, outcome: Outcome, sessionsLost: bool)
    | Ping
    | StartServer(ok: bool)
    | ForceTerminateServer(ok: bool)
    | WaitServer(ok: bool)
    | OnFatal(error: ServerError)

  /** The parsed reply of a server that speaks the client's protocol. */
  function ReplyOf(o: Outcome): Option<Output> {
    if o.Connected? && o.protocol == IPC_PROTOCOL_VERSION && o.transfer.Parsed? then Some(o.transfer.output) else None
  }

  predicate IsReplied(e: Event) {
    e.Exchange? && ReplyOf(e.outcome).Some?
  }

  /** What recovery cannot get around: a launcher call that fails, a lost or refused call, an old server. */
  predicate Fault(e: Event) {
    match e
    case StartServer(ok) => !ok
    case ForceTerminateServer(ok) => !ok
    case Exchange(input, outcome, _) =>
      || ReplyOf(outcome) == None
      || (input.body.kind == CREATE_SESSION && !ReplyOf(outcome).value.success)
      || outcome.older
    case _ => false
  }

  /** What is no fault: a launcher that obeys, a report, a ping, and an answer of a server that is not old. */
  lemma NoFaults(e: Event)
    ensures e == StartServer(true) || e == ForceTerminateServer(true) ==> !Fault(e)
    ensures e.WaitServer? || e.OnFatal? || e.Ping? ==> !Fault(e)
    ensures IsReplied(e) && !e.outcome.older && ReplyOf(e.outcome).value.success ==> !Fault(e)
    ensures IsReplied(e) && !e.outcome.older && e.input.body.kind != CREATE_SESSION ==> !Fault(e)
  {
  }

  ghost predicate FaultSince(log: seq<Event>, p: nat) {
    exists k :: p <= k < |log| && Fault(log[k])
  }

  lemma FaultStays(was: seq<Event>, log: seq<Event>, p: nat, q: nat)
    requires was <= log && q <= p && FaultSince(was, p)
    ensures FaultSince(log, q)
  {
    var k :| p <= k < |was| && Fault(was[k]);
    assert log[k] == was[k];
  }

  /** StartServer attempts in a log. */
  function Starts(log: seq<Event>): nat {
    if log == [] then 0 else Starts(log[..|log| - 1]) + if log[|log| - 1].StartServer? then 1 else 0
  }

  /** IPC clients opened in a log, except by PingServer. */
  function Opened(log: seq<Event>): nat {
    if log == [] then 0 else Opened(log[..|log| - 1]) + if log[|log| - 1].Exchange? then 1 else 0
  }

  lemma OneMore(log: seq<Event>, e: Event)
    ensures Starts(log + [e]) == Starts(log) + if e.StartServer? then 1 else 0
    ensures Opened(log + [e]) == Opened(log) + if e.Exchange? then 1 else 0
  {
    assert (log + [e])[..|log|] == log;
  }

  /** The log grew by one exchange of this input. */
  ghost predicate Sent(was: seq<Event>, log: seq<Event>, input: Input) {
    |log| == |was| + 1 && was <= log && log[|was|].Exchange? && log[|was|].input == input
  }

  /** The environment answers as it likes; its log is everything that happened. */
  class World {
    ghost var log: seq<Event>

    constructor ()
      ensures log == []
    {
      log := [];
    }

    method Record(ghost e: Event)
      modifies this
      ensures log == old(log) + [e]
      ensures Starts(log) == old(Starts(log)) + if e.StartServer? then 1 else 0
      ensures Opened(log) == old(Opened(log)) + if e.Exchange? then 1 else 0
    {
      OneMore(log, e);
      log := log + [e];
    }

    /** One IPC client: created, connected, called, its response parsed, as far as that goes. */
    method Exchange(input: Input) returns (outcome: Outcome)
      modifies this
      ensures Sent(old(log), log, input) && log[|log| - 1].outcome == outcome
      ensures Starts(log) == old(Starts(log)) && Opened(log) == old(Opened(log)) + 1
    {
      outcome := *;
      ghost var lost: bool := *;
      Record(Event.Exchange(input, outcome, lost));
    }

    method Ping(input: Input) returns (ok: bool)
      modifies this
      ensures log == old(log) + [Event.Ping]
      ensures Starts(log) == old(Starts(log)) && Opened(log) == old(Opened(log))
    {
      ok := *;
      Record(Event.Ping);
    }

    method StartServer() returns (ok: bool)
      modifies this
      ensures log == old(log) + [Event.StartServer(ok)]
      ensures Starts(log) == old(Starts(log)) + 1 && Opened(log) == old(Opened(log))
    {
      ok := *;
      Record(Event.StartServer(ok));
    }

    method ForceTerminateServer() returns (ok: bool)
      modifies this
      ensures log == old(log) + [Event.ForceTerminateServer(ok)]
      ensures Starts(log) == old(Starts(log)) && Opened(log) == old(Opened(log))
    {
      ok := *;
      Record(Event.ForceTerminateServer(ok));
    }

    method WaitServer() returns (ok: bool)
      modifies this
      ensures log == old(log) + [Event.WaitServer(ok)]
      ensures Starts(log) == old(Starts(log)) && Opened(log) == old(Opened(log))
    {
      ok := *;
      Record(Event.WaitServer(ok));
    }

    method OnFatal(error: ServerError)
      modifies this
      ensures log == old(log) + [Event.OnFatal(error)]
      ensures Starts(log) == old(Starts(log)) && Opened(log) == old(Opened(log))
    {
      Record(Event.OnFatal(error));
    }
  }
}
