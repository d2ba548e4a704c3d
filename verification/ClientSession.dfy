/** The IPC client session: eight statuses, a bounded journal, server restart and replay. */
module ClientSession {
  import opened Wrappers
  import opened ClientWorld

  datatype Status =
    | SERVER_UNKNOWN | SERVER_SHUTDOWN | SERVER_INVALID_SESSION | SERVER_OK
    | SERVER_TIMEOUT | SERVER_VERSION_MISMATCH | SERVER_BROKEN_MESSAGE | SERVER_FATAL

  /** The place of a status in the enumeration. */
  function Place(s: Status): nat {
    match s
    case SERVER_UNKNOWN => 0
    case SERVER_SHUTDOWN => 1
    case SERVER_INVALID_SESSION => 2
    case SERVER_OK => 3
    case SERVER_TIMEOUT => 4
    case SERVER_VERSION_MISMATCH => 5
    case SERVER_BROKEN_MESSAGE => 6
    case SERVER_FATAL => 7
  }

  /** Statuses from SERVER_TIMEOUT on. */
  predicate Bad(s: Status)
    ensures Bad(s) <==> Place(s) >= Place(SERVER_TIMEOUT) == 4
  {
    s.SERVER_TIMEOUT? || s.SERVER_VERSION_MISMATCH? || s.SERVER_BROKEN_MESSAGE? || s.SERVER_FATAL?
  }

  /** What an exchange makes of the status. */
  function StatusAfter(s: Status, o: Outcome): Status {
    match o
    case NoClient => SERVER_FATAL
    case NotConnected => if s.SERVER_UNKNOWN? then s else SERVER_SHUTDOWN
    case Connected(protocol, _, transfer) =>
      if protocol != IPC_PROTOCOL_VERSION then s
      else match transfer
        case TimedOut => SERVER_TIMEOUT
        case Failed => SERVER_SHUTDOWN
        case Unparsable => SERVER_BROKEN_MESSAGE
        case Parsed(_) => s
  }

  function ProtocolAfter(o: Outcome): nat {
    if o.Connected? then o.protocol else IPC_PROTOCOL_VERSION
  }

  /** The server is older than the client, by the version it reports or by the protocol it speaks. */
  predicate IsOld(o: Outcome) {
    o.Connected? && (o.protocol < IPC_PROTOCOL_VERSION || (ReplyOf(o).Some? && o.older))
  }

  /** The loss of a session that a second trial may make good: the server is gone, or no longer knows the id. */
  predicate Lost(o: Outcome, id: nat) {
    || o.NotConnected?
    || (o.Connected? && o.protocol == IPC_PROTOCOL_VERSION && o.transfer.Failed?)
    || (ReplyOf(o).Some? && ReplyOf(o).value.id != id)
  }

  /** What the first trial makes of SERVER_OK. */
  function StatusAfterTrial(o: Outcome, id: nat): Status {
    if ProtocolAfter(o) != IPC_PROTOCOL_VERSION then SERVER_VERSION_MISMATCH
    else if ReplyOf(o).Some? && ReplyOf(o).value.id != id then SERVER_INVALID_SESSION
    else StatusAfter(SERVER_OK, o)
  }

  /** A lost session is tried again, an answer is accepted, and anything else is fatal. */
  lemma TrialDecides(o: Outcome, id: nat)
    ensures var s := StatusAfterTrial(o, id);
            && (Lost(o, id) <==> s.SERVER_SHUTDOWN? || s.SERVER_INVALID_SESSION?)
            && (ReplyOf(o).Some? && !Lost(o, id) <==> s == SERVER_OK)
            && (ReplyOf(o) == None && !Lost(o, id) <==> Bad(s))
  {
  }

  const CREATE_BODY := Body(CREATE_SESSION, "", None)

  function SetRequestBody(request: string): Body {
    Body(SET_REQUEST, request, None)
  }

  /** The preferences go with every request that has none of its own to send. */
  function WithPreferences(preferences: Option<string>, b: Body): (r: Body)
    ensures r.kind == b.kind && r.payload == b.payload
    ensures r.config == b.config || r.config == preferences != None
    ensures preferences != None ==> r.config == preferences
  {
    if preferences == None then b else b.(config := preferences)
  }

  /** A CREATE_SESSION request, answered with this id. */
  ghost predicate Created(e: Event, id: nat) {
    && IsReplied(e) && e.input == Input(0, Body(CREATE_SESSION, "", None))
    && ReplyOf(e.outcome).value.success && ReplyOf(e.outcome).value.id == id
  }

  /** From position c on, the log is a new session and, where a request is set, its SET_REQUEST. */
  ghost predicate NewSession(log: seq<Event>, c: nat, id: nat, request: Option<string>) {
    && c < |log| && Created(log[c], id)
    && match request {
         case None => |log| == c + 1
         case Some(r) =>
           |log| == c + 2 && log[c + 1].Exchange? && log[c + 1].input == Input(id, Body(SET_REQUEST, r, None))
       }
  }

  /** The journal after an answered input; consumed keys with a result end what has to be replayed. */
  function Journal(h: seq<Input>, input: Input, output: Output): (j: seq<Input>)
    ensures |h| <= MAX_PLAYBACK_SIZE ==> |j| <= MAX_PLAYBACK_SIZE
  {
    if output.consumed != Some(true) then h
    else if input.body.kind == SEND_KEY && output.hasResult then []
    else if |h| < MAX_PLAYBACK_SIZE then h + [input]
    else h
  }

  /** 512 entries are remembered, and no more. */
  lemma JournalBound(h: seq<Input>, input: Input, output: Output)
    requires output.consumed == Some(true) && !output.hasResult
    ensures Journal(h, input, output) == if |h| < 512 then h + [input] else h
    ensures Replayable(h) == if |h| < 512 then h else []
  {
  }

  /** A reply is a parsed message of a server that speaks protocol 3. */
  lemma ReplyMeans(o: Outcome)
    ensures ReplyOf(o).Some? <==> o.Connected? && o.protocol == 3 && o.transfer.Parsed?
    ensures ReplyOf(o).Some? ==> ReplyOf(o).value == o.transfer.output
  {
  }

  ghost predicate SameBodies(h: seq<Input>, j: seq<Input>) {
    |h| == |j| && forall k :: 0 <= k < |h| ==> h[k].body == j[k].body
  }

  ghost predicate AllReplied(log: seq<Event>, p: nat) {
    forall k :: p <= k < |log| ==> IsReplied(log[k])
  }

  lemma Shorter(was: seq<Event>, log: seq<Event>, p: nat)
    requires was <= log && AllReplied(log, p)
    ensures AllReplied(was, p)
  {
  }

  /** From position p on, the log is a part of the journal sent to session id. */
  ghost predicate Resent(h: seq<Input>, id: nat, log: seq<Event>, p: nat) {
    p <= |log| <= p + |h| && forall k :: p <= k < |log| ==> log[k].Exchange? && log[k].input == Input(id, h[k - p].body)
  }

  /** All of the journal, or up to a failure. */
  ghost predicate Replays(h: seq<Input>, id: nat, log: seq<Event>, p: nat) {
    && Resent(h, id, log, p)
    && (AllReplied(log, p) ==> |log| == p + |h|)
  }

  /** The last thing that happened is that this input got this reply. */
  ghost predicate Answers(log: seq<Event>, input: Input, output: Output) {
    log != [] && log[|log| - 1].Exchange? && log[|log| - 1].input == input
        && ReplyOf(log[|log| - 1].outcome) == Some(output)
  }

  lemma FaultIsLater(log: seq<Event>, p: nat)
    requires FaultSince(log, p)
    ensures p < |log|
  {
  }

  lemma FaultLast(log: seq<Event>, p: nat)
    requires p < |log| && Fault(log[|log| - 1])
    ensures FaultSince(log, p)
  {
  }

  lemma OldOrLost(log: seq<Event>, p: nat)
    requires p < |log| && log[|log| - 1].Exchange?
    requires var o := log[|log| - 1].outcome; ReplyOf(o) == None || (o.Connected? && o.older)
    ensures FaultSince(log, p)
  {
    FaultLast(log, p);
  }

  lemma RetryFailed(sent: seq<Event>, log: seq<Event>, p: nat, replay: nat)
    requires sent <= log && p <= replay <= |sent|
    requires FaultSince(sent, replay)
               || (|sent| < |log| && log[|log| - 1].Exchange? && ReplyOf(log[|log| - 1].outcome) == None)
    ensures FaultSince(log, p)
  {
    if FaultSince(sent, replay) { FaultStays(sent, log, replay, p); } else { FaultLast(log, p); }
  }

  lemma StartFailed(log: seq<Event>, p: nat)
    requires p < |log| && log[p] == StartServer(false)
    ensures FaultSince(log, p)
  {
  }

  lemma IsAnswer(was: seq<Event>, log: seq<Event>, input: Input, output: Output)
    requires Sent(was, log, input) && ReplyOf(log[|log| - 1].outcome) == Some(output)
    ensures Answers(log, input, output)
  {
  }

  /** What PlaybackHistory would send. */
  function Replayable(h: seq<Input>): seq<Input> {
    if |h| < MAX_PLAYBACK_SIZE then h else []
  }

  /** Before its last event the log holds a new session from c on, and the journal from p on. */
  ghost predicate Recovers(log: seq<Event>, c: nat, p: nat, id: nat, request: Option<string>, h: seq<Input>) {
    c < p < |log| && NewSession(log[..p], c, id, request) && Replays(h, id, log[..|log| - 1], p)
  }

  /** How a call came to succeed: in the session it had, in a new one, or at its second trial. */
  datatype Course = Direct | Fresh(created: nat) | Recovered(created: nat, replay: nat)

  ghost predicate Ran(course: Course, was: seq<Event>, log: seq<Event>, id: nat, request: Option<string>,
                      h: seq<Input>, j: seq<Input>, input: Input, output: Output)
  {
    match course
    case Direct => |log| == |was| + 1 && output.id == id && j == Journal(h, input, output)
    case Fresh(c) =>
      |was| <= c < |log| && NewSession(log[..|log| - 1], c, id, request) && output.id == id
          && j == Journal(h, input, output)
    case Recovered(c, p) =>
      |was| <= c &&
      exists r :: SameBodies(Replayable(h), r) && Recovers(log, c, p, id, request, r) && j == Journal(r, input, output)
  }

  function NoOutput(): Output {
    Output(0, true, None, None, false, None)
  }

  class Client {
    const world: World
    var hasFactory: bool
    var id: nat
    var status: Status
    var protocolVersion: nat
    var serverIsOlder: bool
    var history: seq<Input>
    var lastMode: nat
    var request: Option<string>
    var preferences: Option<string>
    var directModeConfig: string  // the configuration the direct-mode keys are taken from

    ghost predicate Valid()
      reads this
    {
      |history| <= MAX_PLAYBACK_SIZE
    }

    constructor (world: World, request: Option<string>, config: string)
      ensures Valid() && this.world == world && this.request == request
      ensures hasFactory && id == 0 && status == SERVER_UNKNOWN && protocolVersion == 0 && history == []
                && preferences == None
      ensures directModeConfig == config
    {
      this.world := world;
      this.request := request;
      hasFactory, id, status, protocolVersion, serverIsOlder := true, 0, SERVER_UNKNOWN, 0, false;
      history, lastMode, preferences, directModeConfig := [], 0, None, config;
    }

    // ---------- one call ----------

    /** The most primitive call: at most one exchange, and none in a bad status. */
    method Call(input: Input) returns (r: Option<Output>)
      modifies this`status, this`protocolVersion, this`serverIsOlder, world
      ensures Starts(world.log) == old(Starts(world.log))
      ensures Bad(old(status)) || !hasFactory ==>
                r == None && status == old(status) && protocolVersion == old(protocolVersion)
                  && world.log == old(world.log)
      ensures !Bad(old(status)) && hasFactory ==>
                && Sent(old(world.log), world.log, input)
                && var o := world.log[|world.log| - 1].outcome;
                   && r == ReplyOf(o) && status == StatusAfter(old(status), o) && protocolVersion == ProtocolAfter(o)
                   && serverIsOlder == (o.Connected? && o.older)
    {
      if Bad(status) || !hasFactory {
        return None;
      }
      var o := world.Exchange(input);
      protocolVersion, serverIsOlder := IPC_PROTOCOL_VERSION, false;
      if o.NoClient? {
        status := SERVER_FATAL;
        return None;
      }
      if o.NotConnected? {
        if !status.SERVER_UNKNOWN? { status := SERVER_SHUTDOWN; }
        return None;
      }
      protocolVersion, serverIsOlder := o.protocol, o.older;
      if protocolVersion != IPC_PROTOCOL_VERSION {
        return None;
      }
      if o.transfer.TimedOut? {
        status := SERVER_TIMEOUT;
        return None;
      }
      if o.transfer.Failed? {
        status := SERVER_SHUTDOWN;
        return None;
      }
      if o.transfer.Unparsable? {
        status := SERVER_BROKEN_MESSAGE;
        return None;
      }
      return Some(o.transfer.output);
    }

    method CallAndCheckVersion(input: Input) returns (r: Option<Output>)
      modifies this`status, this`protocolVersion, this`serverIsOlder, world
      ensures Starts(world.log) == old(Starts(world.log))
      ensures Bad(old(status)) || !hasFactory ==>
                && r == None && protocolVersion == old(protocolVersion) && world.log == old(world.log)
                && status == if protocolVersion == IPC_PROTOCOL_VERSION then old(status) else SERVER_VERSION_MISMATCH
      ensures !Bad(old(status)) && hasFactory ==>
                && Sent(old(world.log), world.log, input)
                && var o := world.log[|world.log| - 1].outcome;
                   && r == ReplyOf(o)
                   && status == if ProtocolAfter(o) == IPC_PROTOCOL_VERSION then StatusAfter(old(status), o)
                                else SERVER_VERSION_MISMATCH
    {
      r := Call(input);
      if r == None && protocolVersion != IPC_PROTOCOL_VERSION {
        status := SERVER_VERSION_MISMATCH;
      }
    }

    // ---------- connection and session ----------

    method EnsureConnection() returns (ok: bool)
      modifies this`status, world
      ensures ok ==> status == if old(status).SERVER_OK? then SERVER_OK else SERVER_INVALID_SESSION
      ensures !ok ==> status == SERVER_FATAL
      ensures old(world.log) <= world.log && Opened(world.log) == old(Opened(world.log))
      ensures Starts(world.log) == old(Starts(world.log))
                                   + if old(status).SERVER_SHUTDOWN? || old(status).SERVER_UNKNOWN? then 1 else 0
      ensures old(status).SERVER_SHUTDOWN? || old(status).SERVER_UNKNOWN? ==>
                world.log == old(world.log) + [StartServer(ok)] + if ok then [] else [OnFatal(SERVER_FATAL_ERROR)]
      ensures old(status).SERVER_TIMEOUT? ==> world.log == old(world.log) + [OnFatal(SERVER_TIMEOUT_ERROR)]
      ensures old(status).SERVER_BROKEN_MESSAGE? ==>
                world.log == old(world.log) + [OnFatal(SERVER_BROKEN_MESSAGE_ERROR)]
      ensures old(status).SERVER_VERSION_MISMATCH? ==>
                world.log == old(world.log) + [OnFatal(SERVER_VERSION_MISMATCH_ERROR)]
      ensures Bad(old(status)) ==> !ok
      ensures old(status).SERVER_OK? || old(status).SERVER_INVALID_SESSION? ==> ok
      ensures old(status).SERVER_OK? || old(status).SERVER_INVALID_SESSION? || old(status).SERVER_FATAL? ==>
                world.log == old(world.log)
    {
      match status {
        case SERVER_OK | SERVER_INVALID_SESSION => return true;
        case SERVER_FATAL => return false;
        case SERVER_TIMEOUT =>
          world.OnFatal(SERVER_TIMEOUT_ERROR);
          status := SERVER_FATAL;
          return false;
        case SERVER_BROKEN_MESSAGE =>
          world.OnFatal(SERVER_BROKEN_MESSAGE_ERROR);
          status := SERVER_FATAL;
          return false;
        case SERVER_VERSION_MISMATCH =>
          world.OnFatal(SERVER_VERSION_MISMATCH_ERROR);
          status := SERVER_FATAL;
          return false;
        case SERVER_SHUTDOWN | SERVER_UNKNOWN =>
          ok := world.StartServer();
          if ok {
            status := SERVER_INVALID_SESSION;
          } else {
            world.OnFatal(SERVER_FATAL_ERROR);
            status := SERVER_FATAL;
          }
      }
    }

    /** `InitInput`: the current session id and the preferences. */
    function InitInput(b: Body): Input
      reads this
    {
      Input(id, WithPreferences(preferences, b))
    }

    method CallCommand(kind: CommandType) returns (ok: bool)
      modifies this`status, this`protocolVersion, this`serverIsOlder, world
      ensures Starts(world.log) == old(Starts(world.log)) && old(world.log) <= world.log
      ensures Bad(old(status)) || !hasFactory ==>
                !ok && status == old(status) && protocolVersion == old(protocolVersion) && world.log == old(world.log)
      ensures !Bad(old(status)) && hasFactory ==>
                && Sent(old(world.log), world.log, InitInput(Body(kind, "", None)))
                && var o := world.log[|world.log| - 1].outcome;
                   ok == ReplyOf(o).Some? && status == StatusAfter(old(status), o)
    {
      var r := Call(InitInput(Body(kind, "", None)));
      ok := r.Some?;
    }

    /** True exactly when the server is seen to end, whatever became of the message. */
    method Shutdown() returns (ok: bool)
      modifies this`status, this`protocolVersion, this`serverIsOlder, world
      ensures Starts(world.log) == old(Starts(world.log)) && old(world.log) <= world.log
      ensures world.log != [] && world.log[|world.log| - 1] == WaitServer(ok)
      ensures Bad(old(status)) || !hasFactory ==>
                && status == old(status) && protocolVersion == old(protocolVersion)
                && world.log == old(world.log) + [WaitServer(ok)] && Opened(world.log) == old(Opened(world.log))
      ensures !Bad(old(status)) && hasFactory ==>
                && |world.log| == |old(world.log)| + 2
                && Sent(old(world.log), world.log[..|world.log| - 1], InitInput(Body(SHUTDOWN, "", None)))
                && status == StatusAfter(old(status), world.log[|old(world.log)|].outcome)
    {
      var called := CallCommand(SHUTDOWN);
      ghost var sent := world.log;
      ok := world.WaitServer();
      assert world.log[..|world.log| - 1] == sent;
    }

    /** A server of the wrong version is asked to end, and terminated where that is impossible or fails. */
    method StopServer(called: bool) returns (ok: bool)
      modifies this`status, this`protocolVersion, this`serverIsOlder, world
      ensures old(world.log) <= world.log && Starts(world.log) == old(Starts(world.log))
      ensures !ok ==> status == SERVER_BROKEN_MESSAGE && FaultSince(world.log, |old(world.log)|)
      ensures !called ==> |old(world.log)| < |world.log| && world.log[|old(world.log)|].ForceTerminateServer?
      ensures called && hasFactory && !Bad(old(status)) ==>
                var n := |old(world.log)|;
                && n + 2 <= |world.log| && world.log[n].Exchange? && world.log[n].input.body.kind == SHUTDOWN
                && world.log[n + 1].WaitServer?
                && if world.log[n + 1].ok then ok && |world.log| == n + 2
                   else n + 2 < |world.log| && world.log[n + 2].ForceTerminateServer?
    {
      hide StatusAfter, ReplyOf;
      var shutdown := true;
      if called {
        shutdown := Shutdown();
      }
      if !shutdown || !called {
        var terminated := world.ForceTerminateServer();
        if !terminated {
          status := SERVER_BROKEN_MESSAGE;
          FaultLast(world.log, |old(world.log)|);
          return false;
        }
        var waited := world.WaitServer();
      }
      ok := true;
    }

    /** Terminates a server of the wrong version and starts another one. */
    method RestartServer(called: bool) returns (ok: bool)
      modifies this`status, this`protocolVersion, this`serverIsOlder, world
      ensures ok ==> status == SERVER_INVALID_SESSION
      ensures !ok ==> status == SERVER_BROKEN_MESSAGE || status == SERVER_VERSION_MISMATCH
      ensures old(world.log) <= world.log
      ensures Starts(world.log) <= old(Starts(world.log)) + 1
      ensures !ok ==> FaultSince(world.log, |old(world.log)|)
      ensures ok ==> |old(world.log)| < |world.log| && world.log[|world.log| - 1] == StartServer(true)
      ensures !called ==> |old(world.log)| < |world.log| && world.log[|old(world.log)|].ForceTerminateServer?
      ensures called && hasFactory && !Bad(old(status)) ==>
                var n := |old(world.log)|;
                && n + 2 < |world.log| && world.log[n].Exchange? && world.log[n].input.body.kind == SHUTDOWN
                && world.log[n + 1].WaitServer?
                && if world.log[n + 1].ok then world.log[n + 2].StartServer? else world.log[n + 2].ForceTerminateServer?
    {
      hide FaultSince, Fault;
      var stopped := StopServer(called);
      if !stopped {
        return false;
      }
      ghost var was := world.log;
      status := SERVER_UNKNOWN;
      ok := EnsureConnection();
      if !ok {
        StartFailed(world.log, |was|);
        FaultStays(world.log, world.log, |was|, |old(world.log)|);
        status := SERVER_VERSION_MISMATCH;
      }
    }

    method CheckVersionOrRestartServerInternal(input: Input) returns (r: Option<Output>)
      modifies this`status, this`protocolVersion, this`serverIsOlder, world
      ensures old(world.log) <= world.log && Starts(world.log) <= old(Starts(world.log)) + 1
      ensures r.Some? ==> status == old(status) || status == SERVER_INVALID_SESSION
      ensures status == SERVER_OK ==> old(status) == SERVER_OK
      ensures r.Some? ==> hasFactory && !Bad(status) && |old(world.log)| < |world.log|
      ensures r.Some? ==>
                var e := world.log[|world.log| - 1];
                e.Exchange? && e.input == input && r == ReplyOf(e.outcome) && !IsOld(e.outcome)
      // An old server is restarted; any other answer is final.
      ensures hasFactory && !Bad(old(status)) ==>
                var n := |old(world.log)|;
                && n < |world.log| && world.log[n].Exchange? && world.log[n].input == input
                && var o := world.log[n].outcome;
                   if IsOld(o) then n + 1 < |world.log| && (r == None ==> FaultSince(world.log, n + 1))
                   else |world.log| == n + 1 && r == ReplyOf(o) && (r.Some? ==> status == old(status))
      ensures !hasFactory ==> r == None
      ensures old(status).SERVER_FATAL? && old(protocolVersion) == IPC_PROTOCOL_VERSION ==>
                status == SERVER_FATAL && world.log == old(world.log)
      ensures old(status).SERVER_FATAL? && old(protocolVersion) > IPC_PROTOCOL_VERSION ==>
                status == SERVER_VERSION_MISMATCH && world.log == old(world.log)
    {
      hide FaultSince, Fault;
      ghost var n := |world.log|;
      r := None;
      for trial := 0 to 2
        invariant trial > 0 && hasFactory && !Bad(old(status)) ==>
                    && n + 1 < |world.log| && world.log[n].Exchange? && world.log[n].input == input
                    && IsOld(world.log[n].outcome)
        invariant old(world.log) <= world.log && Starts(world.log) <= old(Starts(world.log)) + trial
        invariant trial == 0 ==>
                    status == old(status) && protocolVersion == old(protocolVersion) && world.log == old(world.log)
        invariant trial > 0 ==>
                    && status == SERVER_INVALID_SESSION
                    && (old(status).SERVER_FATAL? ==> old(protocolVersion) < IPC_PROTOCOL_VERSION)
      {
        r := Call(input);
        if trial > 0 && hasFactory && !Bad(old(status)) && (r == None || serverIsOlder) {
          OldOrLost(world.log, n + 1);
        }
        if r == None && protocolVersion > IPC_PROTOCOL_VERSION {
          status := SERVER_VERSION_MISMATCH;
          return;
        }
        if (r.Some? && serverIsOlder) || (r == None && protocolVersion < IPC_PROTOCOL_VERSION) {
          if trial > 0 {
            status := SERVER_BROKEN_MESSAGE;
            return None;
          }
          ghost var called := world.log;
          var restarted := RestartServer(r.Some?);
          if !restarted {
            if |called| == n + 1 { assert called <= world.log; }
            return None;
          }
        } else {
          return;
        }
      }
      return None;
    }

    method CheckVersionOrRestartServer() returns (ok: bool)
      modifies this`status, this`protocolVersion, this`serverIsOlder, world
      ensures old(world.log) <= world.log && Starts(world.log) <= old(Starts(world.log)) + 2
      // True means an answered NO_OPERATION, or a connection that may go on.
      ensures ok ==> !Bad(status)
      ensures ok ==>
                || status == SERVER_OK || status == SERVER_INVALID_SESSION
                || (world.log != [] && IsReplied(world.log[|world.log| - 1])
                    && world.log[|world.log| - 1].input == Input(0, Body(NO_OPERATION, "", None)))
      ensures !ok ==> status == SERVER_FATAL
      // An answer of a server that is not old settles it.
      ensures hasFactory && !Bad(old(status)) ==>
                var n := |old(world.log)|;
                && n < |world.log| && world.log[n].Exchange? && world.log[n].input.body.kind == NO_OPERATION
                && var o := world.log[n].outcome;
                   ReplyOf(o).Some? && !IsOld(o) ==> ok && |world.log| == n + 1 && status == old(status)
      // Only a server known to be older is restarted out of SERVER_FATAL.
      ensures old(status).SERVER_FATAL? && old(protocolVersion) >= IPC_PROTOCOL_VERSION ==>
                !ok && status == SERVER_FATAL && Opened(world.log) == old(Opened(world.log))
    {
      var r := CheckVersionOrRestartServerInternal(Input(0, Body(NO_OPERATION, "", None)));
      if r == None {
        ok := EnsureConnection();
      } else {
        ok := true;
      }
    }

    method CreateSession() returns (ok: bool)
      modifies this`id, this`status, this`protocolVersion, this`serverIsOlder, world
      ensures old(world.log) <= world.log && Starts(world.log) <= old(Starts(world.log)) + 1
      ensures status == SERVER_OK ==> old(status) == SERVER_OK
      ensures ok ==> hasFactory && (status == old(status) || status == SERVER_INVALID_SESSION) && !Bad(status)
      ensures ok ==> |old(world.log)| < |world.log| && Created(world.log[|world.log| - 1], id)
      ensures !ok && hasFactory && !Bad(old(status)) ==> FaultSince(world.log, |old(world.log)|)
    {
      hide FaultSince, StatusAfter;
      ghost var n := |world.log|;
      id := 0;
      var r := CheckVersionOrRestartServerInternal(Input(0, CREATE_BODY));
      if r == None {
        if hasFactory && !Bad(old(status)) {
          if IsOld(world.log[n].outcome) {
            FaultStays(world.log, world.log, n + 1, n);
          } else {
            FaultLast(world.log, n);
          }
        }
        return false;
      }
      if !r.value.success {
        FaultLast(world.log, n);
        status := SERVER_INVALID_SESSION;
        return false;
      }
      id := r.value.id;
      return true;
    }

    /** A session that is not OK is replaced by a new one, at position `created` of the log. */
    method EnsureSession() returns (ok: bool, ghost created: nat)
      modifies this`id, this`status, this`protocolVersion, this`serverIsOlder, world
      ensures ok ==> status == SERVER_OK
      ensures !ok ==> status == SERVER_FATAL || status == SERVER_INVALID_SESSION
      ensures old(world.log) <= world.log
      ensures Starts(world.log) <= old(Starts(world.log)) + if ok then 2 else 3
      ensures old(status).SERVER_OK? ==>
                ok && id == old(id) && protocolVersion == old(protocolVersion) && world.log == old(world.log)
      ensures old(status).SERVER_FATAL? ==> !ok && status == SERVER_FATAL && world.log == old(world.log)
      ensures ok && !old(status).SERVER_OK? ==>
                && hasFactory && |old(world.log)| <= created < |world.log|
                && NewSession(world.log, created, id, request)
      // A failure is explained by what happened.
      ensures !ok && hasFactory && !Bad(old(status)) ==> FaultSince(world.log, |old(world.log)|)
    {
      hide FaultSince, Fault, IsOld, StatusAfter, ReplyOf, IsReplied, Created, Starts;
      ghost var n := |world.log|;
      var connected := EnsureConnection();
      if !connected {
        if !Bad(old(status)) { StartFailed(world.log, n); }
        return false, 0;
      }
      if status.SERVER_OK? {
        return true, 0;
      }
      ghost var before := |world.log|;
      var madeSession := CreateSession();
      if !madeSession {
        ghost var failed := world.log;
        var again := EnsureConnection();
        if hasFactory { FaultStays(failed, world.log, before, n); }
        return false, 0;
      }
      created := |world.log| - 1;
      if request.Some? {
        var r := Call(Input(id, SetRequestBody(request.value)));
      }
      status := SERVER_OK;
      ok := true;
    }

    // ---------- the journal ----------

    method ResetHistory()
      modifies this`history
      ensures history == []
    {
      history := [];
    }

    /** An entry is only ever added to a journal that is not full. */
    method Append(input: Input)
      requires |history| < MAX_PLAYBACK_SIZE
      modifies this`history
      ensures Valid() && history == old(history) + [input]
    {
      history := history + [input];
    }

    method PushHistory(input: Input, output: Output)
      requires Valid()
      modifies this`history, this`lastMode
      ensures Valid()
      ensures history == Journal(old(history), input, output)
      ensures lastMode ==
              if output.consumed == Some(true) && output.mode.Some? then output.mode.value else old(lastMode)
    {
      if output.consumed != Some(true) {
        return;
      }
      if output.mode.Some? {
        lastMode := output.mode.value;
      }
      if |history| < MAX_PLAYBACK_SIZE {
        Append(input);
      }
      if input.body.kind == SEND_KEY && output.hasResult {
        ResetHistory();
      }
    }

    /** Sends the journal to the current session until a call fails; a full journal is dropped instead. */
    method PlaybackHistory()
      requires Valid()
      modifies this`status, this`protocolVersion, this`serverIsOlder, this`history, world
      ensures |history| < MAX_PLAYBACK_SIZE && Starts(world.log) == old(Starts(world.log))
                && old(world.log) <= world.log
      ensures |old(history)| >= MAX_PLAYBACK_SIZE ==>
                history == [] && world.log == old(world.log) && status == old(status)
      ensures |old(history)| < MAX_PLAYBACK_SIZE ==> SameBodies(old(history), history)
      ensures !Bad(old(status)) && hasFactory ==> Replays(history, id, world.log, |old(world.log)|)
      ensures AllReplied(world.log, |old(world.log)|) ==> status == old(status)
      ensures Bad(status) && !Bad(old(status)) ==> FaultSince(world.log, |old(world.log)|)
    {
      if |history| >= MAX_PLAYBACK_SIZE {
        ResetHistory();
        return;
      }
      ghost var was := |world.log|;
      for i := 0 to |history|
        invariant SameBodies(old(history), history)
        invariant Starts(world.log) == old(Starts(world.log)) && old(world.log) <= world.log
        invariant status == old(status)
        invariant Resent(history, id, world.log, was)
        invariant |world.log| == if hasFactory && !Bad(status) then was + i else was
      {
        history := history[i := history[i].(id := id)];
        var r := Call(history[i]);
        if r == None {
          break;
        }
      }
    }

    // ---------- key and command calls ----------

    /** The second trial: a new session, the journal, the input again. */
    method Retry(body: Body)
      returns (ok: bool, output: Output, ghost again: bool, ghost created: nat, ghost replay: nat)
      requires Valid() && (status == SERVER_SHUTDOWN || status == SERVER_INVALID_SESSION)
      modifies this`id, this`status, this`protocolVersion, this`serverIsOlder, this`history, world
      ensures Valid()
      ensures old(world.log) <= world.log && Starts(world.log) <= old(Starts(world.log)) + 3
      // A journal whose replay did not help is gone; without a new session it is kept.
      ensures !ok ==> history == if again then [] else old(history)
      ensures again ==> |old(world.log)| <= created < |world.log| && Created(world.log[created], id)
      ensures ok ==> again
      ensures !ok && hasFactory ==> FaultSince(world.log, |old(world.log)|)
      ensures ok ==> hasFactory && SameBodies(Replayable(old(history)), history) && |old(world.log)| < |world.log|
      ensures ok ==> Answers(world.log, InitInput(body), output)
      ensures ok && AllReplied(world.log, replay) ==> status == SERVER_OK
      ensures ok ==> |old(world.log)| <= created && Recovers(world.log, created, replay, id, request, history)
    {
      hide Replays, Answers, Starts, AllReplied, FaultSince;
      output := NoOutput();
      created, replay := 0, 0;
      ok, created := EnsureSession();
      again := ok;
      if !ok {
        return;
      }
      replay := |world.log|;
      PlaybackHistory();
      ghost var sent := world.log;
      var r := CallAndCheckVersion(InitInput(body));
      if r == None {
        if hasFactory { RetryFailed(sent, world.log, |old(world.log)|, replay); }
        Append(InitInput(body));
        ResetHistory();  // after the journal has been written to a file
        ok := false;
        return;
      }
      output := r.value;
      assert world.log[..|world.log| - 1] == sent;
      assert sent[..replay] == world.log[..replay];
      IsAnswer(sent, world.log, InitInput(body), output);
      if AllReplied(world.log, replay) { Shorter(sent, world.log, replay); }
    }

    /** Afterwards the status tells what is to be done: OK is done, bad is lost, anything else tries again. */
    method FirstTrial(body: Body, given: Output) returns (ok: bool, output: Output, ghost created: nat)
      modifies this`id, this`status, this`protocolVersion, this`serverIsOlder, world
      ensures old(world.log) <= world.log && Starts(world.log) <= old(Starts(world.log)) + if ok then 2 else 3
      ensures old(status).SERVER_FATAL? ==> !ok && status == SERVER_FATAL && world.log == old(world.log)
      ensures ok ==> status != SERVER_UNKNOWN
      ensures ok && hasFactory && status == SERVER_OK ==>
                |old(world.log)| < |world.log| && Answers(world.log, InitInput(body), output) && output.id == id
      ensures ok && hasFactory && status == SERVER_OK ==>
                if old(status).SERVER_OK? then id == old(id) && |world.log| == |old(world.log)| + 1
                else
                  && |old(world.log)| <= created < |world.log|
                  && NewSession(world.log[..|world.log| - 1], created, id, request)
      // In a session that is OK, the one exchange decides.
      ensures old(status).SERVER_OK? && hasFactory ==>
                && ok && id == old(id) && Sent(old(world.log), world.log, InitInput(body))
                && status == StatusAfterTrial(world.log[|world.log| - 1].outcome, id)
      ensures !old(status).SERVER_OK? && !Bad(old(status)) && hasFactory && (!ok || Bad(status)) ==>
                FaultSince(world.log, |old(world.log)|)
      ensures !hasFactory ==> (ok <==> old(status).SERVER_OK?)
      ensures !hasFactory && ok ==> world.log == old(world.log) && output == given.(id := 0)
                                    && status == if old(protocolVersion) == IPC_PROTOCOL_VERSION then SERVER_OK
                                       else SERVER_VERSION_MISMATCH
    {
      hide NewSession, FaultSince, Starts;
      output := given;
      ok, created := EnsureSession();
      if !ok {
        return;
      }
      output := given.(id := 0);
      ghost var before := world.log;
      var r := CallAndCheckVersion(InitInput(body));
      if r.Some? {
        output := r.value;
        if output.id != id {
          status := SERVER_INVALID_SESSION;
        }
      }
      if r == None && hasFactory { FaultLast(world.log, |old(world.log)|); }
      assert |before| < |world.log| ==> world.log[..|world.log| - 1] == before;
    }

    method EnsureCallCommand(body: Body, given: Output) returns (ok: bool, output: Output, ghost course: Course)
      requires Valid()
      modifies this`id, this`status, this`protocolVersion, this`serverIsOlder, this`history, this`lastMode, world
      ensures Valid()
      ensures old(world.log) <= world.log && Starts(world.log) <= old(Starts(world.log)) + 5
      ensures old(status).SERVER_FATAL? ==>
                !ok && status == SERVER_FATAL && history == old(history) && world.log == old(world.log)
      // With an IPC factory, success is a parsed reply to this very input.
      ensures ok && hasFactory ==> |old(world.log)| < |world.log| && Answers(world.log, InitInput(body), output)
      ensures ok && hasFactory ==>
                Ran(course, old(world.log), world.log, id, request, old(history), history, InitInput(body), output)
      ensures ok && hasFactory && course.Direct? ==> old(status).SERVER_OK? && id == old(id)
      ensures ok && hasFactory && course.Fresh? ==> !old(status).SERVER_OK?
      ensures ok && hasFactory && (course.Recovered? ==> AllReplied(world.log, course.replay)) ==> status == SERVER_OK
      // From a session that is OK, the first exchange is this input; a lost session fails only by a later fault.
      ensures old(status).SERVER_OK? && hasFactory ==>
                var n := |old(world.log)|;
                && n < |world.log| && world.log[n].Exchange? && world.log[n].input == old(InitInput(body))
                && var o := world.log[n].outcome;
                   if Lost(o, old(id)) then n + 1 < |world.log| && (!ok ==> FaultSince(world.log, n + 1))
                   else |world.log| == n + 1 && (ok <==> ReplyOf(o).Some?)
      ensures !old(status).SERVER_OK? && !Bad(old(status)) && hasFactory && !ok ==>
                FaultSince(world.log, |old(world.log)|)
      ensures !ok ==> lastMode == old(lastMode) && history == if course.Recovered? then [] else old(history)
      ensures course.Recovered? ==>
                && |old(world.log)| <= course.created < |world.log| && Created(world.log[course.created], id)
      ensures preferences.Some? && ok && hasFactory ==> world.log[|world.log| - 1].input.body.config == preferences
      // Without one, a session that is OK reports success and nothing has been sent.
      ensures !hasFactory ==> (ok <==> old(status).SERVER_OK? && old(protocolVersion) == IPC_PROTOCOL_VERSION)
      ensures !hasFactory && ok ==> world.log == old(world.log) && output == given.(id := 0)
    {
      hide Recovers, SameBodies, Journal, NewSession, FaultSince, Lost, StatusAfterTrial, Created, Starts, IsReplied;
      course := Direct;
      ghost var created;
      ok, output, created := FirstTrial(body, given);
      if ok && hasFactory && old(status).SERVER_OK? { TrialDecides(world.log[|world.log| - 1].outcome, id); }
      if !ok || Bad(status) {
        return false, output, course;
      }
      if status.SERVER_SHUTDOWN? || status.SERVER_INVALID_SESSION? {
        ghost var again, replay;
        ghost var tried := world.log;
        ok, output, again, created, replay := Retry(body);
        if again { course := Recovered(created, replay); }
        if !ok {
          if hasFactory {
            FaultIsLater(world.log, |tried|);
            FaultStays(world.log, world.log, |tried|, |old(world.log)|);
          }
          return;
        }
      } else if !old(status).SERVER_OK? {
        course := Fresh(created);
      }
      PushHistory(InitInput(body), output);
    }

    // ---------- everything else ----------

    method DeleteSession() returns (ok: bool)
      modifies this`id, this`status, this`protocolVersion, this`serverIsOlder, world
      ensures ok ==> id == 0
      ensures !ok ==> id == old(id)
      ensures Starts(world.log) == old(Starts(world.log)) && old(world.log) <= world.log
      ensures Bad(old(status)) ==> status == old(status) && world.log == old(world.log)
      ensures old(id) == 0 ==> ok && status == old(status) && world.log == old(world.log)
      ensures old(id) != 0 && !Bad(old(status)) && hasFactory ==>
                && Sent(old(world.log), world.log, old(InitInput(Body(DELETE_SESSION, "", None))))
                && var o := world.log[|world.log| - 1].outcome;
                   ok == ReplyOf(o).Some? && status == StatusAfter(old(status), o)
      ensures old(id) != 0 && !hasFactory ==> !ok && status == old(status) && world.log == old(world.log)
    {
      if id == 0 {
        return true;
      }
      var r := Call(InitInput(Body(DELETE_SESSION, "", None)));
      if r == None {
        return false;
      }
      id := 0;
      return true;
    }

    method GetConfig() returns (config: Option<string>)
      modifies this`status, this`protocolVersion, this`serverIsOlder, world
      ensures Starts(world.log) == old(Starts(world.log)) && old(world.log) <= world.log
      ensures Bad(old(status)) || !hasFactory ==> config == None && status == old(status) && world.log == old(world.log)
      ensures !Bad(old(status)) && hasFactory ==>
                && Sent(old(world.log), world.log, InitInput(Body(GET_CONFIG, "", None)))
                && var o := world.log[|world.log| - 1].outcome;
                   && config == (if ReplyOf(o).Some? then ReplyOf(o).value.config else None)
                   && status == StatusAfter(old(status), o)
      ensures config.Some? ==> world.log != [] && IsReplied(world.log[|world.log| - 1])
                               && config == ReplyOf(world.log[|world.log| - 1].outcome).value.config
    {
      var r := Call(InitInput(Body(GET_CONFIG, "", None)));
      if r == None {
        return None;
      }
      return r.value.config;
    }

    /** The direct-mode keys follow a configuration only when the server has taken it. */
    method SetConfig(config: string) returns (ok: bool)
      modifies this`status, this`protocolVersion, this`serverIsOlder, this`directModeConfig, world
      ensures Starts(world.log) == old(Starts(world.log)) && old(world.log) <= world.log
      ensures directModeConfig == if ok then config else old(directModeConfig)
      ensures Bad(old(status)) || !hasFactory ==> !ok && status == old(status) && world.log == old(world.log)
      ensures !Bad(old(status)) && hasFactory ==>
                && Sent(old(world.log), world.log, Input(id, Body(SET_CONFIG, "", Some(config))))
                && var o := world.log[|world.log| - 1].outcome;
                   ok == ReplyOf(o).Some? && status == StatusAfter(old(status), o)
    {
      var r := Call(Input(id, Body(SET_CONFIG, "", Some(config))));
      if r == None {
        return false;
      }
      directModeConfig := config;
      ok := true;
    }

    /** Ignores the status, and never changes it. */
    method PingServer() returns (ok: bool)
      modifies world
      ensures world.log == old(world.log) + if hasFactory then [Ping] else []
      ensures Starts(world.log) == old(Starts(world.log)) && Opened(world.log) == old(Opened(world.log))
      ensures !hasFactory ==> !ok
    {
      if !hasFactory {
        return false;
      }
      ok := world.Ping(InitInput(Body(NO_OPERATION, "", None)));
    }

    method Reset()
      modifies this`status, this`protocolVersion
      ensures status == SERVER_UNKNOWN && protocolVersion == 0
    {
      status, protocolVersion := SERVER_UNKNOWN, 0;
    }
  }
}
