/** Crash and replay refine a server that never crashed. */
module ClientReplay {
  import opened Wrappers
  import opened ClientWorld
  import opened ClientSession

  /** What a reply says about an input, apart from its session id. */
  datatype Verdict = Verdict(consumed: bool, hasResult: bool)

  /** A deterministic server: the state of a new session, and what an input does to a state. */
  datatype Server<!S> = Server(initial: S, step: (S, Body) -> S, verdict: (S, Body) -> Verdict)

  function VerdictOf(o: Output): Verdict {
    Verdict(o.consumed == Some(true), o.hasResult)
  }

  /** Inputs of a user's session. */
  predicate IsSend(kind: CommandType) {
    kind == SEND_KEY || kind == TEST_SEND_KEY || kind == SEND_COMMAND
  }

  // ---------- the sessions of a log ----------

  /** The sessions a server holds after an event, from those it held before. */
  ghost function After<S>(server: Server<S>, m: map<nat, S>, e: Event): map<nat, S> {
    match e
    case Exchange(input, outcome, lost) =>
      if ReplyOf(outcome) == None then map[]
      else
        var alive := if lost then map[] else m;
        var output := ReplyOf(outcome).value;
        var kind := input.body.kind;
        if kind == CREATE_SESSION then (if output.success then alive[output.id := server.initial] else alive)
        else if kind == DELETE_SESSION then alive - {input.id}
        else if kind == SHUTDOWN then map[]
        else if (IsSend(kind) || kind == SET_REQUEST) && input.id in alive
        then alive[input.id := server.step(alive[input.id], input.body)]
        else alive
    case ForceTerminateServer(ok) => map[]
    case _ => m
  }

  ghost function Sessions<S>(server: Server<S>, log: seq<Event>): map<nat, S> {
    if log == [] then map[] else After(server, Sessions(server, log[..|log| - 1]), log[|log| - 1])
  }

  /** A reply to a session the server holds carries its id and the verdict; any other id is not echoed. */
  ghost predicate Truthful<S>(server: Server<S>, m: map<nat, S>, e: Event) {
    IsReplied(e) && IsSend(e.input.body.kind) ==>
      var output := ReplyOf(e.outcome).value;
      if !e.sessionsLost && e.input.id in m
      then output.id == e.input.id && VerdictOf(output) == server.verdict(m[e.input.id], e.input.body)
      else output.id != e.input.id
  }

  ghost predicate Honest<S>(server: Server<S>, log: seq<Event>) {
    forall k :: 0 <= k < |log| ==> Truthful(server, Sessions(server, log[..k]), log[k])
  }

  // ---------- a server that never crashed ----------

  /** A new session after its SET_REQUEST. */
  ghost function Base<S>(server: Server<S>, request: Option<string>): S {
    if request == None then server.initial else server.step(server.initial, SetRequestBody(request.value))
  }

  ghost function Replay<S>(server: Server<S>, s: S, h: seq<Input>): S {
    if h == [] then s else server.step(Replay(server, s, h[..|h| - 1]), h[|h| - 1].body)
  }

  /** The state of a session that got every input once. */
  ghost function Uninterrupted<S>(server: Server<S>, s: S, preferences: Option<string>, bodies: seq<Body>): S {
    if bodies == [] then s
    else server.step(Uninterrupted(server, s, preferences, bodies[..|bodies| - 1]),
        WithPreferences(preferences, bodies[|bodies| - 1]))
  }

  /** Inputs that are not consumed change nothing; a consumed key with a result ends the composition. */
  ghost predicate Lawful<S(!new)>(server: Server<S>, base: S) {
    && (forall s, b :: !server.verdict(s, b).consumed ==> server.step(s, b) == s)
    && (forall s, b: Body ::
          b.kind == SEND_KEY && server.verdict(s, b).consumed && server.verdict(s, b).hasResult ==>
            server.step(s, b) == base)
  }

  // ---------- one event ----------

  /** An exchange in which nothing went wrong. */
  ghost predicate Calm(e: Event) {
    IsReplied(e) && !e.sessionsLost
  }

  /** The server holds session id in state s. */
  ghost predicate Holds<S>(server: Server<S>, log: seq<Event>, id: nat, s: S) {
    id in Sessions(server, log) && Sessions(server, log)[id] == s
  }

  lemma OneEvent<S>(server: Server<S>, log: seq<Event>, k: nat)
    requires k < |log|
    ensures Sessions(server, log[..k + 1]) == After(server, Sessions(server, log[..k]), log[k])
  {
    assert log[..k + 1][..k] == log[..k];
  }

  lemma CalmStep<S>(server: Server<S>, log: seq<Event>, k: nat, id: nat, s: S)
    requires k < |log| && Calm(log[k]) && log[k].input.id == id
    requires IsSend(log[k].input.body.kind) || log[k].input.body.kind == SET_REQUEST
    requires Holds(server, log[..k], id, s)
    ensures Holds(server, log[..k + 1], id, server.step(s, log[k].input.body))
  {
    OneEvent(server, log, k);
  }

  lemma CreatedHolds<S>(server: Server<S>, log: seq<Event>, c: nat, id: nat)
    requires c < |log| && Created(log[c], id)
    ensures Holds(server, log[..c + 1], id, server.initial)
  {
    OneEvent(server, log, c);
  }

  lemma NewSessionHolds<S>(server: Server<S>, log: seq<Event>, c: nat, p: nat, id: nat, request: Option<string>)
    requires p <= |log| && NewSession(log[..p], c, id, request) && forall k :: c < k < p ==> Calm(log[k])
    ensures Holds(server, log[..p], id, Base(server, request))
  {
    hide Holds;
    assert log[..p][c] == log[c];
    CreatedHolds(server, log, c, id);
    if request.Some? {
      assert log[..p][c + 1] == log[c + 1];
      CalmStep(server, log, c + 1, id, server.initial);
    }
  }

  ghost predicate CalmSend(e: Event, id: nat, b: Body) {
    Calm(e) && e.input == Input(id, b) && IsSend(b.kind)
  }

  lemma {:induction false} ReplayHolds<S>(server: Server<S>, log: seq<Event>, p: nat, n: nat, id: nat, s: S,
      h: seq<Input>)
    requires n <= |h| && p + n <= |log| && Holds(server, log[..p], id, s)
    requires forall k :: p <= k < p + n ==> CalmSend(log[k], id, h[k - p].body)
    ensures Holds(server, log[..p + n], id, Replay(server, s, h[..n]))
    decreases n
  {
    hide Holds;
    if n > 0 {
      ReplayHolds(server, log, p, n - 1, id, s, h);
      assert h[..n][..n - 1] == h[..n - 1];
      CalmStep(server, log, p + n - 1, id, Replay(server, s, h[..n - 1]));
    }
  }

  // ---------- the journal ----------

  ghost predicate SendsOnly(h: seq<Input>) {
    forall k :: 0 <= k < |h| ==> IsSend(h[k].body.kind)
  }

  /** The journal leads a new session to state s. */
  ghost predicate Leads<S>(server: Server<S>, base: S, h: seq<Input>, s: S) {
    SendsOnly(h) && Replay(server, base, h) == s
  }

  lemma {:induction false} ReplaySame<S>(server: Server<S>, s: S, h: seq<Input>, r: seq<Input>)
    requires SameBodies(h, r)
    ensures Replay(server, s, h) == Replay(server, s, r)
    decreases |h|
  {
    if h != [] { ReplaySame(server, s, h[..|h| - 1], r[..|r| - 1]); }
  }

  /** What the journal leaves out, the server does not need: it leads to the next state too. */
  lemma JournalLeads<S(!new)>(server: Server<S>, base: S, h: seq<Input>, s: S, input: Input, output: Output)
    requires Lawful(server, base) && Leads(server, base, h, s) && |h| < MAX_PLAYBACK_SIZE && IsSend(input.body.kind)
    requires VerdictOf(output) == server.verdict(s, input.body)
    ensures Leads(server, base, Journal(h, input, output), server.step(s, input.body))
  {
    var j := h + [input];
    assert j[..|h|] == h && Replay(server, base, j) == server.step(s, input.body);
    assert Replay(server, base, []) == base;
  }

  // ---------- one call ----------

  /** An answer that echoes the session id comes from that session. */
  lemma TrialHolds<S>(server: Server<S>, log: seq<Event>, id: nat, s: S, body: Body, output: Output)
    requires Honest(server, log) && Answers(log, Input(id, body), output) && IsSend(body.kind)
    requires Holds(server, log[..|log| - 1], id, s)
    requires output.id == id || Calm(log[|log| - 1])
    ensures Holds(server, log, id, server.step(s, body)) && VerdictOf(output) == server.verdict(s, body)
  {
    var k := |log| - 1;
    assert Truthful(server, Sessions(server, log[..k]), log[k]);
    CalmStep(server, log, k, id, s);
    assert log[..k + 1] == log;
  }

  ghost predicate IsCreate(e: Event) {
    e.Exchange? && e.input.body.kind == CREATE_SESSION
  }

  /** Since position p, nothing went wrong after the last CREATE_SESSION. */
  ghost predicate QuietSince(log: seq<Event>, p: nat) {
    forall c, k ::
      && p <= c < k < |log| && IsCreate(log[c]) && (forall j :: c < j < |log| ==> !IsCreate(log[j]))
      && log[k].Exchange? ==>
        Calm(log[k])
  }

  lemma FreshHolds<S>(server: Server<S>, log: seq<Event>, c: nat, id: nat, request: Option<string>, body: Body,
      output: Output)
    requires Honest(server, log) && Answers(log, Input(id, body), output) && IsSend(body.kind) && output.id == id
    requires NewSession(log[..|log| - 1], c, id, request) && forall k :: c < k < |log| ==> Calm(log[k])
    ensures Holds(server, log, id, server.step(Base(server, request), body))
              && VerdictOf(output) == server.verdict(Base(server, request), body)
  {
    hide Holds, Honest, NewSession;
    NewSessionHolds(server, log, c, |log| - 1, id, request);
    TrialHolds(server, log, id, Base(server, request), body, output);
  }

  lemma RecoveredHolds<S>(server: Server<S>, log: seq<Event>, c: nat, p: nat, id: nat, request: Option<string>,
      r: seq<Input>, s: S, body: Body, output: Output)
    requires Honest(server, log) && Answers(log, Input(id, body), output) && IsSend(body.kind)
    requires Recovers(log, c, p, id, request, r) && (forall k :: c < k < |log| ==> Calm(log[k]))
    requires Leads(server, Base(server, request), r, s)
    ensures Holds(server, log, id, server.step(s, body)) && VerdictOf(output) == server.verdict(s, body)
  {
    hide Holds, Answers, Honest, NewSession, Replay;
    NewSessionHolds(server, log, c, p, id, request);
    var sent := log[..|log| - 1];
    assert AllReplied(sent, p);
    assert r[..|r|] == r && |sent| == p + |r|;
    assert forall k :: p <= k < p + |r| ==> log[k] == sent[k] && CalmSend(log[k], id, r[k - p].body);
    ReplayHolds(server, log, p, |r|, id, Base(server, request), r);
    TrialHolds(server, log, id, s, body, output);
  }

  /** Behind the new session there are only exchanges, and no other CREATE_SESSION. */
  lemma FreshTail(log: seq<Event>, c: nat, id: nat, request: Option<string>, body: Body, output: Output, p: nat)
    requires Answers(log, Input(id, body), output) && IsSend(body.kind) && p <= c
    requires NewSession(log[..|log| - 1], c, id, request) && QuietSince(log, p)
    ensures forall k :: c < k < |log| ==> Calm(log[k])
  {
    assert IsCreate(log[c]) && forall k :: c < k < |log| ==> log[k].Exchange? && !IsCreate(log[k]);
  }

  lemma RecoveredTail(log: seq<Event>, c: nat, q: nat, id: nat, request: Option<string>, r: seq<Input>, body: Body,
      output: Output, p: nat)
    requires Answers(log, Input(id, body), output) && IsSend(body.kind) && p <= c && SendsOnly(r)
    requires Recovers(log, c, q, id, request, r) && QuietSince(log, p)
    ensures forall k :: c < k < |log| ==> Calm(log[k])
  {
    hide AllReplied;
    var sent := log[..|log| - 1];
    forall k | c < k < |log| ensures log[k].Exchange? && !IsCreate(log[k]) {
      if k < q { assert log[k] == log[..q][k]; } else if k < |log| - 1 { assert log[k] == sent[k]; }
    }
    assert IsCreate(log[c]) by { assert log[c] == log[..q][c]; }
  }

  /** Whichever way a call succeeds, it leaves the session and the journal one input further. */
  lemma CallRefines<S(!new)>(server: Server<S>, course: Course, was: seq<Event>, log: seq<Event>, id: nat,
      request: Option<string>,
                             h: seq<Input>, j: seq<Input>, s: S, body: Body, output: Output)
    requires Lawful(server, Base(server, request)) && Honest(server, log) && was <= log && QuietSince(log, |was|)
    requires Answers(log, Input(id, body), output) && IsSend(body.kind) && |h| < MAX_PLAYBACK_SIZE
    requires Ran(course, was, log, id, request, h, j, Input(id, body), output)
    requires Leads(server, Base(server, request), h, s)
    requires course.Direct? ==> Holds(server, was, id, s)
    requires course.Fresh? ==> h == []
    ensures Holds(server, log, id, server.step(s, body))
    ensures Leads(server, Base(server, request), j, server.step(s, body))
  {
    hide Holds, Honest, NewSession, Answers, Lawful, QuietSince, Recovers, Journal, Base;
    match course {
      case Direct =>
        assert log[..|log| - 1] == was;
        TrialHolds(server, log, id, s, body, output);
        JournalLeads(server, Base(server, request), h, s, Input(id, body), output);
      case Fresh(c) =>
        FreshTail(log, c, id, request, body, output, |was|);
        FreshHolds(server, log, c, id, request, body, output);
        JournalLeads(server, Base(server, request), h, s, Input(id, body), output);
      case Recovered(c, p) =>
        var r :| SameBodies(Replayable(h), r) && Recovers(log, c, p, id, request, r)
            && j == Journal(r, Input(id, body), output);
        ReplaySame(server, Base(server, request), h, r);
        RecoveredTail(log, c, p, id, request, r, body, output, |was|);
        RecoveredHolds(server, log, c, p, id, request, r, s, body, output);
        JournalLeads(server, Base(server, request), r, s, Input(id, body), output);
    }
  }

  /** The bound is real: recovery with a full journal starts over from a new session. */
  lemma FullJournalForgets<S>(server: Server<S>, course: Course, was: seq<Event>, log: seq<Event>, id: nat,
      request: Option<string>,
                              h: seq<Input>, j: seq<Input>, body: Body, output: Output)
    requires Honest(server, log) && QuietSince(log, |was|) && |h| >= MAX_PLAYBACK_SIZE && course.Recovered?
    requires Answers(log, Input(id, body), output) && IsSend(body.kind)
    requires Ran(course, was, log, id, request, h, j, Input(id, body), output)
    ensures Holds(server, log, id, server.step(Base(server, request), body))
  {
    hide Holds, Honest, Answers, QuietSince, Recovers, Journal, Base;
    var c, p := course.created, course.replay;
    var r :| SameBodies(Replayable(h), r) && Recovers(log, c, p, id, request, r)
        && j == Journal(r, Input(id, body), output);
    RecoveredTail(log, c, p, id, request, r, body, output, |was|);
    RecoveredHolds(server, log, c, p, id, request, r, Base(server, request), body, output);
  }

  // ---------- whole runs ----------

  /** The client is at state s: its journal leads there, and a session that is OK is there. */
  ghost predicate At<S>(server: Server<S>, c: Client, s: S)
    reads c, c.world
  {
    && Leads(server, Base(server, c.request), c.history, s)
    && if c.status.SERVER_OK? then Holds(server, c.world.log, c.id, s) else c.history == []
  }

  /** A first trial that is answered, or meets a server that is gone: what a second trial is for. */
  predicate CanGoOn(e: Event) {
    && e.Exchange?
    && (|| ReplyOf(e.outcome).Some? || e.outcome.NotConnected?
        || (e.outcome.Connected? && e.outcome.protocol == IPC_PROTOCOL_VERSION && e.outcome.transfer.Failed?))
  }

  /** From position p on, faults are met at most by a first trial in a session that is OK; the recovery meets none. */
  ghost predicate FaultsAtFirst(log: seq<Event>, p: nat, inSession: bool) {
    if inSession then p < |log| && CanGoOn(log[p]) && !FaultSince(log, p + 1) else !FaultSince(log, p)
  }

  lemma CanGoOnMeans(o: Outcome, id: nat, e: Event)
    requires CanGoOn(e) && e.outcome == o && !Lost(o, id)
    ensures ReplyOf(o).Some?
  {
  }

  method SendOne<S(!new)>(c: Client, ghost server: Server<S>, ghost s: S, body: Body) returns (ok: bool)
    requires c.Valid() && c.hasFactory && IsSend(body.kind)
    modifies c`id, c`status, c`protocolVersion, c`serverIsOlder, c`history, c`lastMode, c.world
    ensures c.Valid() && old(c.world.log) <= c.world.log
    ensures ok && Lawful(server, Base(server, c.request)) && Honest(server, c.world.log) && old(At(server, c, s))
            && QuietSince(c.world.log, |old(c.world.log)|) && |old(c.history)| < MAX_PLAYBACK_SIZE ==>
              && c.status.SERVER_OK? && At(server, c, server.step(s, WithPreferences(c.preferences, body)))
    // The call has to succeed when only its first trial meets a fault.
    ensures !Bad(old(c.status)) && FaultsAtFirst(c.world.log, |old(c.world.log)|, old(c.status).SERVER_OK?) ==> ok
  {
    hide Holds, Honest, Answers, Lawful, QuietSince, Base, Leads, Ran, Starts, Opened, FaultSince, CanGoOn, Lost;
    ghost var was, h := c.world.log, c.history;
    var output;
    ghost var course;
    ok, output, course := c.EnsureCallCommand(body, NoOutput());
    if old(c.status).SERVER_OK? && CanGoOn(c.world.log[|was|]) && !Lost(c.world.log[|was|].outcome, old(c.id)) {
      CanGoOnMeans(c.world.log[|was|].outcome, old(c.id), c.world.log[|was|]);
    }
    if ok && Lawful(server, Base(server, c.request)) && Honest(server, c.world.log) && old(At(server, c, s))
       && QuietSince(c.world.log, |was|) && |h| < MAX_PLAYBACK_SIZE {
      ghost var sent := WithPreferences(c.preferences, body);
      CallRefines(server, course, was, c.world.log, c.id, c.request, h, c.history, s, sent, output);
      EndsReplied(server, course, was, c.world.log, c.id, c.request, h, c.history, s, sent, output);
    }
  }

  lemma EndsReplied<S>(server: Server<S>, course: Course, was: seq<Event>, log: seq<Event>, id: nat,
      request: Option<string>,
                       h: seq<Input>, j: seq<Input>, s: S, body: Body, output: Output)
    requires QuietSince(log, |was|) && Answers(log, Input(id, body), output) && IsSend(body.kind)
               && |h| < MAX_PLAYBACK_SIZE
    requires Ran(course, was, log, id, request, h, j, Input(id, body), output)
               && Leads(server, Base(server, request), h, s)
    ensures course.Recovered? ==> AllReplied(log, course.replay)
  {
    hide Answers, QuietSince, Base, Replay, NewSession, Journal;
    if course.Recovered? {
      var c, p := course.created, course.replay;
      var r :| SameBodies(Replayable(h), r) && Recovers(log, c, p, id, request, r)
          && j == Journal(r, Input(id, body), output);
      RecoveredTail(log, c, p, id, request, r, body, output, |was|);
    }
  }

  /** Log length and journal size between two calls. */
  datatype Mark = Mark(length: nat, journal: nat)

  /**
    Call i of a run found room in the journal and lost nothing after its last CREATE_SESSION, and it returned
    true, or had to because only its first trial met a fault.
  */
  ghost predicate Smooth(log: seq<Event>, results: seq<bool>, marks: seq<Mark>, i: nat)
    requires i < |results| && |marks| == |results| + 1
  {
    && marks[i].journal < MAX_PLAYBACK_SIZE
    && marks[i + 1].length <= |log| && QuietSince(log[..marks[i + 1].length], marks[i].length)
    && (results[i] || FaultsAtFirst(log[..marks[i + 1].length], marks[i].length, i > 0))
  }

  /** A run of key and command calls leaves the session where a server that never crashed would have it. */
  method SendAll<S(!new)>(c: Client, ghost server: Server<S>, bodies: seq<Body>)
      returns (results: seq<bool>, ghost marks: seq<Mark>)
    requires c.Valid() && c.hasFactory && c.history == [] && !c.status.SERVER_OK?
    requires forall i :: 0 <= i < |bodies| ==> IsSend(bodies[i].kind)
    modifies c, c.world
    ensures |results| == |bodies| && |marks| == |bodies| + 1
    ensures marks[0] == Mark(|old(c.world.log)|, 0) && marks[|bodies|] == Mark(|c.world.log|, |c.history|)
    ensures !Bad(old(c.status)) && Lawful(server, Base(server, c.request)) && Honest(server, c.world.log)
              && bodies != []
            && (forall i :: 0 <= i < |bodies| ==> Smooth(c.world.log, results, marks, i)) ==>
              && (forall i :: 0 <= i < |bodies| ==> results[i])
              && Holds(server, c.world.log, c.id, Uninterrupted(server, Base(server, c.request), c.preferences, bodies))
  {
    hide Holds, Honest, Lawful, QuietSince, Base, Leads, Uninterrupted, FaultsAtFirst;
    results, marks := [], [Mark(|c.world.log|, 0)];
    ghost var base, prefs := Base(server, c.request), c.preferences;
    NoCalls(server, base, prefs);
    for i := 0 to |bodies|
      invariant c.Valid() && c.hasFactory && c.preferences == prefs && Base(server, c.request) == base
      invariant |results| == i && |marks| == i + 1 && marks[0] == Mark(|old(c.world.log)|, 0)
                  && marks[i] == Mark(|c.world.log|, |c.history|)
      invariant forall k :: 0 <= k <= i ==> marks[k].length <= |c.world.log|
      invariant var good := !Bad(old(c.status)) && Lawful(server, base) && Honest(server, c.world.log)
                            && AllSmooth(c.world.log, results, marks);
                && (good ==> At(server, c, Uninterrupted(server, base, prefs, bodies[..i])))
                && (good ==> (c.status.SERVER_OK? <==> i > 0))
                && (good ==> !Bad(c.status) && forall k :: 0 <= k < i ==> results[k])
    {
      ghost var was, s := c.world.log, Uninterrupted(server, base, prefs, bodies[..i]);
      ghost var oldResults, oldMarks := results, marks;
      var ok := SendOne(c, server, s, bodies[i]);
      results := results + [ok];
      marks := marks + [Mark(|c.world.log|, |c.history|)];
      OneMoreCall(server, base, prefs, bodies, i);
      if Honest(server, c.world.log) && AllSmooth(c.world.log, results, marks) {
        HonestEarlier(server, was, c.world.log);
        SmoothEarlier(was, c.world.log, oldResults, oldMarks, results, marks);
      }
    }
    assert bodies[..|bodies|] == bodies;
  }

  ghost predicate AllSmooth(log: seq<Event>, results: seq<bool>, marks: seq<Mark>)
    requires |marks| == |results| + 1
  {
    forall i :: 0 <= i < |results| ==> Smooth(log, results, marks, i)
  }

  lemma NoCalls<S>(server: Server<S>, base: S, prefs: Option<string>)
    ensures Leads(server, base, [], base) && Uninterrupted(server, base, prefs, []) == base
  {
  }

  lemma OneMoreCall<S>(server: Server<S>, s: S, prefs: Option<string>, bodies: seq<Body>, i: nat)
    requires i < |bodies|
    ensures Uninterrupted(server, s, prefs, bodies[..i + 1])
         == server.step(Uninterrupted(server, s, prefs, bodies[..i]), WithPreferences(prefs, bodies[i]))
  {
    assert bodies[..i + 1][..i] == bodies[..i];
  }

  lemma HonestEarlier<S>(server: Server<S>, was: seq<Event>, log: seq<Event>)
    requires was <= log && Honest(server, log)
    ensures Honest(server, was)
  {
    hide Truthful, Sessions;
    forall k | 0 <= k < |was| ensures Truthful(server, Sessions(server, was[..k]), was[k]) {
      assert was[..k] == log[..k];
    }
  }

  /** A run that has been smooth so far was smooth one call earlier. */
  lemma SmoothEarlier(was: seq<Event>, log: seq<Event>, r0: seq<bool>, m0: seq<Mark>, r: seq<bool>, m: seq<Mark>)
    requires was <= log && |m0| == |r0| + 1 && |r| == |r0| + 1 && |m| == |r| + 1 && r0 <= r && m0 <= m
    requires forall k :: 0 <= k < |m0| ==> m0[k].length <= |was|
    requires m[|r0|].length == |was| && m[|r|].length == |log|
    requires AllSmooth(log, r, m)
    ensures AllSmooth(was, r0, m0)
    ensures m[|r0|].journal < MAX_PLAYBACK_SIZE && QuietSince(log, |was|)
    ensures r[|r0|] || FaultsAtFirst(log, |was|, |r0| > 0)
  {
    hide QuietSince, FaultsAtFirst;
    forall i | 0 <= i < |r0| ensures Smooth(was, r0, m0, i) {
      assert Smooth(log, r, m, i);
      assert was[..m0[i + 1].length] == log[..m[i + 1].length];
    }
    assert Smooth(log, r, m, |r0|);
    assert log[..|log|] == log;
  }

  // ---------- a crash that is survived ----------

  /** A server that counts commands. */
  function Counter(): Server<int> {
    Server(0, (s: int, b: Body) => if b.kind == SEND_COMMAND then s + 1 else s,
           (s: int, b: Body) => Verdict(b.kind == SEND_COMMAND, false))
  }

  const COMMAND := Body(SEND_COMMAND, "", None)

  function Replied(input: Input, id: nat): Event {
    Exchange(input, Connected(IPC_PROTOCOL_VERSION, false, Parsed(Output(id, true, Some(true), None, false, None))),
        false)
  }

  function Crashed(input: Input): Event {
    Exchange(input, Connected(IPC_PROTOCOL_VERSION, false, Failed), false)
  }

  /** One command in session 7; the next one crashes the server and succeeds in session 8. */
  const CRASH_LOG: seq<Event> :=
    [Replied(Input(0, CREATE_BODY), 7), Replied(Input(7, COMMAND), 7),
     Crashed(Input(7, COMMAND)), StartServer(true), Replied(Input(0, CREATE_BODY), 8),
     Replied(Input(8, COMMAND), 8), Replied(Input(8, COMMAND), 8)]

  lemma CrashSessions()
    ensures Sessions(Counter(), CRASH_LOG[..0]) == map[]
    ensures Sessions(Counter(), CRASH_LOG[..1]) == map[7 := 0] && Sessions(Counter(), CRASH_LOG[..2]) == map[7 := 1]
    ensures Sessions(Counter(), CRASH_LOG[..3]) == map[] == Sessions(Counter(), CRASH_LOG[..4])
    ensures Sessions(Counter(), CRASH_LOG[..5]) == map[8 := 0] && Sessions(Counter(), CRASH_LOG[..6]) == map[8 := 1]
    ensures Sessions(Counter(), CRASH_LOG[..7]) == map[8 := 2]
  {
    hide Sessions;
    NoSessions(Counter());
    assert CRASH_LOG[..0] == [];
    OneEvent(Counter(), CRASH_LOG, 0);
    OneEvent(Counter(), CRASH_LOG, 1);
    OneEvent(Counter(), CRASH_LOG, 2);
    OneEvent(Counter(), CRASH_LOG, 3);
    OneEvent(Counter(), CRASH_LOG, 4);
    OneEvent(Counter(), CRASH_LOG, 5);
    OneEvent(Counter(), CRASH_LOG, 6);
  }

  lemma NoSessions<S>(server: Server<S>)
    ensures Sessions(server, []) == map[]
  {
  }

  /** The hypotheses of CallRefines are met by a call whose first trial crashes the server. */
  lemma CrashIsSurvived()
    ensures Lawful(Counter(), 0) && Honest(Counter(), CRASH_LOG) && QuietSince(CRASH_LOG, 2)
    ensures Answers(CRASH_LOG, Input(8, COMMAND), ReplyOf(CRASH_LOG[6].outcome).value)
    ensures Ran(Recovered(4, 5), CRASH_LOG[..2], CRASH_LOG, 8, None, [Input(7, COMMAND)],
              [Input(8, COMMAND), Input(8, COMMAND)],
                Input(8, COMMAND), ReplyOf(CRASH_LOG[6].outcome).value)
    ensures Leads(Counter(), 0, [Input(7, COMMAND)], 1) && Holds(Counter(), CRASH_LOG, 8, 2)
    ensures FaultsAtFirst(CRASH_LOG, 2, true) && Fault(CRASH_LOG[2])
  {
    hide Honest, Ran, Sessions;
    CrashHonest();
    CrashRan();
    CrashSessions();
    assert CRASH_LOG[..7] == CRASH_LOG;
    var h := [Input(7, COMMAND)];
    assert h[..0] == [] && Replay(Counter(), 0, []) == 0;
  }

  lemma CrashHonest()
    ensures Honest(Counter(), CRASH_LOG)
  {
    hide Sessions;
    CrashSessions();
    forall k | 0 <= k < |CRASH_LOG| ensures Truthful(Counter(), Sessions(Counter(), CRASH_LOG[..k]), CRASH_LOG[k]) {
      if k == 0 {} else if k == 1 {} else if k == 2 {} else if k == 3 {} else if k == 4 {} else if k == 5 {} else {}
    }
  }

  lemma CrashRan()
    ensures Ran(Recovered(4, 5), CRASH_LOG[..2], CRASH_LOG, 8, None, [Input(7, COMMAND)],
              [Input(8, COMMAND), Input(8, COMMAND)],
                Input(8, COMMAND), ReplyOf(CRASH_LOG[6].outcome).value)
  {
    var r := [Input(8, COMMAND)];
    assert SameBodies(Replayable([Input(7, COMMAND)]), r);
    assert NewSession(CRASH_LOG[..5], 4, 8, None);
    assert Replays(r, 8, CRASH_LOG[..6], 5);
    assert Recovers(CRASH_LOG, 4, 5, 8, None, r);
    assert Journal(r, Input(8, COMMAND), ReplyOf(CRASH_LOG[6].outcome).value) == [Input(8, COMMAND), Input(8, COMMAND)];
  }
}
