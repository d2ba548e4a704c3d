/** When a session that was lost is not restored: the exact limits of crash and replay. */
module ClientForgets {
  import opened Wrappers
  import opened ClientWorld
  import opened ClientSession
  import opened ClientReplay

  /** One successful call: what was known before it, how it went, and what it left. */
  datatype Story<!S> = Story(server: Server<S>, course: Course, past: seq<Event>, was: seq<Event>, log: seq<Event>,
                             oldId: nat, id: nat, request: Option<string>, journal: seq<Input>, state: S,
                             body: Body, output: Output)

  /**
    A lawful server answered truthfully, once held the session in the state that journal h leads to,
    and the call met no fault after its last CREATE_SESSION.
  */
  ghost predicate Happened<S(!new)>(st: Story<S>, h: seq<Input>) {
    var base := Base(st.server, st.request);
    && Lawful(st.server, base) && Honest(st.server, st.log) && QuietSince(st.log, |st.was|)
    && st.past <= st.was <= st.log
    && Holds(st.server, st.past, st.oldId, st.state) && Leads(st.server, base, h, st.state)
    && Answers(st.log, Input(st.id, st.body), st.output) && IsSend(st.body.kind)
    && Ran(st.course, st.was, st.log, st.id, st.request, h, st.journal, Input(st.id, st.body), st.output)
  }

  /** The session is where a server that never lost it would be. */
  ghost predicate Refined<S(!new)>(st: Story<S>) {
    Holds(st.server, st.log, st.id, st.server.step(st.state, st.body))
  }

  lemma StoryRefines<S(!new)>(st: Story<S>, h: seq<Input>)
    requires Happened(st, h) && |h| < MAX_PLAYBACK_SIZE
    requires st.course.Recovered? || (st.course.Fresh? && h == [])
    ensures Refined(st)
  {
    hide Lawful, Honest, QuietSince, Holds, Leads, Answers, Ran, Base;
    CallRefines(st.server, st.course, st.was, st.log, st.id, st.request, h, st.journal, st.state, st.body, st.output);
  }

  // ---------- a server that records every input ----------

  function Recorder(): Server<seq<Body>> {
    Server([], (s: seq<Body>, b: Body) => s + [b], (s: seq<Body>, b: Body) => Verdict(true, false))
  }

  function Bodies(h: seq<Input>): (bs: seq<Body>)
    ensures |bs| == |h| && forall i :: 0 <= i < |h| ==> bs[i] == h[i].body
  {
    seq(|h|, i requires 0 <= i < |h| => h[i].body)
  }

  lemma {:induction false} RecordedJournal(h: seq<Input>)
    requires SendsOnly(h)
    ensures Leads(Recorder(), [], h, Bodies(h))
  {
    if h != [] {
      var k := |h| - 1;
      RecordedJournal(h[..k]);
      assert Bodies(h) == Bodies(h[..k]) + [h[k].body];
    }
  }

  /** Session 7 gets every input of h, is lost in an exchange of x, and a command goes to session 8. */
  function LossLog(h: seq<Input>, x: Body): (log: seq<Event>)
    ensures |log| == |h| + 5
  {
    [Replied(Input(0, CREATE_BODY), 7)] + seq(|h|, i requires 0 <= i < |h| => Replied(Input(7, h[i].body), 7))
    + [Crashed(Input(7, x)), StartServer(true), Replied(Input(0, CREATE_BODY), 8), Replied(Input(8, COMMAND), 8)]
  }

  lemma LossAt(h: seq<Input>, x: Body)
    ensures var log, n := LossLog(h, x), |h| + 1;
            && log[0] == Replied(Input(0, CREATE_BODY), 7)
            && (forall i :: 1 <= i < n ==> log[i] == Replied(Input(7, h[i - 1].body), 7))
            && log[n] == Crashed(Input(7, x)) && log[n + 1] == StartServer(true)
            && log[n + 2] == Replied(Input(0, CREATE_BODY), 8) && log[n + 3] == Replied(Input(8, COMMAND), 8)
  {
  }

  lemma {:induction false} SessionsBefore(h: seq<Input>, x: Body, n: nat)
    requires SendsOnly(h) && n <= |h|
    ensures Sessions(Recorder(), LossLog(h, x)[..n + 1]) == map[7 := Bodies(h[..n])]
  {
    hide Sessions, LossLog;
    var log := LossLog(h, x);
    LossAt(h, x);
    OneEvent(Recorder(), log, n);
    if n == 0 {
      NoSessions(Recorder());
      assert log[..0] == [] && h[..0] == [] && Bodies([]) == [];
    } else {
      SessionsBefore(h, x, n - 1);
      assert Bodies(h[..n]) == Bodies(h[..n - 1]) + [h[n - 1].body];
    }
  }

  lemma SessionsAfter(h: seq<Input>, x: Body)
    requires SendsOnly(h)
    ensures var log, n := LossLog(h, x), |h| + 1;
            && Sessions(Recorder(), log[..n + 1]) == map[] == Sessions(Recorder(), log[..n + 2])
            && Sessions(Recorder(), log[..n + 3]) == map[8 := []]
               && Sessions(Recorder(), log[..n + 4]) == map[8 := [COMMAND]]
  {
    hide Sessions, LossLog;
    var log, n := LossLog(h, x), |h| + 1;
    LossAt(h, x);
    OneEvent(Recorder(), log, n);
    OneEvent(Recorder(), log, n + 1);
    OneEvent(Recorder(), log, n + 2);
    OneEvent(Recorder(), log, n + 3);
    assert [] + [COMMAND] == [COMMAND];
  }

  lemma LossHonest(h: seq<Input>, x: Body)
    requires SendsOnly(h)
    ensures Honest(Recorder(), LossLog(h, x))
  {
    hide Sessions, LossLog;
    var log, n := LossLog(h, x), |h| + 1;
    LossAt(h, x);
    SessionsAfter(h, x);
    forall k | 0 <= k < |log| ensures Truthful(Recorder(), Sessions(Recorder(), log[..k]), log[k]) {
      if 1 <= k < n { SessionsBefore(h, x, k - 1); }
    }
  }

  // ---------- two ways to lose a composition ----------

  const ANSWER := Output(8, true, Some(true), None, false, None)

  /** The loss is noticed by another operation; the call finds no session and makes a new one. */
  function NoticedElsewhere(h: seq<Input>): Story<seq<Body>> {
    var log, n := LossLog(h, Body(NO_OPERATION, "", None)), |h| + 1;
    Story(Recorder(), Fresh(n + 2), log[..n], log[..n + 1], log, 7, 8, None,
          Journal(h, Input(8, COMMAND), ANSWER), Bodies(h), COMMAND, ANSWER)
  }

  /** The loss is noticed by the call itself, whose journal is full and dropped. */
  function JournalFull(h: seq<Input>): Story<seq<Body>> {
    var log, n := LossLog(h, COMMAND), |h| + 1;
    Story(Recorder(), Recovered(n + 2, n + 3), log[..n], log[..n], log, 7, 8, None,
          [Input(8, COMMAND)], Bodies(h), COMMAND, ANSWER)
  }

  lemma LossEnds(h: seq<Input>, x: Body, p: nat)
    requires SendsOnly(h) && |h| + 1 <= p && x.kind != CREATE_SESSION
    ensures var log, n := LossLog(h, x), |h| + 1;
            && Answers(log, Input(8, COMMAND), ANSWER) && QuietSince(log, p)
            && NewSession(log[..n + 3], n + 2, 8, None)
  {
    hide LossLog;
    LossAt(h, x);
    var log, n := LossLog(h, x), |h| + 1;
    assert log[..n + 3][n + 2] == log[n + 2];
    forall c, k | p <= c < k < |log| && IsCreate(log[c]) ensures Calm(log[k]) {
      assert c == n + 2 && k == n + 3;
    }
  }

  lemma LossHolds(h: seq<Input>, x: Body)
    requires SendsOnly(h)
    ensures var log, n := LossLog(h, x), |h| + 1;
            && Holds(Recorder(), log[..n], 7, Bodies(h))
            && (Holds(Recorder(), log, 8, Bodies(h) + [COMMAND]) <==> h == [])
  {
    hide Sessions, LossLog;
    var log, n := LossLog(h, x), |h| + 1;
    SessionsBefore(h, x, |h|);
    SessionsAfter(h, x);
    assert h[..|h|] == h && log[..n + 4] == log;
    assert Bodies([]) + [COMMAND] == [COMMAND];
    assert |Bodies(h) + [COMMAND]| == |h| + 1;
  }

  lemma RecorderLawful()
    ensures Lawful(Recorder(), []) && Base(Recorder(), None) == []
  {
  }

  /** Whatever the journal holds, a call that finds its session lost restarts from nothing. */
  lemma NoticedElsewhereHappened(h: seq<Input>)
    requires SendsOnly(h)
    ensures Happened(NoticedElsewhere(h), h) && NoticedElsewhere(h).course.Fresh?
    ensures Refined(NoticedElsewhere(h)) <==> h == []
  {
    hide Holds, LossLog, Lawful, Honest, QuietSince, Answers, Leads, NewSession, Journal, Base;
    var x := Body(NO_OPERATION, "", None);
    LossHonest(h, x);
    LossEnds(h, x, |h| + 2);
    LossHolds(h, x);
    RecordedJournal(h);
    RecorderLawful();
    var log, n := LossLog(h, x), |h| + 1;
    assert log[..|log| - 1] == log[..n + 3];
  }

  /** One command, a crash that NoOperation notices, another command: the session has seen one command, not two. */
  lemma CompositionLost()
    ensures var h := [Input(7, COMMAND)]; var st := NoticedElsewhere(h);
            && Happened(st, h) && Holds(Recorder(), st.past, 7, [COMMAND])
            && Holds(Recorder(), st.log, 8, [COMMAND]) && !Holds(Recorder(), st.log, 8, [COMMAND, COMMAND])
  {
    hide LossLog, Sessions, Happened;
    var h := [Input(7, COMMAND)];
    var log := LossLog(h, Body(NO_OPERATION, "", None));
    NoticedElsewhereHappened(h);
    LossHolds(h, Body(NO_OPERATION, "", None));
    SessionsAfter(h, Body(NO_OPERATION, "", None));
    assert Bodies(h) == [COMMAND] && log[..6] == log;
  }

  lemma JournalFullHappened(h: seq<Input>)
    requires SendsOnly(h) && |h| >= MAX_PLAYBACK_SIZE
    ensures Happened(JournalFull(h), h) && JournalFull(h).course.Recovered? && !Refined(JournalFull(h))
  {
    hide Holds, LossLog, Lawful, Honest, QuietSince, Answers, Leads, Base, Ran;
    LossHonest(h, COMMAND);
    LossEnds(h, COMMAND, |h| + 1);
    LossHolds(h, COMMAND);
    RecordedJournal(h);
    RecorderLawful();
    JournalFullRan(h);
  }

  lemma JournalFullRan(h: seq<Input>)
    requires SendsOnly(h) && |h| >= MAX_PLAYBACK_SIZE
    ensures var st := JournalFull(h);
            Ran(st.course, st.was, st.log, 8, None, h, st.journal, Input(8, COMMAND), ANSWER)
  {
    hide LossLog, NewSession;
    var log, n := LossLog(h, COMMAND), |h| + 1;
    LossEnds(h, COMMAND, n);
    assert log[..|log| - 1] == log[..n + 3];
    assert SameBodies(Replayable(h), []) && Recovers(log, n + 2, n + 3, 8, None, []);
    assert Journal([], Input(8, COMMAND), ANSWER) == [Input(8, COMMAND)];
  }

  /** A call that makes a new session at its first trial is in step, for every server, exactly with an empty journal. */
  lemma FreshExactly(h: seq<Input>)
    requires SendsOnly(h)
    ensures (forall st: Story<seq<Body>> :: Happened(st, h) && st.course.Fresh? ==> Refined(st)) <==> h == []
  {
    hide Happened, Refined;
    if h == [] {
      forall st: Story<seq<Body>> | Happened(st, h) && st.course.Fresh? ensures Refined(st) { StoryRefines(st, h); }
    } else {
      NoticedElsewhereHappened(h);
    }
  }

  /** A call that succeeds at its second trial is in step, for every server, exactly with a journal that is not full. */
  lemma RecoveredExactly(h: seq<Input>)
    requires SendsOnly(h)
    ensures (forall st: Story<seq<Body>> :: Happened(st, h) && st.course.Recovered? ==> Refined(st)) <==>
              |h| < MAX_PLAYBACK_SIZE
  {
    hide Happened, Refined;
    if |h| < MAX_PLAYBACK_SIZE {
      forall st: Story<seq<Body>> | Happened(st, h) && st.course.Recovered? ensures Refined(st) { StoryRefines(st, h); }
    } else {
      JournalFullHappened(h);
    }
  }
}
