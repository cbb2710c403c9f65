/** What the answers to requests say, what shutdown does, and the runs in which a request is never answered. */
module Answers {
  import opened Totals
  import opened Requests
  import opened RequestRuns
  import opened Completion
  import opened Wrappers

  /* Inbound requests */

  /** A future that answers request `id` has ended in this way. */
  ghost predicate HasEnded(s: State, id: MsgId, end: End) {
    exists f :: 0 <= f < |s.futures| && Replies(s.futures[f].callback, id) && s.futures[f].status == Done(end)
  }

  /** The end comes from the request's future, or a request with this id came for an unknown method. */
  ghost predicate Justified(s: State, id: MsgId, end: End) {
    (end == UNKNOWN_METHOD && id in s.unknown) || HasEnded(s, id, end)
  }

  ghost predicate JustifiedToken(s: State, t: Token) {
    t.Respond? ==> t.end != Ended(RaisedBase) && Justified(s, t.id, t.end)
  }

  /** A result was returned by a future of that request; an error was raised by one, stands for another exception
      or for a cancellation, or says that the method is not known. */
  ghost predicate JustifiedAnswer(s: State, a: Answer) {
    match a.body
    case ResultBody(v) => HasEnded(s, a.id, Ended(Returned(v))) && (v.Value? ==> v.serialisable)
    case ErrorBody(code) =>
      || HasEnded(s, a.id, Ended(RaisedRpc(code, true)))
      || (code == -32603 && HasEnded(s, a.id, Ended(Raised)))
      || (code == -32800 && HasEnded(s, a.id, Cancelled))
      || (code == -32601 && a.id in s.unknown)
  }

  /** A response that was not written could not be serialised. */
  ghost predicate JustifiedDiscard(s: State, id: MsgId) {
    || (exists token :: HasEnded(s, id, Ended(Returned(Value(token, false)))))
    || (exists code :: HasEnded(s, id, Ended(RaisedRpc(code, false))))
  }

  ghost predicate AllJustified(s: State) {
    && JustifiedToken(s, s.main)
    && (forall i :: 0 <= i < |s.workers| ==> JustifiedToken(s, s.workers[i]))
    && (forall k :: 0 <= k < |s.written| ==> JustifiedAnswer(s, s.written[k]))
    && (forall k :: 0 <= k < |s.discarded| ==> JustifiedDiscard(s, s.discarded[k]))
  }

  ghost predicate Keeps(s: State, s': State) {
    && |s.futures| <= |s'.futures| && (forall id :: id in s.unknown ==> id in s'.unknown)
    && forall g :: 0 <= g < |s.futures| && s.futures[g].status.Done? ==> s'.futures[g] == s.futures[g]
  }

  lemma {:induction false} EndedStays(s: State, s': State, id: MsgId, end: End)
    requires HasEnded(s, id, end) && Keeps(s, s')
    ensures HasEnded(s', id, end)
  {
    var f :| 0 <= f < |s.futures| && Replies(s.futures[f].callback, id) && s.futures[f].status == Done(end);
    assert Replies(s'.futures[f].callback, id) && s'.futures[f].status == Done(end);
  }

  lemma {:induction false} TokenStays(s: State, s': State, t: Token)
    requires JustifiedToken(s, t) && Keeps(s, s')
    ensures JustifiedToken(s', t)
  {
    hide HasEnded;
    if t.Respond? && HasEnded(s, t.id, t.end) {
      EndedStays(s, s', t.id, t.end);
    }
  }

  lemma {:induction false} AnswerStays(s: State, s': State, a: Answer)
    requires JustifiedAnswer(s, a) && Keeps(s, s')
    ensures JustifiedAnswer(s', a)
  {
    forall end | HasEnded(s, a.id, end) ensures HasEnded(s', a.id, end) {
      EndedStays(s, s', a.id, end);
    }
    hide HasEnded;
  }

  lemma {:induction false} DiscardStays(s: State, s': State, id: MsgId)
    requires JustifiedDiscard(s, id) && Keeps(s, s')
    ensures JustifiedDiscard(s', id)
  {
    forall end | HasEnded(s, id, end) ensures HasEnded(s', id, end) {
      EndedStays(s, s', id, end);
    }
    hide HasEnded;
  }

  lemma {:induction false} AnswersStay(s: State, s': State)
    requires AllJustified(s) && Keeps(s, s')
    ensures JustifiedToken(s', s.main)
    ensures forall i :: 0 <= i < |s.workers| ==> JustifiedToken(s', s.workers[i])
    ensures forall k :: 0 <= k < |s.written| ==> JustifiedAnswer(s', s.written[k])
    ensures forall k :: 0 <= k < |s.discarded| ==> JustifiedDiscard(s', s.discarded[k])
  {
    hide JustifiedToken, JustifiedAnswer, JustifiedDiscard, Keeps;
    forall k | 0 <= k < |s.discarded| ensures JustifiedDiscard(s', s.discarded[k]) {
      DiscardStays(s, s', s.discarded[k]);
    }
    TokenStays(s, s', s.main);
    forall i | 0 <= i < |s.workers| ensures JustifiedToken(s', s.workers[i]) {
      TokenStays(s, s', s.workers[i]);
    }
    forall k | 0 <= k < |s.written| ensures JustifiedAnswer(s', s.written[k]) {
      AnswerStays(s, s', s.written[k]);
    }
  }

  lemma {:induction false} AdvanceJustified(s: State, t: Token)
    requires Sane(s, t) && JustifiedToken(s, t) && !Doubles(s, t)
    ensures var (s', t') := Advance(s, t);
            && Keeps(s, s') && JustifiedToken(s', t')
            && (s'.written == s.written ||
                exists a :: s'.written == s.written + [a] && JustifiedAnswer(s', a))
            && (s'.discarded == s.discarded ||
                exists id :: s'.discarded == s.discarded + [id] && JustifiedDiscard(s', id))
  {
    DoneStays(s, t);
    AdvanceFrame(s, t);
    if t.Respond? && Advance(s, t).0.written != s.written {
      var a := Advance(s, t).0.written[|s.written|];
      assert Advance(s, t).0.written == s.written + [a];
      assert JustifiedAnswer(Advance(s, t).0, a);
    }
    if t.Respond? && Advance(s, t).0.discarded != s.discarded {
      assert HasEnded(Advance(s, t).0, t.id, t.end);
      assert JustifiedDiscard(Advance(s, t).0, t.id);
    }
  }

  lemma {:induction false} NextJustified(s: State, e: Event)
    requires Guarded(s) && AllSane(s) && AllJustified(s)
    ensures AllJustified(Next(s, e))
  {
    hide Guarded, AllSane, AllJustified, Next;
    match e
    case MainStep => MainJustified(s);
    case WorkerStep(i) => if i < |s.workers| { WorkerJustified(s, i); } else { NotWorking(s, i); }
    case _ => OutsideJustified(s, e);
  }

  lemma {:induction false} NotWorking(s: State, i: nat)
    requires i >= |s.workers|
    ensures Next(s, WorkerStep(i)) == s
  {}

  lemma {:induction false} MainJustified(s: State)
    requires Guarded(s) && AllSane(s) && AllJustified(s)
    ensures AllJustified(Next(s, MainStep))
  {
    GuardedNeverDoubles(s);
    AdvanceJustified(s, s.main);
    AdvanceFrame(s, s.main);
    hide Advance, Guarded, Sane, Justified, JustifiedAnswer, JustifiedDiscard;
    AnswersStay(s, Next(s, MainStep));
    SameJustified(Advance(s, s.main).0, Next(s, MainStep));
  }

  lemma {:induction false} WorkerJustified(s: State, i: nat)
    requires Guarded(s) && AllSane(s) && AllJustified(s) && i < |s.workers|
    ensures AllJustified(Next(s, WorkerStep(i)))
  {
    GuardedNeverDoubles(s);
    AdvanceJustified(s, s.workers[i]);
    AdvanceFrame(s, s.workers[i]);
    hide Advance, Guarded, Sane, Justified, JustifiedAnswer, JustifiedDiscard;
    AnswersStay(s, Next(s, WorkerStep(i)));
    SameJustified(Advance(s, s.workers[i]).0, Next(s, WorkerStep(i)));
  }

  lemma {:induction false} SameJustified(s: State, n: State)
    requires n.futures == s.futures && n.unknown == s.unknown
    ensures forall id, end :: HasEnded(n, id, end) <==> HasEnded(s, id, end)
    ensures forall id, end :: Justified(n, id, end) <==> Justified(s, id, end)
    ensures forall a :: JustifiedAnswer(n, a) <==> JustifiedAnswer(s, a)
    ensures forall id :: JustifiedDiscard(n, id) <==> JustifiedDiscard(s, id)
  {
    forall id, end ensures HasEnded(n, id, end) <==> HasEnded(s, id, end) {
    }
    hide HasEnded;
  }

  lemma {:induction false} OutsideJustified(s: State, e: Event)
    requires AllJustified(s) && !e.MainStep? && !e.WorkerStep?
    ensures AllJustified(Next(s, e))
  {
    var n := Next(s, e);
    OutsideKeeps(s, e);
    OutsideMain(s, e);
    hide Next, Justified, JustifiedAnswer, JustifiedDiscard, Keeps;
    AnswersStay(s, n);
  }

  lemma {:induction false} OutsideKeeps(s: State, e: Event)
    requires !e.MainStep? && !e.WorkerStep?
    ensures var n := Next(s, e);
            && Keeps(s, n) && n.written == s.written && n.discarded == s.discarded
            && (n.workers == s.workers || exists f, cb :: n.workers == s.workers + [RunCallback(f, cb)])
  {}

  lemma {:induction false} OutsideMain(s: State, e: Event)
    requires !e.MainStep? && !e.WorkerStep?
    ensures Next(s, e).main == s.main || JustifiedToken(Next(s, e), Next(s, e).main)
  {}

  /** In every run, each answer has its reason: a result was returned by a future of that request, an error was
      raised by one, stands for its exception or cancellation, or says that the method is unknown; and what was not written
      could not be serialised. */
  lemma {:induction false} EveryAnswerJustified(events: seq<Event>)
    ensures AllJustified(Run(START, events))
  {
    if events != [] {
      var before := events[..|events| - 1];
      EveryAnswerJustified(before);
      RunGuarded(before);
      RunAlive(before, 0);
      NextJustified(Run(START, before), events[|events| - 1]);
    }
  }

  /** A request for a synchronous handler, from its arrival on: either the reading thread is at it, or it is told. */
  ghost predicate SyncUnderway(s: State, id: MsgId, o: Outcome) {
    || s.main == Execute(id, Sync(o), Reply(id))
    || (s.main.RunCallback? && s.main.callback == Reply(id) && s.main.future < |s.futures|
        && s.futures[s.main.future].status == Done(Ended(o)))
    || s.main == Respond(id, Ended(o))
    || Told(s, id, Ended(o))
  }

  lemma {:induction false} SyncMainStep(s: State, id: MsgId, o: Outcome)
    requires SyncUnderway(s, id, o) && o != RaisedBase
    ensures SyncUnderway(Next(s, MainStep), id, o)
  {
    if Told(s, id, Ended(o)) {
      AdvanceTold(s, s.main, id, Ended(o));
    }
  }

  lemma {:induction false} SyncOtherStep(s: State, e: Event, id: MsgId, o: Outcome)
    requires SyncUnderway(s, id, o) && o != RaisedBase && !e.MainStep?
    ensures SyncUnderway(Next(s, e), id, o)
  {
    match e
    case WorkerStep(i) =>
      if i < |s.workers| {
        AdvanceFrame(s, s.workers[i]);
        if Told(s, id, Ended(o)) {
          AdvanceTold(s, s.workers[i], id, Ended(o));
        }
      }
    case _ =>
  }

  lemma {:induction false} SyncRun(s: State, events: seq<Event>, id: MsgId, o: Outcome)
    requires SyncUnderway(s, id, o) && o != RaisedBase
    ensures SyncUnderway(Run(s, events), id, o)
  {
    if events != [] {
      var before, e := events[..|events| - 1], events[|events| - 1];
      SyncRun(s, before, id, o);
      if e.MainStep? {
        SyncMainStep(Run(s, before), id, o);
      } else {
        SyncOtherStep(Run(s, before), e, id, o);
      }
    }
  }

  /** Whatever the other threads do meanwhile, a request for a synchronous handler has been told its end by the
      time the reading thread turns to the next message; a `BaseException` ends that thread instead. */
  lemma {:induction false} SyncTold(s: State, events: seq<Event>, id: MsgId, o: Outcome)
    requires s.main.Idle? && !s.shutdown && o != RaisedBase
    requires var s0 := Receive(s, Request(id, Some(Sync(o)), false)); Run(s0, events).main.Idle?
    ensures Told(Run(Receive(s, Request(id, Some(Sync(o)), false)), events), id, Ended(o))
  {
    SyncRun(Receive(s, Request(id, Some(Sync(o)), false)), events, id, o);
  }

  /* Shutdown */

  ghost predicate IsExitMessage(e: Event) {
    e.Arrive? && (e.msg.Request? || e.msg.Notification?) && e.msg.isExit
  }

  /** From shutdown on, in every continuation: no request is dispatched, no entry is cancelled or responded to,
      and the reading thread starts nothing, unless an `exit` message arrives. */
  lemma {:induction false} ShutdownIsFinal(s: State, events: seq<Event>)
    requires s.shutdown && forall i :: 0 <= i < |events| ==> !IsExitMessage(events[i])
    ensures var n := Run(s, events);
            && n.shutdown && n.dispatched == s.dispatched && n.unknown == s.unknown
            && (s.main.Idle? ==> n.main.Idle?)
  {
    if events != [] {
      var before, e := events[..|events| - 1], events[|events| - 1];
      ShutdownIsFinal(s, before);
      assert !IsExitMessage(e);
      ShutdownStep(Run(s, before), e);
    }
  }

  lemma {:induction false} ShutdownStep(s: State, e: Event)
    requires s.shutdown && !IsExitMessage(e)
    ensures var n := Next(s, e);
            && n.shutdown && n.dispatched == s.dispatched && n.unknown == s.unknown
            && (s.main.Idle? ==> n.main.Idle?)
  {
    match e
    case MainStep => ShutdownAdvance(s, s.main);
    case WorkerStep(i) => if i < |s.workers| { ShutdownAdvance(s, s.workers[i]); }
    case _ =>
  }

  lemma {:induction false} ShutdownAdvance(s: State, t: Token)
    ensures var (s', t') := Advance(s, t);
            && s'.shutdown == s.shutdown && s'.dispatched == s.dispatched && s'.unknown == s.unknown && s'.main == s.main
            && (t.Idle? ==> t'.Idle?)
  {}

  /* Requests that are never answered */

  /** A generator handler that waits for a coroutine, and the coroutine ends cancelled. */
  function LostRun(gen: Gen): seq<Event> {
    [Arrive(Request(Given(1), Some(Generator(gen)), false)), MainStep, MainStep, MainStep, MainStep,
     FinishFuture(1, Cancelled), WorkerStep(0), WorkerStep(0), WorkerStep(0)]
  }

  function Suspending(gen: Gen): State {
    START.(futures := [Fut(Result, Pending, Reply(Given(1)))], table := map[Given(1) := 0], dispatched := [Given(1)],
      main := RunGenerator(None, gen, 0), handlers := map[0 := Generator(gen)])
  }

  lemma {:induction false} SuspendedBegin(gen: Gen)
    ensures Run(START, LostRun(gen)[..2]) == Suspending(gen)
  {
    var e := LostRun(gen);
    assert e[..0] == [] && Run(START, []) == START;
    hide Run;
    RunPrefix(e, 0);
    RunPrefix(e, 1);
  }

  lemma {:induction false} SuspendedSend(gen: Gen, rest: Gen)
    requires gen.resume(Null) == Yield(Coroutine, rest)
    ensures Next(Next(Suspending(gen), MainStep), MainStep)
         == Suspending(gen).(main := Execute(Uuid(0), Coroutine, Continue(rest, 0)), uuids := 1)
  {
    assert Next(Suspending(gen), MainStep) == Suspending(gen).(main := Send(None, gen, 0));
  }

  lemma {:induction false} SuspendedEnd(gen: Gen, rest: Gen)
    ensures Next(Suspending(gen).(main := Execute(Uuid(0), Coroutine, Continue(rest, 0)), uuids := 1), MainStep)
         == Suspending(gen).(main := Idle, uuids := 1,
              futures := [Fut(Result, Pending, Reply(Given(1))), Fut(Task, Pending, Continue(rest, 0))],
              table := map[Given(1) := 0, Uuid(0) := 1], handlers := map[0 := Generator(gen), 1 := Coroutine])
  {}

  lemma {:induction false} Suspended(gen: Gen, rest: Gen)
    requires gen.resume(Null) == Yield(Coroutine, rest)
    ensures Run(START, LostRun(gen)[..5]) == START.(
              futures := [Fut(Result, Pending, Reply(Given(1))), Fut(Task, Pending, Continue(rest, 0))],
              table := map[Given(1) := 0, Uuid(0) := 1], dispatched := [Given(1)], uuids := 1,
              handlers := map[0 := Generator(gen), 1 := Coroutine])
  {
    hide Run, Next;
    var e := LostRun(gen);
    SuspendedBegin(gen);
    SuspendedSend(gen, rest);
    SuspendedEnd(gen, rest);
    RunPrefix(e, 2);
    RunPrefix(e, 3);
    RunPrefix(e, 4);
  }

  lemma {:induction false} ThenNothing(e: seq<Event>, rest: Gen, s5: State)
    requires |e| == 9 && e[5] == FinishFuture(1, Cancelled) && e[6] == e[7] == e[8] == WorkerStep(0)
    requires s5 == Run(START, e[..5])
    requires s5.main.Idle? && s5.workers == [] && |s5.futures| == 2
    requires s5.futures[0] == Fut(Result, Pending, Reply(Given(1)))
    requires s5.futures[1] == Fut(Task, Pending, Continue(rest, 0))
    ensures Run(START, e) == s5.(
              futures := s5.futures[1 := Fut(Task, Done(Cancelled), Continue(rest, 0))], workers := [Idle])
  {
    hide Run;
    var s6 := s5.(futures := s5.futures[1 := Fut(Task, Done(Cancelled), Continue(rest, 0))],
      workers := [RunCallback(1, Continue(rest, 0))]);
    RunPrefix(e, 5);
    assert Run(START, e[..6]) == s6;
    RunPrefix(e, 6);
    assert Run(START, e[..7]) == s6.(workers := [RunGenerator(Some(1), rest, 0)]);
    RunPrefix(e, 7);
    assert Run(START, e[..8]) == s6.(workers := [Send(Some(1), rest, 0)]);
    RunPrefix(e, 8);
    assert e[..9] == e;
  }

  /** All is quiet, and the request was never answered. */
  lemma {:induction false} CancelledCoroutineLosesRequest(gen: Gen, rest: Gen)
    requires gen.resume(Null) == Yield(Coroutine, rest)
    ensures var s := Run(START, LostRun(gen));
            && Quiet(s) && Unanswerable(s, 0)
            && Dispatched(s, Given(1)) == 1 && s.written == [] && s.discarded == []
  {
    hide Run, Next;
    Suspended(gen, rest);
    ThenNothing(LostRun(gen), rest, Run(START, LostRun(gen)[..5]));
    var s := Run(START, LostRun(gen));
    assert LostWait(s.futures[1]);
    assert s.dispatched == [] + [Given(1)];
    TotalAppend([], Given(1), IsId(Given(1)));
  }

  /** A pooled handler that raises a `BaseException`: the callback raises it again, and nothing is written. */
  const SILENCED_RUN: seq<Event> :=
    [Arrive(Request(Given(1), Some(Threaded), false)), MainStep, StartPooled(0), FinishFuture(0, Ended(RaisedBase)), WorkerStep(0)]

  function Silenced1(status: Status): State {
    START.(futures := [Fut(Pooled, status, Reply(Given(1)))], table := map[Given(1) := 0], dispatched := [Given(1)],
           handlers := map[0 := Threaded])
  }

  const SILENCED_END := Silenced1(Done(Ended(RaisedBase))).(table := map[], workers := [Idle], silenced := [Given(1)])

  lemma {:induction false} SilencedBegin()
    ensures Run(START, SILENCED_RUN[..2]) == Silenced1(Pending)
  {
    var e := SILENCED_RUN;
    RunPrefix(e, 0);
    RunPrefix(e, 1);
    assert e[..0] == [] && Run(START, []) == START;
  }

  lemma {:induction false} SilencedMiddle()
    ensures Next(Next(Silenced1(Pending), SILENCED_RUN[2]), SILENCED_RUN[3])
         == Silenced1(Done(Ended(RaisedBase))).(workers := [RunCallback(0, Reply(Given(1)))])
  {
    assert Next(Silenced1(Pending), StartPooled(0)) == Silenced1(Running);
  }

  lemma {:induction false} SilencedLast()
    ensures Next(Silenced1(Done(Ended(RaisedBase))).(workers := [RunCallback(0, Reply(Given(1)))]), WorkerStep(0)) == SILENCED_END
  {
    var s := Silenced1(Done(Ended(RaisedBase))).(workers := [RunCallback(0, Reply(Given(1)))]);
    assert s.table - {Given(1)} == map[];
    assert s.silenced + [Given(1)] == [Given(1)];
    assert s.workers[0 := Idle] == [Idle];
  }

  lemma {:induction false} SilencedRunEnds()
    ensures Run(START, SILENCED_RUN) == SILENCED_END
  {
    hide Run, Next;
    var e := SILENCED_RUN;
    assert e[..5] == e;
    SilencedBegin();
    SilencedMiddle();
    SilencedLast();
    RunPrefix(e, 2);
    RunPrefix(e, 3);
    RunPrefix(e, 4);
  }

  lemma {:induction false} BaseExceptionSilencesRequest()
    ensures var s := Run(START, SILENCED_RUN);
            && Quiet(s) && Unanswerable(s, 0) && s.table == map[]
            && Dispatched(s, Given(1)) == 1 && s.written == [] && s.discarded == []
  {
    hide Run, Next;
    SilencedRunEnds();
    assert SILENCED_END.dispatched == [] + [Given(1)];
    TotalAppend([], Given(1), IsId(Given(1)));
  }
}
