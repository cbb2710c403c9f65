/** What becomes of the handlers of messages, over every run: they are started, each kind with a future of its own
    kind, and one that is running is out of a cancel notification's reach. */
module Handlers {
  import opened Totals
  import opened Requests
  import opened RequestRuns
  import opened Completion
  import opened Generators
  import opened Outbound
  import opened RequestTable
  import opened Wrappers

  /* Started */

  /** A future with this callback was made for the handler, after the first `base` futures. */
  ghost predicate Started(s: State, base: nat, h: Handler, cb: Callback) {
    exists f :: base <= f < |s.futures| && f in s.handlers && s.handlers[f] == h && s.futures[f].callback == cb
  }

  ghost predicate Starting(s: State, base: nat, h: Handler, cb: Callback) {
    base <= |s.futures| && ((s.main.Execute? && s.main.handler == h && s.main.callback == cb) || Started(s, base, h, cb))
  }

  ghost predicate Bounded(s: State) {
    forall u :: u in s.handlers ==> u < |s.futures|
  }

  lemma {:induction false} StartedStays(s: State, n: State, base: nat, h: Handler, cb: Callback)
    requires Started(s, base, h, cb) && Evolves(s, n)
    ensures Started(n, base, h, cb)
  {
    var f :| base <= f < |s.futures| && f in s.handlers && s.handlers[f] == h && s.futures[f].callback == cb;
    assert n.handlers[f] == h && n.futures[f].callback == cb;
  }

  lemma {:induction false} ExecuteStarts(s: State, x: MsgId, h: Handler, cb: Callback, base: nat)
    requires base <= |s.futures|
    ensures Started(ExecuteStep(s, x, h, cb).0, base, h, cb)
  {
    var s' := ExecuteStep(s, x, h, cb).0;
    assert |s.futures| in s'.handlers && s'.handlers[|s.futures|] == h && s'.futures[|s.futures|].callback == cb;
  }

  lemma {:induction false} NextEvolves(s: State, e: Event)
    requires Bounded(s)
    ensures Evolves(s, Next(s, e)) && Bounded(Next(s, e))
  {
    hide Advance, Receive, CanFinish, SetStatus;
    match e
    case MainStep => AdvanceEvolves(s, s.main);
    case WorkerStep(i) => if i < |s.workers| { AdvanceEvolves(s, s.workers[i]); }
    case _ => OutsideUnstarted(s, e);
  }

  lemma {:induction false} NextStarting(s: State, e: Event, base: nat, h: Handler, cb: Callback)
    requires Bounded(s) && Starting(s, base, h, cb)
    ensures Starting(Next(s, e), base, h, cb)
  {
    NextEvolves(s, e);
    if Started(s, base, h, cb) {
      StartedStays(s, Next(s, e), base, h, cb);
    } else if e.MainStep? {
      ExecuteStarts(s, s.main.id, h, cb, base);
      assert Started(Next(s, e), base, h, cb) by { MainExecutes(s, base, h, cb); }
    } else {
      hide Started, Evolves;
      MainKeeps(s, e);
    }
  }

  lemma {:induction false} MainExecutes(s: State, base: nat, h: Handler, cb: Callback)
    requires s.main.Execute? && Started(ExecuteStep(s, s.main.id, s.main.handler, s.main.callback).0, base, h, cb)
    ensures Started(Next(s, MainStep), base, h, cb)
  {}

  lemma {:induction false} MainKeeps(s: State, e: Event)
    requires !e.MainStep? && !s.main.Idle?
    ensures Next(s, e).main == s.main
  {
    if e.WorkerStep? && e.i < |s.workers| {
      AdvanceFrame(s, s.workers[e.i]);
    }
  }

  lemma {:induction false} RunBounded(events: seq<Event>)
    ensures Bounded(Run(START, events))
  {
    RunTraced(events);
  }

  lemma {:induction false} RunStarting(before: seq<Event>, after: seq<Event>, base: nat, h: Handler, cb: Callback)
    requires Starting(Run(START, before), base, h, cb)
    ensures Starting(Run(START, before + after), base, h, cb)
  {
    hide Starting, Bounded, Next;
    if after == [] {
      assert before + after == before;
    } else {
      var init, e := after[..|after| - 1], after[|after| - 1];
      RunStarting(before, init, base, h, cb);
      RunBounded(before + init);
      RunNext(START, before + init, e);
      assert before + after == (before + init) + [e];
      NextStarting(Run(START, before + init), e, base, h, cb);
    }
  }

  /** The handler of a request or notification that is not ignored has been started, with a future of its own, by
      the time the reading thread turns to the next message; the future of a request's handler answers the request,
      that of a notification's handler answers nobody. */
  lemma {:induction false} EveryHandlerStarts(before: seq<Event>, msg: Message, after: seq<Event>)
    requires var s := Run(START, before); s.main.Idle? && (msg.Request? || msg.Notification?) && (!s.shutdown || msg.isExit)
    requires msg.handler.Some? && Run(START, before + [Arrive(msg)] + after).main.Idle?
    ensures Started(Run(START, before + [Arrive(msg)] + after), |Run(START, before).futures|, msg.handler.value,
                    if msg.Request? then Reply(msg.id) else Check)
  {
    var s := Run(START, before);
    var cb := if msg.Request? then Reply(msg.id) else Check;
    RunNext(START, before, Arrive(msg));
    assert Starting(Next(s, Arrive(msg)), |s.futures|, msg.handler.value, cb);
    RunStarting(before + [Arrive(msg)], after, |s.futures|, msg.handler.value, cb);
  }

  /** A request for a method without a handler has been told so by then. */
  lemma {:induction false} UnknownTold(before: seq<Event>, id: MsgId, isExit: bool, after: seq<Event>)
    requires var s := Run(START, before); s.main.Idle? && (!s.shutdown || isExit)
    requires Run(START, before + [Arrive(Request(id, None, isExit))] + after).main.Idle?
    ensures Answer(id, ErrorBody(-32601)) in Run(START, before + [Arrive(Request(id, None, isExit))] + after).written
  {
    RunNext(START, before, Arrive(Request(id, None, isExit)));
    Refusing(before + [Arrive(Request(id, None, isExit))], after, id);
  }

  lemma {:induction false} Refusing(before: seq<Event>, after: seq<Event>, id: MsgId)
    requires var s := Run(START, before); s.main == Respond(id, UNKNOWN_METHOD) || Answer(id, ErrorBody(-32601)) in s.written
    ensures var s := Run(START, before + after); s.main == Respond(id, UNKNOWN_METHOD) || Answer(id, ErrorBody(-32601)) in s.written
  {
    hide Next;
    if after == [] {
      assert before + after == before;
    } else {
      var init, e := after[..|after| - 1], after[|after| - 1];
      Refusing(before, init, id);
      RunNext(START, before + init, e);
      assert before + after == (before + init) + [e];
      RefusingNext(Run(START, before + init), e, id);
    }
  }

  lemma {:induction false} RefusingNext(s: State, e: Event, id: MsgId)
    requires s.main == Respond(id, UNKNOWN_METHOD) || Answer(id, ErrorBody(-32601)) in s.written
    ensures Next(s, e).main == Respond(id, UNKNOWN_METHOD) || Answer(id, ErrorBody(-32601)) in Next(s, e).written
  {
    if s.main == Respond(id, UNKNOWN_METHOD) {
      if e.MainStep? {
        RefusedNow(s, id);
      } else {
        MainKeeps(s, e);
      }
    } else {
      WrittenStays(s, e, Answer(id, ErrorBody(-32601)));
    }
    hide Next;
  }

  lemma {:induction false} RefusedNow(s: State, id: MsgId)
    requires s.main == Respond(id, UNKNOWN_METHOD)
    ensures Answer(id, ErrorBody(-32601)) in Next(s, MainStep).written
  {
    assert Next(s, MainStep).written == s.written + [Answer(id, ErrorBody(-32601))];
  }

  lemma {:induction false} WrittenStays(s: State, e: Event, a: Answer)
    requires a in s.written
    ensures a in Next(s, e).written
  {
    match e
    case MainStep => WrittenKept(s, s.main, a);
    case WorkerStep(i) => if i < |s.workers| { WrittenKept(s, s.workers[i], a); }
    case _ =>
  }

  lemma {:induction false} WrittenKept(s: State, t: Token, a: Answer)
    requires a in s.written
    ensures a in Advance(s, t).0.written
  {}

  /* Kinds of futures */

  /** Coroutines become tasks, threaded handlers go to the pool; what a synchronous handler returned or raised is its
      future's end, unless it was a `BaseException`, which leaves the future to nobody. */
  ghost predicate FutureOf(s: State, f: nat, h: Handler) {
    f < |s.futures| &&
    var u := s.futures[f];
    match h
    case Coroutine => u.kind == Task
    case Threaded => u.kind == Pooled
    case Generator(_) => u.kind == Result
    case Sync(o) => u.kind == Result && if o == RaisedBase then f in s.unwound else u.status == Done(Ended(o))
  }

  ghost predicate AllKinds(s: State) {
    && (forall f :: f in s.handlers ==> FutureOf(s, f, s.handlers[f]))
    && (forall f :: 0 <= f < |s.futures| ==> (s.futures[f].kind.Outbound? <==> f !in s.handlers))
  }

  lemma {:induction false} FutureOfStays(s: State, n: State, f: nat, h: Handler)
    requires FutureOf(s, f, h) && f < |n.futures| && s.unwound <= n.unwound && n.futures[f].kind == s.futures[f].kind
    requires s.futures[f].status.Done? ==> n.futures[f].status == s.futures[f].status
    ensures FutureOf(n, f, h)
  {}

  lemma {:induction false} ExecuteKinds(s: State, x: MsgId, h: Handler, cb: Callback)
    ensures var (s', _) := ExecuteStep(s, x, h, cb);
            && s'.handlers == s.handlers[|s.futures| := h] && |s'.futures| == |s.futures| + 1
            && FutureOf(s', |s.futures|, h) && !s'.futures[|s.futures|].kind.Outbound?
  {}

  lemma {:induction false} StepHandlers(s: State, t: Token)
    ensures var (s', _) := Advance(s, t);
            && s.unwound <= s'.unwound
            && (t.Execute? ==> s'.handlers == s.handlers[|s.futures| := t.handler] && |s'.futures| == |s.futures| + 1
                               && FutureOf(s', |s.futures|, t.handler) && !s'.futures[|s.futures|].kind.Outbound?)
            && (!t.Execute? ==> s'.handlers == s.handlers && |s'.futures| == |s.futures|)
  {
    hide ExecuteStep, FutureOf;
    DoneStays(s, t);
    AdvanceSizes(s, t);
    if t.Execute? {
      ExecuteKinds(s, t.id, t.handler, t.callback);
    } else {
      SameHandlers(s, t);
    }
  }

  lemma {:induction false} SameHandlers(s: State, t: Token)
    ensures !t.Execute? ==> Advance(s, t).0.handlers == s.handlers
  {}

  lemma {:induction false} AdvanceKinds(s: State, t: Token)
    requires AllKinds(s)
    ensures AllKinds(Advance(s, t).0)
  {
    StepHandlers(s, t);
    AdvanceFrame(s, t);
    hide Advance, FutureOf;
    var n := Advance(s, t).0;
    forall f | f in n.handlers ensures FutureOf(n, f, n.handlers[f]) {
      if f in s.handlers && !(t.Execute? && f == |s.futures|) {
        FutureExists(s, f);
        FutureOfStays(s, n, f, s.handlers[f]);
      }
    }
  }

  lemma {:induction false} FutureExists(s: State, f: nat)
    requires f in s.handlers && FutureOf(s, f, s.handlers[f])
    ensures f < |s.futures|
  {}

  lemma {:induction false} OutsideKinds(s: State, e: Event)
    requires AllKinds(s) && !e.MainStep? && !e.WorkerStep?
    ensures AllKinds(Next(s, e))
  {
    var n := Next(s, e);
    OutsideFutures(s, e);
    hide Next, FutureOf;
    forall f | f in n.handlers ensures FutureOf(n, f, n.handlers[f]) {
      FutureExists(s, f);
      FutureOfStays(s, n, f, s.handlers[f]);
    }
  }

  lemma {:induction false} OutsideFutures(s: State, e: Event)
    requires !e.MainStep? && !e.WorkerStep?
    ensures var n := Next(s, e);
            && n.handlers == s.handlers && n.unwound == s.unwound && |s.futures| <= |n.futures|
            && (forall f :: 0 <= f < |s.futures| ==>
                  n.futures[f].kind == s.futures[f].kind && (s.futures[f].status.Done? ==> n.futures[f] == s.futures[f]))
            && (forall f :: |s.futures| <= f < |n.futures| ==> n.futures[f].kind.Outbound?)
  {}

  lemma {:induction false} SameKinds(s: State, n: State)
    requires AllKinds(s) && n == s.(main := n.main, workers := n.workers)
    ensures AllKinds(n)
  {
    forall f | f in n.handlers ensures FutureOf(n, f, n.handlers[f]) {
      FutureOfStays(s, n, f, s.handlers[f]);
    }
  }

  /** In every run each future is of the kind that its handler asks for, and the others are of requests sent. */
  lemma {:induction false} EveryFutureOfHandler(events: seq<Event>)
    ensures AllKinds(Run(START, events))
  {
    if events != [] {
      var before, e := events[..|events| - 1], events[|events| - 1];
      EveryFutureOfHandler(before);
      NextKinds(Run(START, before), e);
    }
  }

  lemma {:induction false} NextKinds(s: State, e: Event)
    requires AllKinds(s)
    ensures AllKinds(Next(s, e))
  {
    hide Advance, AllKinds;
    match e
    case MainStep =>
      AdvanceKinds(s, s.main);
      SameKinds(Advance(s, s.main).0, Next(s, e));
    case WorkerStep(i) =>
      if i < |s.workers| {
        AdvanceKinds(s, s.workers[i]);
        SameKinds(Advance(s, s.workers[i]).0, Next(s, e));
      }
    case _ => OutsideKinds(s, e);
  }

  /* Running */

  /** The handler behind this future is running: in the pool, or in the event loop. */
  ghost predicate Working(u: Fut) {
    (u.kind.Pooled? && u.status.Running?) || (u.kind.Task? && !u.status.Done?)
  }

  /** What could end it otherwise: the pool or the loop, and a response of the peer that bears the request's id. */
  ghost predicate Touches(e: Event, f: nat, id: MsgId) {
    (e.FinishFuture? && e.f == f) || (e.Arrive? && e.msg.Response? && e.msg.id == id)
  }

  ghost predicate Untouched(s: State, f: nat, id: MsgId) {
    && f < |s.futures| && s.futures[f].callback == Reply(id) && Working(s.futures[f])
    && !(s.main.SetFuture? && s.main.future == f)
  }

  lemma {:induction false} EntryIsOwn(s: State, f: nat, id: MsgId, x: MsgId)
    requires Untouched(s, f, id) && Entry(s, x) && x in s.table && s.table[x] == f
    ensures x == id
  {}

  lemma {:induction false} AdvanceWorking(s: State, t: Token, f: nat)
    requires f < |s.futures| && Working(s.futures[f]) && !(t.SetFuture? && t.future == f)
    requires t.Settle? && t.target < |s.futures| ==> s.futures[t.target].kind.Result?
    ensures Advance(s, t).0.futures[f] == s.futures[f]
  {}

  lemma {:induction false} NextUntouched(s: State, e: Event, f: nat, id: MsgId)
    requires Untouched(s, f, id) && !Touches(e, f, id) && AllTraced(s) && Guarded(s) && forall x :: Entry(s, x)
    ensures Untouched(Next(s, e), f, id) && Next(s, e).futures[f] == s.futures[f]
  {
    hide Advance, AllTraced, Entry, Guarded;
    match e
    case MainStep => MainUntouched(s, f, id);
    case WorkerStep(i) => if i < |s.workers| { WorkerUntouched(s, i, f, id); }
    case Arrive(msg) => if s.main.Idle? { ReceiveUntouched(s, msg, f, id); }
    case _ =>
  }

  lemma {:induction false} MainUntouched(s: State, f: nat, id: MsgId)
    requires Untouched(s, f, id) && AllTraced(s)
    ensures Untouched(Next(s, MainStep), f, id) && Next(s, MainStep).futures[f] == s.futures[f]
  {
    AdvanceFrame(s, s.main);
    SettlesResult(s, s.main);
    AdvanceWorking(s, s.main, f);
    NoTaking(s, s.main);
    hide Advance, AllTraced;
  }

  lemma {:induction false} WorkerUntouched(s: State, i: nat, f: nat, id: MsgId)
    requires Untouched(s, f, id) && AllTraced(s) && Guarded(s) && i < |s.workers|
    ensures Untouched(Next(s, WorkerStep(i)), f, id) && Next(s, WorkerStep(i)).futures[f] == s.futures[f]
  {
    AdvanceFrame(s, s.workers[i]);
    SettlesResult(s, s.workers[i]);
    assert WorkerToken(s, s.workers[i]);
    AdvanceWorking(s, s.workers[i], f);
    hide Advance, AllTraced, Guarded;
  }

  lemma {:induction false} ReceiveUntouched(s: State, msg: Message, f: nat, id: MsgId)
    requires Untouched(s, f, id) && s.main.Idle? && !Touches(Arrive(msg), f, id) && forall x :: Entry(s, x)
    ensures Untouched(Receive(s, msg), f, id) && Receive(s, msg).futures == s.futures
  {
    hide Entry;
    if msg.Response? && msg.id in s.table && s.table[msg.id] == f {
      EntryIsOwn(s, f, id, msg.id);
    }
  }

  /** A running handler is out of reach: whatever arrives but a response that bears the request's id, a cancel
      notification among it, its future stays as it is until the pool or the event loop ends it. */
  lemma {:induction false} RunningSurvives(before: seq<Event>, between: seq<Event>, f: nat, id: MsgId)
    requires Untouched(Run(START, before), f, id) && forall i :: 0 <= i < |between| ==> !Touches(between[i], f, id)
    ensures var n := Run(START, before + between); Untouched(n, f, id) && n.futures[f] == Run(START, before).futures[f]
  {
    hide Untouched, Next;
    if between == [] {
      assert before + between == before;
    } else {
      var init, e := between[..|between| - 1], between[|between| - 1];
      RunningSurvives(before, init, f, id);
      RunNext(START, before + init, e);
      assert before + between == (before + init) + [e];
      RunTraced(before + init);
      RunGuarded(before + init);
      forall x ensures Entry(Run(START, before + init), x) {
        EveryEntry(before + init, x);
      }
      assert !Touches(between[|between| - 1], f, id);
      hide Touches, AllTraced, Guarded, Entry;
      NextUntouched(Run(START, before + init), e, f, id);
    }
  }

  /** And the request is told that end, however it was cancelled meanwhile; only a task can end as cancelled. */
  lemma {:induction false} RunningTold(before: seq<Event>, between: seq<Event>, f: nat, id: MsgId, end: End, after: seq<Event>)
    requires Untouched(Run(START, before), f, id) && forall i :: 0 <= i < |between| ==> !Touches(between[i], f, id)
    requires end.Cancelled? ==> Run(START, before).futures[f].kind.Task?
    requires Quiet(Run(START, before + between + [FinishFuture(f, end)] + after))
    ensures Told(Run(START, before + between + [FinishFuture(f, end)] + after), id, end)
  {
    var s, n := Run(START, before + between), Run(START, before + between + [FinishFuture(f, end)]);
    RunningSurvives(before, between, f, id);
    RunNext(START, before + between, FinishFuture(f, end));
    assert n.futures[f] == s.futures[f].(status := Done(end));
    hide Next, Quiet, Told, Untouched, Run;
    RunAppend(START, before + between + [FinishFuture(f, end)], after);
    EndsStay(n, after, f);
    EndsTold(before + between + [FinishFuture(f, end)] + after, f);
  }

  /* Cancelled generators */

  /** Some thread is about to resume the generator behind `f`, or to start a handler that it yielded. */
  ghost predicate Resumes(t: Token, f: nat) {
    (t.Send? && t.target == f) || (t.Execute? && Targets(t.callback, f))
  }

  /** The generator is cancelled, nobody resumes it, and after the first `base` futures none is made for it. */
  ghost predicate Halted(s: State, f: nat, base: nat) {
    && f < base <= |s.futures| && s.futures[f].status == Done(Cancelled)
    && !Resumes(s.main, f) && (forall i :: 0 <= i < |s.workers| ==> !Resumes(s.workers[i], f))
    && (forall g :: base <= g < |s.futures| ==> !Targets(s.futures[g].callback, f))
  }

  lemma {:induction false} AdvanceHalted(s: State, t: Token, f: nat)
    requires f < |s.futures| && s.futures[f].status == Done(Cancelled) && !Resumes(t, f)
    ensures !Resumes(Advance(s, t).1, f)
  {}

  lemma {:induction false} StepHalted(s: State, t: Token, f: nat, base: nat)
    requires f < base <= |s.futures| && s.futures[f].status == Done(Cancelled) && !Resumes(t, f)
    requires forall g :: base <= g < |s.futures| ==> !Targets(s.futures[g].callback, f)
    ensures var n := Advance(s, t).0;
            && base <= |n.futures| && n.futures[f] == s.futures[f]
            && forall g :: base <= g < |n.futures| ==> !Targets(n.futures[g].callback, f)
  {
    AdvanceFrame(s, t);
    DoneStays(s, t);
    NewCallback(s, t);
    hide Advance;
  }

  lemma {:induction false} NextHalted(s: State, e: Event, f: nat, base: nat)
    requires Halted(s, f, base)
    ensures Halted(Next(s, e), f, base)
  {
    hide Advance, Receive;
    match e
    case MainStep =>
      AdvanceFrame(s, s.main);
      StepHalted(s, s.main, f, base);
      AdvanceHalted(s, s.main, f);
    case WorkerStep(i) =>
      if i < |s.workers| {
        AdvanceFrame(s, s.workers[i]);
        StepHalted(s, s.workers[i], f, base);
        AdvanceHalted(s, s.workers[i], f);
      }
    case Arrive(msg) => if s.main.Idle? { ReceiveHalted(s, msg, f, base); }
    case _ =>
  }

  lemma {:induction false} ReceiveHalted(s: State, msg: Message, f: nat, base: nat)
    requires Halted(s, f, base)
    ensures Halted(Receive(s, msg), f, base)
  {}

  /** In every continuation, a generator whose future was cancelled is not resumed, and none of the handlers that it
      might yield is started, from the moment that no thread is about to do so. */
  lemma {:induction false} CancelledGeneratorStops(s: State, events: seq<Event>, f: nat)
    requires Halted(s, f, |s.futures|)
    ensures Halted(Run(s, events), f, |s.futures|)
  {
    hide Halted, Next;
    if events != [] {
      CancelledGeneratorStops(s, events[..|events| - 1], f);
      NextHalted(Run(s, events[..|events| - 1]), events[|events| - 1], f, |s.futures|);
    }
  }

  /* Shutdown */

  /** Requests are refused from the moment `shutdown` was called, and not before. */
  lemma {:induction false} ShutdownWhen(events: seq<Event>)
    ensures Run(START, events).shutdown <==> SetShutdown in events
  {
    if events != [] {
      var before, e := events[..|events| - 1], events[|events| - 1];
      ShutdownWhen(before);
      assert events == before + [e];
      ShutdownNext(Run(START, before), e);
    }
  }

  lemma {:induction false} ShutdownNext(s: State, e: Event)
    ensures Next(s, e).shutdown <==> s.shutdown || e == SetShutdown
  {
    match e
    case MainStep => ShutdownSame(s, s.main);
    case WorkerStep(i) => if i < |s.workers| { ShutdownSame(s, s.workers[i]); }
    case _ =>
  }

  lemma {:induction false} ShutdownSame(s: State, t: Token)
    ensures Advance(s, t).0.shutdown == s.shutdown
  {}
}
