/** What generator handlers are sent and how they end, over every run. */
module Generators {
  import opened Requests
  import opened RequestRuns
  import opened Wrappers

  /* Chains of yields */

  /** A generator about to be sent a value. */
  datatype Point = Point(gen: Gen, value: Value)

  /** Where generator `g` of future `f` is after it has waited for these futures, in order: started with `None`, it
      yielded for each of them the handler that the future was made for, with `f` to go on, and was sent what that
      handler returned. */
  ghost function Reached(s: State, f: nat, g: Gen, steps: seq<nat>): Option<Point> {
    if steps == [] then Some(Point(g, Null))
    else
      var u := steps[|steps| - 1];
      match Reached(s, f, g, steps[..|steps| - 1])
      case None => None
      case Some(p) =>
        match (p.gen.resume(p.value), At(s, u).status)
        case (Yield(h, rest), Done(Ended(Returned(v)))) =>
          if u in s.handlers && s.handlers[u] == h && At(s, u).callback == Continue(rest, f) then Some(Point(rest, v))
          else None
        case _ => None
  }

  ghost predicate IsAt(s: State, f: nat, steps: seq<nat>, p: Point) {
    f in s.handlers && s.handlers[f].Generator? && Reached(s, f, s.handlers[f].gen, steps) == Some(p)
  }

  /** The generator behind `f` has yielded `h` and goes on as `rest`. */
  ghost predicate Yielded(s: State, f: nat, h: Handler, rest: Gen) {
    exists steps, p :: IsAt(s, f, steps, p) && p.gen.resume(p.value) == Yield(h, rest)
  }

  ghost predicate Finished(s: State, f: nat, o: Outcome) {
    exists steps, p :: IsAt(s, f, steps, p) && p.gen.resume(p.value) == Finish(o)
  }

  /** The future of a yielded handler has an error: its own, or none of its own because it was cancelled, or it
      was taken before its own generator had run. */
  ghost predicate Failed(s: State, u: nat, o: Outcome) {
    || (At(s, u).status == Done(Ended(o)) && !o.Returned? && !o.RaisedBase?)
    || (o == Raised && At(s, u).status == Done(Cancelled) && !At(s, u).kind.Task?)
    || (o == Raised && u in s.taken)
  }

  /** Future `u` was made for the handler that the generator behind `f` yielded, to go on as `rest`. */
  ghost predicate Awaits(s: State, f: nat, u: nat, rest: Gen) {
    u in s.handlers && At(s, u).callback == Continue(rest, f) && Yielded(s, f, s.handlers[u], rest)
  }

  ghost predicate FailedStep(s: State, f: nat, o: Outcome) {
    exists u, rest :: Awaits(s, f, u, rest) && Failed(s, u, o)
  }

  /** The end of the chain: what the generator returned or raised, or the error of a handler it yielded. */
  ghost predicate EndsAs(s: State, f: nat, end: End) {
    end.Ended? && (Finished(s, f, end.outcome) || FailedStep(s, f, end.outcome))
  }

  /* What stays */

  ghost predicate Evolves(s: State, n: State) {
    && |s.futures| <= |n.futures| && s.taken <= n.taken
    && (forall u :: u in s.handlers ==> u < |s.futures| && u in n.handlers && n.handlers[u] == s.handlers[u])
    && (forall u :: 0 <= u < |s.futures| ==>
          && n.futures[u].callback == s.futures[u].callback && n.futures[u].kind == s.futures[u].kind
          && (s.futures[u].status.Done? ==> n.futures[u].status == s.futures[u].status))
  }

  lemma {:induction false} ReachedStays(s: State, n: State, f: nat, g: Gen, steps: seq<nat>)
    requires Evolves(s, n) && Reached(s, f, g, steps).Some?
    ensures Reached(n, f, g, steps) == Reached(s, f, g, steps)
  {
    if steps != [] {
      ReachedStays(s, n, f, g, steps[..|steps| - 1]);
    }
  }

  lemma {:induction false} IsAtStays(s: State, n: State, f: nat, steps: seq<nat>, p: Point)
    requires Evolves(s, n) && IsAt(s, f, steps, p)
    ensures IsAt(n, f, steps, p)
  {
    ReachedStays(s, n, f, s.handlers[f].gen, steps);
  }

  lemma {:induction false} YieldedStays(s: State, n: State, f: nat, h: Handler, rest: Gen)
    requires Evolves(s, n) && Yielded(s, f, h, rest)
    ensures Yielded(n, f, h, rest)
  {
    hide IsAt, Evolves;
    var steps, p :| IsAt(s, f, steps, p) && p.gen.resume(p.value) == Yield(h, rest);
    IsAtStays(s, n, f, steps, p);
  }

  lemma {:induction false} EndsAsStays(s: State, n: State, f: nat, end: End)
    requires Evolves(s, n) && EndsAs(s, f, end)
    ensures EndsAs(n, f, end)
  {
    hide IsAt, Yielded;
    if Finished(s, f, end.outcome) {
      var steps, p :| IsAt(s, f, steps, p) && p.gen.resume(p.value) == Finish(end.outcome);
      IsAtStays(s, n, f, steps, p);
    } else {
      var u, rest :| Awaits(s, f, u, rest) && Failed(s, u, end.outcome);
      YieldedStays(s, n, f, s.handlers[u], rest);
      assert Awaits(n, f, u, rest) && Failed(n, u, end.outcome);
    }
  }

  /* What threads hold */

  ghost predicate Traced(s: State, t: Token) {
    match t
    case Execute(_, h, Continue(rest, target)) => Yielded(s, target, h, rest)
    case RunGenerator(from, g, target) => TracedFrom(s, from, g, target)
    case Send(from, g, target) => TracedFrom(s, from, g, target)
    case Settle(target, o, _) => EndsAs(s, target, Ended(o))
    case CancelFuture(g) => g in s.taken
    case SetFuture(g, _) => g in s.taken
    case _ => true
  }

  ghost predicate TracedFrom(s: State, from: Option<nat>, g: Gen, target: nat) {
    if from.None? then IsAt(s, target, [], Point(g, Null))
    else Awaits(s, target, from.value, g)
  }

  ghost predicate TracedCallback(s: State, u: nat) {
    u < |s.futures| && s.futures[u].callback.Continue? ==>
      u in s.handlers && Yielded(s, s.futures[u].callback.target, s.handlers[u], s.futures[u].callback.gen)
  }

  /** A generator's future that ended by itself ended as its chain does. */
  ghost predicate TracedEnd(s: State, f: nat) {
    f < |s.futures| && f in s.handlers && s.handlers[f].Generator? ==>
      && s.futures[f].kind.Result?
      && (s.futures[f].status.Done? && f !in s.taken ==> EndsAs(s, f, s.futures[f].status.end))
  }

  ghost predicate AllTraced(s: State) {
    && (forall u :: u in s.handlers ==> u < |s.futures|)
    && Traced(s, s.main) && (forall i :: 0 <= i < |s.workers| ==> Traced(s, s.workers[i]))
    && (forall u: nat :: TracedCallback(s, u))
    && (forall f: nat :: TracedEnd(s, f))
  }

  lemma {:induction false} TracedStays(s: State, n: State, t: Token)
    requires Evolves(s, n) && Traced(s, t)
    ensures Traced(n, t)
  {
    hide Evolves, Yielded, EndsAs, IsAt;
    match t
    case Execute(_, h, Continue(rest, target)) => YieldedStays(s, n, target, h, rest);
    case RunGenerator(from, g, target) => TracedFromStays(s, n, from, g, target);
    case Send(from, g, target) => TracedFromStays(s, n, from, g, target);
    case Settle(target, o, _) => EndsAsStays(s, n, target, Ended(o));
    case CancelFuture(_) => TakenStays(s, n);
    case SetFuture(_, _) => TakenStays(s, n);
    case _ =>
  }

  lemma {:induction false} TakenStays(s: State, n: State)
    requires Evolves(s, n)
    ensures s.taken <= n.taken
  {}

  lemma {:induction false} TracedFromStays(s: State, n: State, from: Option<nat>, g: Gen, target: nat)
    requires Evolves(s, n) && TracedFrom(s, from, g, target)
    ensures TracedFrom(n, from, g, target)
  {
    hide Yielded, IsAt;
    if from.None? {
      IsAtStays(s, n, target, [], Point(g, Null));
    } else {
      YieldedStays(s, n, target, s.handlers[from.value], g);
    }
  }

  /* Steps */

  lemma {:induction false} AdvanceEvolves(s: State, t: Token)
    requires forall u :: u in s.handlers ==> u < |s.futures|
    ensures var (s', _) := Advance(s, t); Evolves(s, s') && (forall u :: u in s'.handlers ==> u < |s'.futures|)
  {
    AdvanceFrame(s, t);
    DoneStays(s, t);
  }

  /** Resuming: the value is that of the awaited future, and what comes of it is what the generator does. */
  lemma {:induction false} SendTraced(s: State, from: Option<nat>, g: Gen, target: nat)
    requires forall u :: u in s.handlers ==> u < |s.futures|
    requires TracedFrom(s, from, g, target) && (from.Some? ==> from.value < |s.futures| && s.futures[from.value].status.Done?)
    ensures var (s', t') := SendStep(s, from, g, target); Traced(s', t')
  {
    var (s', t') := SendStep(s, from, g, target);
    if from.None? {
      ActionTraced(s, from, target, [], Point(g, Null));
      SameTraced(s, s', t');
    } else {
      var u := from.value;
      var steps, p :| IsAt(s, target, steps, p) && p.gen.resume(p.value) == Yield(s.handlers[u], g);
      var end := s.futures[u].status.end;
      if end.Ended? && end.outcome.Returned? {
        var v := end.outcome.value;
        assert (steps + [u])[..|steps|] == steps;
        assert IsAt(s, target, steps + [u], Point(g, v));
        ActionTraced(s, from, target, steps + [u], Point(g, v));
        SameTraced(s, s', t');
      } else if t'.Settle? {
        assert Awaits(s, target, u, g) && Failed(s, u, t'.outcome);
      }
    }
  }

  lemma {:induction false} ActionTraced(s: State, from: Option<nat>, target: nat, steps: seq<nat>, p: Point)
    requires IsAt(s, target, steps, p)
    ensures var (s', t') := AfterSend(s, from, target, p.gen.resume(p.value)); Traced(s, t')
  {
    hide IsAt;
    match p.gen.resume(p.value)
    case Finish(o) => assert Finished(s, target, o);
    case Yield(h, rest) => assert Yielded(s, target, h, rest);
  }

  lemma {:induction false} SameTraced(s: State, n: State, t: Token)
    requires n == s.(uuids := n.uuids, unwound := n.unwound) && Traced(s, t)
    requires forall u :: u in s.handlers ==> u < |s.futures|
    ensures Traced(n, t)
  {
    TracedStays(s, n, t);
  }

  lemma {:induction false} ExecuteTraced(s: State, x: MsgId, h: Handler, cb: Callback)
    requires forall u :: u in s.handlers ==> u < |s.futures|
    requires cb.Continue? ==> Yielded(s, cb.target, h, cb.gen)
    ensures var (s', t') := ExecuteStep(s, x, h, cb);
            Traced(s', t') && TracedCallback(s', |s.futures|) && TracedEnd(s', |s.futures|)
  {
    var f := |s.futures|;
    var (s', t') := ExecuteStep(s, x, h, cb);
    assert s' == Advance(s, Execute(x, h, cb)).0;
    AdvanceEvolves(s, Execute(x, h, cb));
    if cb.Continue? {
      YieldedStays(s, s', cb.target, h, cb.gen);
    }
    if h.Generator? {
      assert IsAt(s', f, [], Point(h.gen, Null));
    }
  }

  /** Only a cancel or a response can have ended the future of a generator in its first run. */
  ghost predicate SettlesOwn(s: State, t: Token) {
    t.Settle? && t.first && t.target < |s.futures| && s.futures[t.target].status.Done? ==> t.target in s.taken
  }

  lemma {:induction false} SettleTraced(s: State, target: nat, o: Outcome, first: bool)
    requires SettlesOwn(s, Settle(target, o, first)) && TracedCallback(s, target)
    ensures var (_, t') := SettleStep(s, target, o, first); Traced(s, t')
  {
    var (_, t') := SettleStep(s, target, o, first);
    if t'.Settle? && target < |s.futures| {
      assert Awaits(s, t'.target, target, s.futures[target].callback.gen) && Failed(s, target, Raised);
      assert FailedStep(s, t'.target, Raised);
    }
  }

  lemma {:induction false} AdvanceTraced(s: State, t: Token)
    requires AllTraced(s) && Traced(s, t) && Sane(s, t) && SettlesOwn(s, t) && (t.Settle? ==> t.target < |s.futures|)
    ensures var (s', t') := Advance(s, t); Traced(s', t')
  {
    var (s', t') := Advance(s, t);
    AdvanceEvolves(s, t);
    match t
    case Execute(x, h, cb) => ExecuteTraced(s, x, h, cb);
    case Send(from, g, target) => SendTraced(s, from, g, target);
    case Settle(target, o, first) =>
      SettleTraced(s, target, o, first);
      TracedStays(s, s', t');
    case RunCallback(f, cb) => assert TracedCallback(s, f); TracedStays(s, s', t');
    case RunGenerator(_, _, _) => TracedStays(s, s', t');
    case _ =>
  }

  /* First runs */

  /** Nobody but the thread in the first run of this generator knows of its future; a cancel or a response can
      still end it. */
  ghost predicate Alone(s: State, f: nat) {
    && f < |s.futures| && s.futures[f].kind.Result? && (s.futures[f].status.Done? ==> f in s.taken)
    && forall g :: 0 <= g < |s.futures| ==> !Targets(s.futures[g].callback, f)
  }

  ghost predicate MainAlone(s: State, f: nat) {
    Alone(s, f) && forall i :: 0 <= i < |s.workers| ==> !TokTargets(s.workers[i], f)
  }

  ghost predicate WorkerAlone(s: State, i: nat, f: nat) {
    Alone(s, f) && !TokTargets(s.main, f) && forall j :: 0 <= j < |s.workers| && j != i ==> !TokTargets(s.workers[j], f)
  }

  ghost predicate FirstsAlone(s: State) {
    && (forall f: nat :: IsFirst(s.main, f) ==> MainAlone(s, f))
    && (forall i: nat, f: nat :: i < |s.workers| && IsFirst(s.workers[i], f) ==> WorkerAlone(s, i, f))
  }

  /** Another thread's step. */
  lemma {:induction false} StaysAlone(s: State, t: Token, f: nat)
    requires Alone(s, f) && !TokTargets(t, f) && Traced(s, t)
    ensures var (s', t') := Advance(s, t); Alone(s', f) && !TokTargets(t', f)
  {
    hide Yielded, EndsAs, TracedFrom;
  }

  /** The thread's own step: still the first run of the same generator, or that of a new one. */
  lemma {:induction false} OwnFirst(s: State, t: Token, f: nat)
    requires Traced(s, t) && (IsFirst(t, f) ==> Alone(s, f)) && TokBelow(t, |s.futures|)
    requires forall g :: 0 <= g < |s.futures| ==> CallbackBelow(s.futures[g].callback, g)
    ensures var (s', t') := Advance(s, t);
            IsFirst(t', f) ==> Alone(s', f) && (IsFirst(t, f) || f == |s.futures|)
  {
    hide Yielded, EndsAs, TracedFrom;
  }

  lemma {:induction false} MainFirsts(s: State)
    requires FirstsAlone(s) && AllTraced(s) && Linked(s)
    ensures FirstsAlone(Next(s, MainStep))
  {
    var (s', t') := Advance(s, s.main);
    var n := Next(s, MainStep);
    AdvanceFrame(s, s.main);
    hide Advance, Traced, Alone;
    forall f: nat | IsFirst(n.main, f) ensures MainAlone(n, f) {
      OwnFirst(s, s.main, f);
      SameAlone(s', n, f);
      forall i | 0 <= i < |n.workers| ensures !TokTargets(n.workers[i], f) {
        NotNew(s, s.workers[i], f);
      }
    }
    forall i: nat, f: nat | i < |n.workers| && IsFirst(n.workers[i], f) ensures WorkerAlone(n, i, f) {
      assert WorkerAlone(s, i, f);
      StaysAlone(s, s.main, f);
      SameAlone(s', n, f);
    }
  }

  lemma {:induction false} NotNew(s: State, t: Token, f: nat)
    requires TokBelow(t, |s.futures|)
    ensures f == |s.futures| ==> !TokTargets(t, f)
  {}

  lemma {:induction false} SameAlone(s: State, n: State, f: nat)
    requires n.futures == s.futures && n.taken == s.taken && Alone(s, f)
    ensures Alone(n, f)
  {}

  lemma {:induction false} WorkerFirsts(s: State, i: nat)
    requires FirstsAlone(s) && AllTraced(s) && Linked(s) && i < |s.workers|
    ensures FirstsAlone(Next(s, WorkerStep(i)))
  {
    var (s', t') := Advance(s, s.workers[i]);
    var n := Next(s, WorkerStep(i));
    AdvanceFrame(s, s.workers[i]);
    assert n.workers == s.workers[i := t'] && n.main == s.main;
    hide Advance, Traced, Alone;
    forall f: nat | IsFirst(n.main, f) ensures MainAlone(n, f) {
      assert MainAlone(s, f);
      StaysAlone(s, s.workers[i], f);
      SameAlone(s', n, f);
    }
    forall k: nat, f: nat | k < |n.workers| && IsFirst(n.workers[k], f) ensures WorkerAlone(n, k, f) {
      if k == i {
        assert IsFirst(s.workers[i], f) ==> WorkerAlone(s, i, f);
        OwnFirst(s, s.workers[i], f);
        NotNew(s, s.main, f);
        forall j | 0 <= j < |n.workers| && j != k ensures !TokTargets(n.workers[j], f) {
          NotNew(s, s.workers[j], f);
        }
      } else {
        assert WorkerAlone(s, k, f);
        StaysAlone(s, s.workers[i], f);
      }
      SameAlone(s', n, f);
    }
  }

  /** What happens outside the threads' own steps. */
  ghost predicate Unstarted(s: State, n: State) {
    && Evolves(s, n) && n.handlers == s.handlers
    && (n.main == s.main || (forall f :: !IsFirst(n.main, f) && !TokTargets(n.main, f)) ||
        (n.main.Execute? && !n.main.callback.Continue?))
    && (n.workers == s.workers ||
        exists f :: 0 <= f < |s.futures| && n.workers == s.workers + [RunCallback(f, s.futures[f].callback)])
    && (forall f :: 0 <= f < |s.futures| && s.futures[f].kind.Result? ==> n.futures[f] == s.futures[f])
    && (forall f :: |s.futures| <= f < |n.futures| ==> n.futures[f].callback.User?)
  }

  lemma {:induction false} OutsideUnstarted(s: State, e: Event)
    requires !e.MainStep? && !e.WorkerStep? && forall u :: u in s.handlers ==> u < |s.futures|
    ensures Unstarted(s, Next(s, e))
  {
    hide Receive;
    match e
    case Arrive(msg) => if s.main.Idle? { ReceiveUnstarted(s, msg); }
    case FinishFuture(g, end) => FinishUnstarted(s, g, end);
    case SendRequest(_) =>
    case StartPooled(_) =>
    case SetShutdown =>
    case MainStep =>
    case WorkerStep(_) =>
  }

  lemma {:induction false} FinishUnstarted(s: State, g: nat, end: End)
    requires forall u :: u in s.handlers ==> u < |s.futures|
    ensures Unstarted(s, Next(s, FinishFuture(g, end)))
  {}

  lemma {:induction false} ReceiveUnstarted(s: State, msg: Message)
    requires forall u :: u in s.handlers ==> u < |s.futures|
    ensures Unstarted(s, Receive(s, msg))
  {}

  lemma {:induction false} UnstartedAlone(s: State, n: State, f: nat)
    requires Unstarted(s, n) && Alone(s, f)
    ensures Alone(n, f)
  {}

  lemma {:induction false} UnstartedFirsts(s: State, n: State)
    requires FirstsAlone(s) && Unstarted(s, n)
    ensures FirstsAlone(n)
  {
    hide Alone, Evolves;
    forall f: nat | IsFirst(n.main, f) ensures MainAlone(n, f) {
      assert n.main == s.main && MainAlone(s, f);
      UnstartedAlone(s, n, f);
      NotCalledBack(s, n, f);
    }
    forall i: nat, f: nat | i < |n.workers| && IsFirst(n.workers[i], f) ensures WorkerAlone(n, i, f) {
      assert i < |s.workers| && n.workers[i] == s.workers[i] && WorkerAlone(s, i, f);
      UnstartedAlone(s, n, f);
      NotCalledBack(s, n, f);
    }
  }

  lemma {:induction false} NotCalledBack(s: State, n: State, f: nat)
    requires Unstarted(s, n) && Alone(s, f)
    ensures forall i :: |s.workers| <= i < |n.workers| ==> !TokTargets(n.workers[i], f)
    ensures |s.workers| <= |n.workers| && n.workers[..|s.workers|] == s.workers
  {}

  /* Every run */

  lemma {:induction false} AdvanceTracedFutures(s: State, t: Token)
    requires AllTraced(s) && Traced(s, t)
    ensures var (s', _) := Advance(s, t); (forall u: nat :: TracedCallback(s', u)) && (forall f: nat :: TracedEnd(s', f))
  {
    var (s', _) := Advance(s, t);
    AdvanceEvolves(s, t);
    AdvanceFrame(s, t);
    NewFuture(s, t);
    hide Advance, Yielded, EndsAs;
    forall u: nat ensures TracedCallback(s', u) {
      if u < |s.futures| && s.futures[u].callback.Continue? {
        assert TracedCallback(s, u);
        YieldedStays(s, s', s.futures[u].callback.target, s.handlers[u], s.futures[u].callback.gen);
      }
    }
    forall f: nat ensures TracedEnd(s', f) {
      if f < |s.futures| {
        assert TracedEnd(s, f);
        EndTraced(s, t, f);
      }
    }
  }

  /** A new future comes with its handler. */
  lemma {:induction false} NewFuture(s: State, t: Token)
    requires Traced(s, t) && forall u :: u in s.handlers ==> u < |s.futures|
    ensures var (s', _) := Advance(s, t);
            && |s'.futures| <= |s.futures| + 1
            && (|s'.futures| > |s.futures| ==> TracedCallback(s', |s.futures|) && TracedEnd(s', |s.futures|))
            && (forall u :: u in s'.handlers && u !in s.handlers ==> |s'.futures| > |s.futures| == u)
  {
    if t.Execute? {
      ExecuteTraced(s, t.id, t.handler, t.callback);
    }
  }

  lemma {:induction false} EndTraced(s: State, t: Token, f: nat)
    requires TracedEnd(s, f) && Traced(s, t) && f < |s.futures| && forall u :: u in s.handlers ==> u < |s.futures|
    ensures var (s', _) := Advance(s, t); TracedEnd(s', f)
  {
    var (s', _) := Advance(s, t);
    AdvanceEvolves(s, t);
    if f in s.handlers && s.handlers[f].Generator? && s'.futures[f].status.Done? && f !in s'.taken {
      hide EndsAs;
      EndBySettle(s, t, f);
      if s.futures[f].status.Done? {
        EndsAsStays(s, s', f, s.futures[f].status.end);
      } else {
        EndsAsStays(s, s', f, Ended(t.outcome));
      }
    }
  }

  lemma {:induction false} EndBySettle(s: State, t: Token, f: nat)
    requires f < |s.futures| && s.futures[f].kind.Result? && Traced(s, t) && f !in s.taken
    ensures var (s', _) := Advance(s, t);
            !s.futures[f].status.Done? && s'.futures[f].status.Done? ==>
              t.Settle? && t.target == f && s'.futures[f].status == Done(Ended(t.outcome))
  {}

  lemma {:induction false} Settling(s: State, t: Token)
    requires TokBelow(t, |s.futures|) && forall f: nat :: IsFirst(t, f) ==> Alone(s, f)
    ensures SettlesOwn(s, t) && (t.Settle? ==> t.target < |s.futures|)
  {
    if t.Settle? && t.first {
      assert IsFirst(t, t.target);
    }
  }

  /** The same state but for the threads' places. */
  lemma {:induction false} PlacesTraced(s: State, n: State)
    requires n == s.(main := n.main, workers := n.workers) && forall u :: u in s.handlers ==> u < |s.futures|
    requires (forall u: nat :: TracedCallback(s, u)) && (forall f: nat :: TracedEnd(s, f))
    ensures Evolves(s, n) && (forall u: nat :: TracedCallback(n, u)) && (forall f: nat :: TracedEnd(n, f))
  {
    hide EndsAs, Yielded;
    forall u: nat ensures TracedCallback(n, u) {
      assert TracedCallback(s, u);
      if u < |s.futures| && s.futures[u].callback.Continue? {
        YieldedStays(s, n, s.futures[u].callback.target, s.handlers[u], s.futures[u].callback.gen);
      }
    }
    forall f: nat ensures TracedEnd(n, f) {
      assert TracedEnd(s, f);
      if f < |s.futures| && s.futures[f].status.Done? && EndsAs(s, f, s.futures[f].status.end) {
        EndsAsStays(s, n, f, s.futures[f].status.end);
      }
    }
  }

  lemma {:induction false} MainTraced(s: State)
    requires AllTraced(s) && AllSane(s) && FirstsAlone(s) && Linked(s)
    ensures AllTraced(Next(s, MainStep))
  {
    var (s', t') := Advance(s, s.main);
    var n := Next(s, MainStep);
    AdvanceFrame(s, s.main);
    AdvanceEvolves(s, s.main);
    Settling(s, s.main);
    AdvanceTraced(s, s.main);
    AdvanceTracedFutures(s, s.main);
    hide Advance, Traced, Evolves, TracedCallback, TracedEnd, TokBelow, Sane, IsFirst, TokTargets;
    PlacesTraced(s', n);
    TracedStays(s', n, t');
    forall i | 0 <= i < |n.workers| ensures Traced(n, n.workers[i]) {
      TracedStays(s, s', s.workers[i]);
      TracedStays(s', n, s.workers[i]);
    }
  }

  lemma {:induction false} WorkerTraced(s: State, i: nat)
    requires AllTraced(s) && AllSane(s) && FirstsAlone(s) && Linked(s) && i < |s.workers|
    ensures AllTraced(Next(s, WorkerStep(i)))
  {
    var (s', t') := Advance(s, s.workers[i]);
    var n := Next(s, WorkerStep(i));
    AdvanceFrame(s, s.workers[i]);
    AdvanceEvolves(s, s.workers[i]);
    forall f: nat | IsFirst(s.workers[i], f) ensures Alone(s, f) {
      assert WorkerAlone(s, i, f);
    }
    Settling(s, s.workers[i]);
    AdvanceTraced(s, s.workers[i]);
    AdvanceTracedFutures(s, s.workers[i]);
    assert n.workers == s.workers[i := t'] && n.main == s.main;
    hide Advance, Traced, Evolves, TracedCallback, TracedEnd, TokBelow, Sane, IsFirst, TokTargets;
    PlacesTraced(s', n);
    TracedStays(s, s', s.main);
    TracedStays(s', n, s.main);
    forall j | 0 <= j < |n.workers| ensures Traced(n, n.workers[j]) {
      if j == i {
        TracedStays(s', n, t');
      } else {
        TracedStays(s, s', s.workers[j]);
        TracedStays(s', n, s.workers[j]);
      }
    }
  }

  lemma {:induction false} OutsideTraced(s: State, e: Event)
    requires AllTraced(s) && !e.MainStep? && !e.WorkerStep?
    ensures AllTraced(Next(s, e))
  {
    var n := Next(s, e);
    OutsideUnstarted(s, e);
    OutsideToken(s, e);
    hide Next, Yielded, EndsAs, Traced;
    forall i | 0 <= i < |n.workers| ensures Traced(n, n.workers[i]) {
      if i < |s.workers| {
        TracedStays(s, n, s.workers[i]);
      } else {
        CallbackTraced(n, n.workers[i]);
      }
    }
    if n.main == s.main {
      TracedStays(s, n, s.main);
    }
    forall u: nat ensures TracedCallback(n, u) {
      assert TracedCallback(s, u);
      if u < |s.futures| && s.futures[u].callback.Continue? {
        YieldedStays(s, n, s.futures[u].callback.target, s.handlers[u], s.futures[u].callback.gen);
      }
    }
    forall f: nat ensures TracedEnd(n, f) {
      assert TracedEnd(s, f);
      if f < |s.futures| && s.futures[f].status.Done? && EndsAs(s, f, s.futures[f].status.end) {
        EndsAsStays(s, n, f, s.futures[f].status.end);
      }
    }
  }

  lemma {:induction false} CallbackTraced(s: State, t: Token)
    requires t.RunCallback?
    ensures Traced(s, t)
  {}

  lemma {:induction false} OutsideToken(s: State, e: Event)
    requires !e.MainStep? && !e.WorkerStep?
    ensures Next(s, e).main == s.main || Traced(Next(s, e), Next(s, e).main)
  {}

  lemma {:induction false} RunTraced(events: seq<Event>)
    ensures AllTraced(Run(START, events)) && FirstsAlone(Run(START, events))
  {
    if events != [] {
      var before, e := events[..|events| - 1], events[|events| - 1];
      RunTraced(before);
      RunGuarded(before);
      RunAlive(before, 0);
      NextTraced(Run(START, before), e);
    }
  }

  lemma {:induction false} NextTraced(s: State, e: Event)
    requires AllTraced(s) && AllSane(s) && FirstsAlone(s) && Linked(s)
    ensures AllTraced(Next(s, e)) && FirstsAlone(Next(s, e))
  {
    hide AllTraced, AllSane, FirstsAlone, Linked, Unstarted;
    match e
    case MainStep =>
      MainTraced(s);
      MainFirsts(s);
    case WorkerStep(i) =>
      if i < |s.workers| {
        WorkerTraced(s, i);
        WorkerFirsts(s, i);
      }
    case _ =>
      OutsideTraced(s, e);
      Bounded(s);
      OutsideUnstarted(s, e);
      UnstartedFirsts(s, Next(s, e));
  }

  lemma {:induction false} Bounded(s: State)
    requires AllTraced(s)
    ensures forall u :: u in s.handlers ==> u < |s.futures|
  {}

  /** In every run: the future of a generator handler that no cancel or response took ends with what the generator
      returned or raised after a chain of yields, each sent the value that the handler it yielded had returned, or
      with the error of a handler that it yielded last. */
  lemma {:induction false} GeneratorsEnd(events: seq<Event>, f: nat)
    requires var s := Run(START, events);
             && f in s.handlers && s.handlers[f].Generator? && f !in s.taken
             && f < |s.futures| && s.futures[f].status.Done?
    ensures EndsAs(Run(START, events), f, Run(START, events).futures[f].status.end)
  {
    RunTraced(events);
    assert TracedEnd(Run(START, events), f);
  }
}
