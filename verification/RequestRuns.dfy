/** What every run of the request machine keeps. */
module RequestRuns {
  import opened Totals
  import opened Requests
  import opened Wrappers

  lemma {:induction false} RunNext(s: State, events: seq<Event>, e: Event)
    ensures Run(s, events + [e]) == Next(Run(s, events), e)
  {
    assert (events + [e])[..|events|] == events;
  }

  /* Counting */

  ghost function OneIf(b: bool): nat {
    if b then 1 else 0
  }

  ghost predicate Replies(cb: Callback, id: MsgId) {
    cb.Reply? && cb.id == id
  }

  ghost predicate Targets(cb: Callback, f: nat) {
    cb.Continue? && cb.target == f
  }

  ghost function IsId(id: MsgId): MsgId -> nat {
    (x: MsgId) => OneIf(x == id)
  }

  ghost function Answers(id: MsgId): Answer -> nat {
    (a: Answer) => OneIf(a.id == id)
  }

  /** A request is open while its future is unfinished or its response is on the way. */
  ghost function FutOpen(id: MsgId): Fut -> nat {
    (u: Fut) => OneIf(!u.status.Done? && Replies(u.callback, id))
  }

  ghost function TokOpen(id: MsgId): Token -> nat {
    (t: Token) => OneIf(
      match t
      case Execute(_, _, cb) => Replies(cb, id)
      case RunCallback(_, cb) => Replies(cb, id)
      case Respond(id', _) => id' == id
      case _ => false)
  }

  ghost function Dispatched(s: State, id: MsgId): nat { Total(s.dispatched, IsId(id)) }

  ghost function Answered(s: State, id: MsgId): nat { Total(s.written, Answers(id)) }

  ghost function Discarded(s: State, id: MsgId): nat { Total(s.discarded, IsId(id)) }

  ghost function Silenced(s: State, id: MsgId): nat { Total(s.silenced, IsId(id)) }

  ghost function Open(s: State, id: MsgId): nat {
    Total(s.futures, FutOpen(id)) + Total(s.workers, TokOpen(id)) + TokOpen(id)(s.main)
  }

  /** What a thread's step may move between: answers, discarded and silenced ones, unfinished futures. */
  ghost function Ledger(s: State, id: MsgId): nat {
    Answered(s, id) + Discarded(s, id) + Silenced(s, id) + Total(s.futures, FutOpen(id))
  }

  /* One step of a thread */

  /** The one step that would answer a request a second time. */
  ghost predicate Doubles(s: State, t: Token) {
    t.Settle? && t.first && At(s, t.target).status.Done? && At(s, t.target).callback.Reply?
  }

  /** A future that ends hands its open request over to its callback. */
  lemma {:induction false} EndingLedger(s: State, f: nat, end: End, id: MsgId)
    requires !At(s, f).status.Done?
    ensures Ledger(SetStatus(s, f, Done(end)), id) + TokOpen(id)(RunCallback(f, At(s, f).callback)) == Ledger(s, id)
  {
    TotalUpdate(s.futures, f, s.futures[f].(status := Done(end)), FutOpen(id));
  }

  lemma {:induction false} ExecuteLedger(s: State, x: MsgId, h: Handler, cb: Callback, id: MsgId)
    ensures var (s', t') := ExecuteStep(s, x, h, cb);
            Ledger(s', id) + TokOpen(id)(t') == Ledger(s, id) + OneIf(Replies(cb, id))
  {
    hide Total;
    var (s', _) := ExecuteStep(s, x, h, cb);
    TotalAppend(s.futures, s'.futures[|s.futures|], FutOpen(id));
  }

  lemma {:induction false} SettleLedger(s: State, target: nat, o: Outcome, first: bool, id: MsgId)
    requires !Doubles(s, Settle(target, o, first))
    ensures var (s', t') := SettleStep(s, target, o, first);
            Ledger(s', id) + TokOpen(id)(t') == Ledger(s, id)
  {
    if !At(s, target).status.Done? {
      EndingLedger(s, target, Ended(o), id);
    }
  }

  lemma {:induction false} RespondLedger(s: State, x: MsgId, end: End, id: MsgId)
    ensures Ledger(WriteResponse(s, x, end), id) == Ledger(s, id) + OneIf(x == id)
  {
    TotalAppend(s.written, Answer(x, BodyOf(end)), Answers(id));
    TotalAppend(s.discarded, x, IsId(id));
  }

  lemma {:induction false} CallbackLedger(s: State, f: nat, cb: Callback, id: MsgId)
    ensures var (s', t') := CallbackStep(s, f, cb);
            Ledger(s', id) + TokOpen(id)(t') == Ledger(s, id) + OneIf(Replies(cb, id))
  {
    if cb.Reply? {
      TotalAppend(s.silenced, cb.id, IsId(id));
    }
  }

  lemma {:induction false} SendLedger(s: State, from: Option<nat>, gen: Gen, target: nat, id: MsgId)
    ensures var (s', t') := SendStep(s, from, gen, target);
            Ledger(s', id) == Ledger(s, id) && TokOpen(id)(t') == 0
  {}

  lemma {:induction false} AdvanceLedger(s: State, t: Token, id: MsgId)
    requires !Doubles(s, t)
    ensures var (s', t') := Advance(s, t);
            Ledger(s', id) + TokOpen(id)(t') == Ledger(s, id) + TokOpen(id)(t)
  {
    hide ExecuteStep, SendStep, SettleStep, CallbackStep, WriteResponse, Total;
    match t
    case Execute(x, h, cb) => ExecuteLedger(s, x, h, cb, id);
    case RunCallback(f, cb) => CallbackLedger(s, f, cb, id);
    case Send(from, g, target) => SendLedger(s, from, g, target, id);
    case Settle(target, o, first) => SettleLedger(s, target, o, first, id);
    case Respond(x, end) => RespondLedger(s, x, end, id);
    case CancelFuture(f) =>
      if At(s, f).status.Pending? { EndingLedger(s, f, Cancelled, id); }
    case SetFuture(f, o) =>
      if !At(s, f).status.Done? { EndingLedger(s, f, Ended(o), id); }
    case _ =>
  }

  /** A step leaves the threads' own places and the log of requests alone. */
  lemma {:induction false} AdvanceFrame(s: State, t: Token)
    ensures var (s', _) := Advance(s, t);
            && s'.main == s.main && s'.workers == s.workers && s'.dispatched == s.dispatched
            && |s.futures| <= |s'.futures|
            && (forall f :: 0 <= f < |s.futures| ==>
                  s'.futures[f].callback == s.futures[f].callback && s'.futures[f].kind == s.futures[f].kind
                  && (s.futures[f].status.Done? ==> s'.futures[f].status == s.futures[f].status))
  {
    hide SendStep, WriteResponse, CallbackStep;
    if t.Send? || t.Respond? || t.RunCallback? {
      SendFrame(s, t);
    }
  }

  lemma {:induction false} SendFrame(s: State, t: Token)
    requires t.Send? || t.Respond? || t.RunCallback?
    ensures var (s', _) := Advance(s, t);
            s'.main == s.main && s'.workers == s.workers && s'.dispatched == s.dispatched && s'.futures == s.futures
  {}

  /** A new future has the callback it was executed with. */
  lemma {:induction false} NewCallback(s: State, t: Token)
    ensures var (s', _) := Advance(s, t);
            && |s.futures| <= |s'.futures| <= |s.futures| + 1
            && (|s'.futures| > |s.futures| ==>
                  t.Execute? && s'.futures[|s.futures|].callback == t.callback && !s'.futures[|s.futures|].kind.Outbound?)
  {
    hide SendStep, CallbackStep, WriteResponse;
    AdvanceSizes(s, t);
  }

  lemma {:induction false} AdvanceSizes(s: State, t: Token)
    ensures !t.Execute? ==> |Advance(s, t).0.futures| == |s.futures|
  {}

  /** A step enters a new future under the id it executes, or pops the entry of the request it reports. */
  lemma {:induction false} TableStep(s: State, t: Token)
    ensures var (s', _) := Advance(s, t);
            && s'.taken == s.taken && s.uuids <= s'.uuids
            && (forall x :: x in s'.table ==>
                  (x in s.table && s'.table[x] == s.table[x]) ||
                  (t.Execute? && x == t.id && s'.table[x] == |s.futures| < |s'.futures|))
            && (forall x :: x in s.table && x !in s'.table ==> t.RunCallback? && t.callback == Reply(x))
            && (forall x :: x in s.table && x in s'.table && !(t.Execute? && t.id == x) ==> s'.table[x] == s.table[x])
            && (t.RunCallback? && t.callback.Reply? ==> t.callback.id !in s'.table)
  {
    StepTable(s, t);
    hide Advance;
  }

  lemma {:induction false} StepTable(s: State, t: Token)
    ensures var (s', _) := Advance(s, t);
            && s'.taken == s.taken && s.uuids <= s'.uuids
            && match t
               case Execute(x, h, _) => |s'.futures| == |s.futures| + 1 && s'.table == if h.Sync? then s.table else s.table[x := |s.futures|]
               case RunCallback(_, Reply(x)) => s'.table == s.table - {x}
               case _ => s'.table == s.table
  {
    hide ExecuteStep, SendStep;
    match t
    case Execute(x, h, cb) => ExecuteTable(s, x, h, cb);
    case Send(from, g, target) => SendTable(s, from, g, target);
    case _ =>
  }

  lemma {:induction false} ExecuteTable(s: State, x: MsgId, h: Handler, cb: Callback)
    ensures var (s', _) := ExecuteStep(s, x, h, cb);
            && s'.taken == s.taken && s'.uuids == s.uuids && |s'.futures| == |s.futures| + 1
            && s'.table == if h.Sync? then s.table else s.table[x := |s.futures|]
  {}

  lemma {:induction false} SendTable(s: State, from: Option<nat>, gen: Gen, target: nat)
    ensures var (s', _) := SendStep(s, from, gen, target);
            s'.taken == s.taken && s.uuids <= s'.uuids && s'.table == s.table
  {}

  /* References between futures */

  ghost predicate TokTargets(t: Token, f: nat) {
    match t
    case Execute(_, _, cb) => Targets(cb, f)
    case RunCallback(_, cb) => Targets(cb, f)
    case RunGenerator(_, _, x) => x == f
    case Send(_, _, x) => x == f
    case Settle(x, _, _) => x == f
    case _ => false
  }

  ghost predicate CallbackBelow(cb: Callback, n: nat) {
    cb.Continue? ==> cb.target < n
  }

  ghost predicate TokBelow(t: Token, n: nat) {
    match t
    case Execute(_, _, cb) => CallbackBelow(cb, n)
    case RunCallback(_, cb) => CallbackBelow(cb, n)
    case RunGenerator(_, _, x) => x < n
    case Send(_, _, x) => x < n
    case Settle(x, _, _) => x < n
    case _ => true
  }

  /** Generators' futures are older than the futures they wait for. */
  ghost predicate Linked(s: State) {
    && (forall f :: 0 <= f < |s.futures| ==> CallbackBelow(s.futures[f].callback, f))
    && (forall i :: 0 <= i < |s.workers| ==> TokBelow(s.workers[i], |s.futures|))
    && TokBelow(s.main, |s.futures|)
  }

  /** The future of a generator that has not yielded yet. */
  ghost predicate IsFirst(t: Token, f: nat) {
    (t.RunGenerator? && t.from.None? && t.target == f)
    || (t.Send? && t.from.None? && t.target == f)
    || (t.Settle? && t.first && t.target == f)
  }

  /** Nobody else can finish that future. */
  ghost predicate Unshared(s: State, f: nat) {
    && f < |s.futures| && s.futures[f].kind.Result? && s.futures[f].status.Pending?
    && (forall g :: 0 <= g < |s.futures| ==> !Targets(s.futures[g].callback, f))
    && (forall i :: 0 <= i < |s.workers| ==> !TokTargets(s.workers[i], f))
  }

  /** Other threads only continue generators; requests are executed by the thread that reads messages. */
  ghost predicate WorkerToken(s: State, t: Token) {
    && (t.Execute? ==> t.callback.Continue?)
    && !t.CancelFuture? && !t.SetFuture?
    && (forall f :: IsFirst(t, f) ==> !At(s, f).callback.Reply?)
  }

  ghost predicate Guarded(s: State) {
    && Linked(s)
    && (forall i :: 0 <= i < |s.workers| ==> WorkerToken(s, s.workers[i]))
    && (forall f :: IsFirst(s.main, f) && At(s, f).callback.Reply? ==> Unshared(s, f))
  }

  lemma {:induction false} AdvanceBelow(s: State, t: Token)
    requires forall f :: 0 <= f < |s.futures| ==> CallbackBelow(s.futures[f].callback, f)
    requires TokBelow(t, |s.futures|)
    ensures var (s', t') := Advance(s, t);
            && TokBelow(t', |s'.futures|)
            && (forall f :: 0 <= f < |s'.futures| ==> CallbackBelow(s'.futures[f].callback, f))
  {
    AdvanceFrame(s, t);
  }

  lemma {:induction false} AdvanceWorker(s: State, t: Token)
    requires WorkerToken(s, t) && TokBelow(t, |s.futures|)
    ensures var (s', t') := Advance(s, t); WorkerToken(s', t')
  {
    AdvanceFrame(s, t);
  }

  /** Callbacks stay, so what held of a waiting worker still holds. */
  lemma {:induction false} WorkerStays(s: State, s': State, t: Token)
    requires WorkerToken(s, t) && TokBelow(t, |s.futures|)
    requires |s.futures| <= |s'.futures|
    requires forall f :: 0 <= f < |s.futures| ==> s'.futures[f].callback == s.futures[f].callback
    ensures WorkerToken(s', t) && TokBelow(t, |s'.futures|)
  {}

  /** A first run stays a first run of the same generator, or starts with a new future. */
  lemma {:induction false} MainFirst(s: State, f: nat)
    requires Guarded(s)
    ensures var (s', t') := Advance(s, s.main);
            IsFirst(t', f) && At(s', f).callback.Reply? ==> Unshared(s'.(main := t'), f)
  {
    var (s', t') := Advance(s, s.main);
    if IsFirst(t', f) && At(s', f).callback.Reply? && s.main.Execute? {
      assert f == |s.futures|;
    }
  }

  /** Another thread cannot come near it. */
  lemma {:induction false} WorkerUnshared(s: State, i: nat, f: nat)
    requires Guarded(s) && i < |s.workers| && Unshared(s, f)
    ensures var (s', t') := Advance(s, s.workers[i]); Unshared(s'.(workers := s.workers[i := t']), f)
  {
    AdvanceFrame(s, s.workers[i]);
    NewCallback(s, s.workers[i]);
    assert WorkerToken(s, s.workers[i]);
    UntargetedStep(s, s.workers[i], f);
    hide Advance, WorkerToken;
    var (s', t') := Advance(s, s.workers[i]);
    assert !TokTargets(s.workers[i], f);
  }

  /** A thread that does not know of a pending future leaves it alone. */
  lemma {:induction false} UntargetedStep(s: State, t: Token, f: nat)
    requires f < |s.futures| && s.futures[f].kind.Result? && s.futures[f].status.Pending?
    requires !TokTargets(t, f) && !t.CancelFuture? && !t.SetFuture?
    requires forall g :: 0 <= g < |s.futures| ==> !Targets(s.futures[g].callback, f)
    ensures var (s', t') := Advance(s, t); s'.futures[f] == s.futures[f] && !TokTargets(t', f)
  {}

  lemma {:induction false} MainGuarded(s: State)
    requires Guarded(s)
    ensures Guarded(Next(s, MainStep))
  {
    var (s', t') := Advance(s, s.main);
    AdvanceFrame(s, s.main);
    AdvanceBelow(s, s.main);
    forall i | 0 <= i < |s.workers| ensures WorkerToken(s', s.workers[i]) && TokBelow(s.workers[i], |s'.futures|) {
      WorkerStays(s, s', s.workers[i]);
    }
    forall f: nat | IsFirst(t', f) && At(s', f).callback.Reply? ensures Unshared(s'.(main := t'), f) {
      MainFirst(s, f);
    }
  }

  lemma {:induction false} WorkerGuarded(s: State, i: nat)
    requires Guarded(s) && i < |s.workers|
    ensures Guarded(Next(s, WorkerStep(i)))
  {
    var (s', t') := Advance(s, s.workers[i]);
    var n := Next(s, WorkerStep(i));
    AdvanceFrame(s, s.workers[i]);
    AdvanceBelow(s, s.workers[i]);
    AdvanceWorker(s, s.workers[i]);
    forall j | 0 <= j < |n.workers| ensures WorkerToken(n, n.workers[j]) && TokBelow(n.workers[j], |n.futures|) {
      if j != i {
        WorkerStays(s, n, s.workers[j]);
      }
    }
    forall f: nat | IsFirst(n.main, f) && At(n, f).callback.Reply? ensures Unshared(n, f) {
      assert f < |s.futures|;
      WorkerUnshared(s, i, f);
    }
  }

  lemma {:induction false} ArriveGuarded(s: State, msg: Message)
    requires Guarded(s) && s.main.Idle?
    ensures Guarded(Receive(s, msg))
  {
    var n := Receive(s, msg);
    assert n.futures == s.futures && n.workers == s.workers && forall f :: !IsFirst(n.main, f);
    forall j | 0 <= j < |s.workers| ensures WorkerToken(n, s.workers[j]) {
      WorkerStays(s, n, s.workers[j]);
    }
  }

  /** A future starts, ends or is new, and its callback may have been given to a new thread. */
  lemma {:induction false} FuturesGuarded(s: State, n: State)
    requires Guarded(s)
    requires n.main == s.main && |s.futures| <= |n.futures|
    requires forall f :: 0 <= f < |s.futures| ==>
               && n.futures[f].callback == s.futures[f].callback && n.futures[f].kind == s.futures[f].kind
               && (s.futures[f].kind.Result? ==> n.futures[f] == s.futures[f])
    requires forall f :: |s.futures| <= f < |n.futures| ==> n.futures[f].callback == User
    requires n.workers == s.workers ||
             exists f :: 0 <= f < |s.futures| && n.workers == s.workers + [RunCallback(f, s.futures[f].callback)]
    ensures Guarded(n)
  {
    forall j | 0 <= j < |n.workers| ensures WorkerToken(n, n.workers[j]) && TokBelow(n.workers[j], |n.futures|) {
      if j < |s.workers| {
        WorkerStays(s, n, s.workers[j]);
      }
    }
    forall f: nat | IsFirst(n.main, f) && At(n, f).callback.Reply? ensures Unshared(n, f) {
      assert Unshared(s, f);
    }
  }

  /** Everything that is not a step of a thread. */
  lemma {:induction false} OutsideGuarded(s: State, e: Event)
    requires Guarded(s) && !e.MainStep? && !e.WorkerStep?
    ensures Guarded(Next(s, e))
  {
    hide Guarded;
    match e
    case Arrive(msg) => if s.main.Idle? { ArriveGuarded(s, msg); }
    case _ => FuturesGuarded(s, Next(s, e));
  }

  lemma {:induction false} NextGuarded(s: State, e: Event)
    requires Guarded(s)
    ensures Guarded(Next(s, e))
  {
    match e
    case MainStep => MainGuarded(s);
    case WorkerStep(i) => if i < |s.workers| { WorkerGuarded(s, i); }
    case _ => OutsideGuarded(s, e);
  }

  lemma {:induction false} GuardedNeverDoubles(s: State)
    requires Guarded(s)
    ensures !Doubles(s, s.main)
    ensures forall i :: 0 <= i < |s.workers| ==> !Doubles(s, s.workers[i])
  {
    if s.main.Settle? {
      assert IsFirst(s.main, s.main.target) <==> s.main.first;
    }
    forall i | 0 <= i < |s.workers| ensures !Doubles(s, s.workers[i]) {
      if s.workers[i].Settle? && s.workers[i].first {
        assert IsFirst(s.workers[i], s.workers[i].target);
      }
    }
  }

  /* Conservation */

  ghost predicate Balanced(s: State, id: MsgId) {
    Dispatched(s, id) == Answered(s, id) + Discarded(s, id) + Silenced(s, id) + Open(s, id)
  }

  lemma {:induction false} ArriveBalanced(s: State, msg: Message, id: MsgId)
    requires Balanced(s, id) && s.main.Idle?
    ensures Balanced(Receive(s, msg), id)
  {
    hide Total;
    if msg.Request? {
      TotalAppend(s.dispatched, msg.id, IsId(id));
    }
  }

  lemma {:induction false} FinishBalanced(s: State, f: nat, end: End, id: MsgId)
    requires Balanced(s, id) && CanFinish(s, f, end)
    ensures Balanced(Next(s, FinishFuture(f, end)), id)
  {
    EndingLedger(s, f, end, id);
    TotalAppend(s.workers, RunCallback(f, At(s, f).callback), TokOpen(id));
  }

  lemma {:induction false} StartBalanced(s: State, f: nat, id: MsgId)
    requires Balanced(s, id)
    ensures Balanced(Next(s, StartPooled(f)), id)
  {
    if f < |s.futures| {
      TotalUpdate(s.futures, f, s.futures[f].(status := Running), FutOpen(id));
    }
  }

  lemma {:induction false} SendRequestBalanced(s: State, x: Option<MsgId>, id: MsgId)
    requires Balanced(s, id)
    ensures Balanced(Next(s, SendRequest(x)), id)
  {
    TotalAppend(s.futures, Fut(Outbound, Pending, User), FutOpen(id));
  }

  lemma {:induction false} OutsideBalanced(s: State, e: Event, id: MsgId)
    requires Balanced(s, id) && !e.MainStep? && !e.WorkerStep?
    ensures Balanced(Next(s, e), id)
  {
    match e
    case Arrive(msg) => if s.main.Idle? { ArriveBalanced(s, msg, id); }
    case StartPooled(f) => StartBalanced(s, f, id);
    case FinishFuture(f, end) => if CanFinish(s, f, end) { FinishBalanced(s, f, end, id); }
    case SendRequest(x) => SendRequestBalanced(s, x, id);
    case SetShutdown =>
  }

  lemma {:induction false} NextBalanced(s: State, e: Event, id: MsgId)
    requires Guarded(s) && Balanced(s, id)
    ensures Balanced(Next(s, e), id)
  {
    GuardedNeverDoubles(s);
    match e
    case MainStep =>
      AdvanceLedger(s, s.main, id);
      AdvanceFrame(s, s.main);
    case WorkerStep(i) =>
      if i < |s.workers| {
        var (_, t') := Advance(s, s.workers[i]);
        AdvanceLedger(s, s.workers[i], id);
        AdvanceFrame(s, s.workers[i]);
        TotalUpdate(s.workers, i, t', TokOpen(id));
      }
    case _ => OutsideBalanced(s, e, id);
  }

  lemma {:induction false} RunGuarded(events: seq<Event>)
    ensures Guarded(Run(START, events))
  {
    if events != [] {
      RunGuarded(events[..|events| - 1]);
      NextGuarded(Run(START, events[..|events| - 1]), events[|events| - 1]);
    }
  }

  /** In every interleaving, whatever the ids: each dispatched request has been answered, or its response
      could not be serialised, or its callback was stopped, or it is still open. */
  lemma {:induction false} Conservation(events: seq<Event>, id: MsgId)
    ensures Balanced(Run(START, events), id)
  {
    if events != [] {
      var before := events[..|events| - 1];
      Conservation(before, id);
      RunGuarded(before);
      NextBalanced(Run(START, before), events[|events| - 1], id);
    }
  }

  /** So never more answers than requests. */
  lemma {:induction false} AtMostOneAnswer(events: seq<Event>, id: MsgId)
    ensures Answered(Run(START, events), id) <= Dispatched(Run(START, events), id)
  {
    Conservation(events, id);
  }

  /* Progress */

  ghost function FutDrives(f: nat): Fut -> nat {
    (u: Fut) => OneIf(!u.status.Done? && Targets(u.callback, f))
  }

  ghost function TokDrives(f: nat): Token -> nat {
    (t: Token) => OneIf(TokTargets(t, f))
  }

  /** Who will still continue the generator behind future `f`. */
  ghost function Drivers(s: State, f: nat): nat {
    Total(s.futures, FutDrives(f)) + Total(s.workers, TokDrives(f)) + TokDrives(f)(s.main)
  }

  /** What some generator waited for, and that ended in a way the generator is not told: a coroutine cancelled,
      or any handler with a `BaseException`. */
  ghost predicate LostWait(u: Fut) {
    u.callback.Continue? && (u.status == Done(Ended(RaisedBase)) || (u.kind.Task? && u.status == Done(Cancelled)))
  }

  ghost predicate LostFor(s: State, f: nat) {
    exists g :: 0 <= g < |s.futures| && LostWait(s.futures[g]) && Targets(s.futures[g].callback, f)
  }

  /** The thread that was to settle future `f` was unwound, or what `f` waited for ended untold. */
  ghost predicate Abandoned(s: State, f: nat) {
    f in s.unwound || LostFor(s, f)
  }

  ghost predicate Alive(s: State, f: nat) {
    f < |s.futures| && s.futures[f].kind.Result? && !s.futures[f].status.Done? ==>
      Drivers(s, f) > 0 || Abandoned(s, f)
  }

  /** A continuation belongs to a finished future that has it as callback. */
  ghost predicate Awaited(s: State, g: nat, target: nat) {
    g < |s.futures| && s.futures[g].status.Done? && Targets(s.futures[g].callback, target)
  }

  ghost predicate Sane(s: State, t: Token) {
    match t
    case RunGenerator(from, _, target) => from.Some? ==> Awaited(s, from.value, target)
    case Send(from, _, target) => from.Some? ==> Awaited(s, from.value, target)
    case RunCallback(g, cb) => g < |s.futures| && s.futures[g].status.Done? && s.futures[g].callback == cb
    case _ => true
  }

  ghost predicate AllSane(s: State) {
    && Sane(s, s.main)
    && (forall i :: 0 <= i < |s.workers| ==> Sane(s, s.workers[i]))
    && (forall f :: 0 <= f < |s.futures| && s.futures[f].kind.Outbound? ==> s.futures[f].callback.User?)
  }

  lemma {:induction false} AdvanceSane(s: State, t: Token)
    requires Sane(s, t)
    ensures var (s', t') := Advance(s, t); Sane(s', t')
  {}

  lemma {:induction false} SaneStays(s: State, s': State, t: Token)
    requires Sane(s, t) && |s.futures| <= |s'.futures|
    requires forall f :: 0 <= f < |s.futures| ==>
      s'.futures[f].callback == s.futures[f].callback && (s.futures[f].status.Done? ==> s'.futures[f].status.Done?)
    ensures Sane(s', t)
  {}

  lemma {:induction false} AdvanceOutbound(s: State, t: Token)
    requires forall f :: 0 <= f < |s.futures| && s.futures[f].kind.Outbound? ==> s.futures[f].callback.User?
    ensures var (s', _) := Advance(s, t);
            forall f :: 0 <= f < |s'.futures| && s'.futures[f].kind.Outbound? ==> s'.futures[f].callback.User?
  {
    AdvanceFrame(s, t);
  }

  lemma {:induction false} MainSane(s: State)
    requires AllSane(s)
    ensures AllSane(Next(s, MainStep))
  {
    var n := Next(s, MainStep);
    AdvanceSane(s, s.main);
    AdvanceFrame(s, s.main);
    AdvanceOutbound(s, s.main);
    forall j | 0 <= j < |n.workers| ensures Sane(n, n.workers[j]) {
      SaneStays(s, n, s.workers[j]);
    }
  }

  lemma {:induction false} WorkerSane(s: State, i: nat)
    requires AllSane(s) && i < |s.workers|
    ensures AllSane(Next(s, WorkerStep(i)))
  {
    var n := Next(s, WorkerStep(i));
    AdvanceSane(s, s.workers[i]);
    AdvanceFrame(s, s.workers[i]);
    AdvanceOutbound(s, s.workers[i]);
    SaneStays(s, n, s.main);
    forall j | 0 <= j < |n.workers| ensures Sane(n, n.workers[j]) {
      if j != i {
        SaneStays(s, n, s.workers[j]);
      }
    }
  }

  /** Callbacks stay, what is done stays done, and new outbound futures have a callback of their own. */
  ghost predicate OnlyProgress(s: State, n: State) {
    && |s.futures| <= |n.futures|
    && (forall f :: 0 <= f < |s.futures| ==>
          && n.futures[f].callback == s.futures[f].callback && n.futures[f].kind == s.futures[f].kind
          && (s.futures[f].status.Done? ==> n.futures[f].status.Done?))
    && (forall f :: |s.futures| <= f < |n.futures| ==> n.futures[f].callback == User)
  }

  lemma {:induction false} OutsideProgress(s: State, e: Event)
    requires !e.MainStep? && !e.WorkerStep?
    ensures OnlyProgress(s, Next(s, e))
  {}

  lemma {:induction false} OutsideSane(s: State, e: Event)
    requires AllSane(s) && !e.MainStep? && !e.WorkerStep?
    ensures AllSane(Next(s, e))
  {
    hide Awaited;
    var n := Next(s, e);
    OutsideProgress(s, e);
    forall j | 0 <= j < |s.workers| ensures Sane(n, s.workers[j]) {
      SaneStays(s, n, s.workers[j]);
    }
    SaneStays(s, n, s.main);
  }

  lemma {:induction false} NextSane(s: State, e: Event)
    requires AllSane(s)
    ensures AllSane(Next(s, e))
  {
    match e
    case MainStep => MainSane(s);
    case WorkerStep(i) => if i < |s.workers| { WorkerSane(s, i); }
    case _ => OutsideSane(s, e);
  }

  lemma {:induction false} EndingDrives(s: State, g: nat, end: End, f: nat)
    requires !At(s, g).status.Done?
    ensures Total(SetStatus(s, g, Done(end)).futures, FutDrives(f)) + TokDrives(f)(RunCallback(g, At(s, g).callback))
         == Total(s.futures, FutDrives(f))
  {
    TotalUpdate(s.futures, g, s.futures[g].(status := Done(end)), FutDrives(f));
  }

  lemma {:induction false} ExecuteDrives(s: State, x: MsgId, h: Handler, cb: Callback, f: nat)
    ensures var (s', t') := ExecuteStep(s, x, h, cb);
            Total(s'.futures, FutDrives(f)) + TokDrives(f)(t')
            >= Total(s.futures, FutDrives(f)) + OneIf(Targets(cb, f))
  {
    var (s', _) := ExecuteStep(s, x, h, cb);
    TotalAppend(s.futures, s'.futures[|s.futures|], FutDrives(f));
  }

  lemma {:induction false} SendDrives(s: State, from: Option<nat>, gen: Gen, target: nat)
    requires Sane(s, Send(from, gen, target))
    ensures var (s', t') := SendStep(s, from, gen, target); TokTargets(t', target) || Abandoned(s', target)
  {
    if from.Some? && LostWait(s.futures[from.value]) {
      assert LostFor(s, target);
    }
  }

  /** A step of a thread does not let go of an unfinished generator, unless the wait was cancelled. */
  lemma {:induction false} AdvanceDrives(s: State, t: Token, f: nat)
    requires Sane(s, t) && f < |s.futures|
    ensures var (s', t') := Advance(s, t);
            || s'.futures[f].status.Done?
            || Abandoned(s', f)
            || Total(s'.futures, FutDrives(f)) + TokDrives(f)(t') >= Total(s.futures, FutDrives(f)) + TokDrives(f)(t)
  {
    hide Total, ExecuteStep, LostFor;
    match t
    case Execute(x, h, cb) => ExecuteDrives(s, x, h, cb, f);
    case Send(from, g, target) => SendDrives(s, from, g, target);
    case Settle(target, o, _) => if !At(s, target).status.Done? { EndingDrives(s, target, Ended(o), f); }
    case CancelFuture(g) => if At(s, g).status.Pending? { EndingDrives(s, g, Cancelled, f); }
    case SetFuture(g, o) => if !At(s, g).status.Done? { EndingDrives(s, g, Ended(o), f); }
    case _ =>
  }

  lemma {:induction false} AbandonedStays(s: State, s': State, f: nat)
    requires Abandoned(s, f) && |s.futures| <= |s'.futures| && s.unwound <= s'.unwound
    requires forall g :: 0 <= g < |s.futures| && s.futures[g].status.Done? ==> s'.futures[g] == s.futures[g]
    ensures Abandoned(s', f)
  {
    if LostFor(s, f) {
      LostStays(s, s', f);
    }
  }

  lemma {:induction false} LostStays(s: State, s': State, f: nat)
    requires LostFor(s, f) && |s.futures| <= |s'.futures|
    requires forall g :: 0 <= g < |s.futures| && s.futures[g].status.Done? ==> s'.futures[g] == s.futures[g]
    ensures LostFor(s', f)
  {
    var g :| 0 <= g < |s.futures| && LostWait(s.futures[g]) && Targets(s.futures[g].callback, f);
    assert LostWait(s'.futures[g]);
  }

  /** A future allocated by a step comes with the token that will finish it. */
  lemma {:induction false} NewDriven(s: State, t: Token)
    ensures var (s', t') := Advance(s, t);
            |s'.futures| > |s.futures| ==>
              && |s'.futures| == |s.futures| + 1
              && (s'.futures[|s.futures|].kind.Result? && !s'.futures[|s.futures|].status.Done? ==>
                    TokTargets(t', |s.futures|) || |s.futures| in s'.unwound)
  {}

  lemma {:induction false} DoneStays(s: State, t: Token)
    ensures var (s', _) := Advance(s, t);
            && s.unwound <= s'.unwound
            && forall g :: 0 <= g < |s.futures| && s.futures[g].status.Done? ==> s'.futures[g] == s.futures[g]
  {}

  lemma {:induction false} MainAlive(s: State, f: nat)
    requires AllSane(s) && Alive(s, f)
    ensures Alive(Next(s, MainStep), f)
  {
    hide Advance, Total, Sane;
    AdvanceFrame(s, s.main);
    NewDriven(s, s.main);
    DoneStays(s, s.main);
    if f < |s.futures| {
      AdvanceDrives(s, s.main, f);
      if Abandoned(s, f) {
        AbandonedStays(s, Next(s, MainStep), f);
      }
    }
  }

  lemma {:induction false} WorkerAlive(s: State, i: nat, f: nat)
    requires AllSane(s) && Alive(s, f) && i < |s.workers|
    ensures Alive(Next(s, WorkerStep(i)), f)
  {
    hide Advance, Total, Sane;
    var (_, t') := Advance(s, s.workers[i]);
    AdvanceFrame(s, s.workers[i]);
    NewDriven(s, s.workers[i]);
    DoneStays(s, s.workers[i]);
    TotalUpdate(s.workers, i, t', TokDrives(f));
    TotalAtLeast(s.workers[i := t'], i, TokDrives(f));
    if f < |s.futures| {
      AdvanceDrives(s, s.workers[i], f);
      if Abandoned(s, f) {
        AbandonedStays(s, Next(s, WorkerStep(i)), f);
      }
    }
  }

  lemma {:induction false} OutsideDrives(s: State, e: Event, f: nat)
    requires !e.MainStep? && !e.WorkerStep?
    ensures Drivers(Next(s, e), f) >= Drivers(s, f)
  {
    hide Total, FutDrives, TokDrives;
    match e
    case StartPooled(g) => StartDrives(s, g, f);
    case FinishFuture(g, end) => if CanFinish(s, g, end) { FinishDrives(s, g, end, f); }
    case SendRequest(x) => SendRequestDrives(s, x, f);
    case Arrive(msg) => if s.main.Idle? { IdleDrives(s, msg, f); }
    case SetShutdown =>
  }

  lemma {:induction false} StartDrives(s: State, g: nat, f: nat)
    ensures Drivers(Next(s, StartPooled(g)), f) == Drivers(s, f)
  {
    if g < |s.futures| {
      TotalUpdate(s.futures, g, s.futures[g].(status := Running), FutDrives(f));
    }
  }

  lemma {:induction false} FinishDrives(s: State, g: nat, end: End, f: nat)
    requires CanFinish(s, g, end)
    ensures Drivers(Next(s, FinishFuture(g, end)), f) == Drivers(s, f)
  {
    EndingDrives(s, g, end, f);
    TotalAppend(s.workers, RunCallback(g, At(s, g).callback), TokDrives(f));
  }

  lemma {:induction false} SendRequestDrives(s: State, x: Option<MsgId>, f: nat)
    ensures Drivers(Next(s, SendRequest(x)), f) == Drivers(s, f)
  {
    TotalAppend(s.futures, Fut(Outbound, Pending, User), FutDrives(f));
  }

  lemma {:induction false} IdleDrives(s: State, msg: Message, f: nat)
    requires s.main.Idle?
    ensures Drivers(Receive(s, msg), f) >= Drivers(s, f)
  {
    hide Total;
  }

  lemma {:induction false} OutsideAlive(s: State, e: Event, f: nat)
    requires Alive(s, f) && !e.MainStep? && !e.WorkerStep?
    ensures Alive(Next(s, e), f)
  {
    hide Total, Drivers;
    OutsideDrives(s, e, f);
    if Abandoned(s, f) {
      AbandonedStays(s, Next(s, e), f);
    }
  }

  lemma {:induction false} RunAlive(events: seq<Event>, f: nat)
    ensures AllSane(Run(START, events)) && Alive(Run(START, events), f)
  {
    if events != [] {
      var before, e := events[..|events| - 1], events[|events| - 1];
      RunAlive(before, f);
      var s := Run(START, before);
      NextSane(s, e);
      match e {
        case MainStep => MainAlive(s, f);
        case WorkerStep(i) => if i < |s.workers| { WorkerAlive(s, i, f); }
        case _ => OutsideAlive(s, e, f);
      }
    }
  }

  /** Nothing is being executed any more, in any thread or coroutine. */
  ghost predicate Quiet(s: State) {
    && s.main.Idle?
    && (forall i :: 0 <= i < |s.workers| ==> s.workers[i].Idle?)
    && (forall f :: 0 <= f < |s.futures| && (s.futures[f].kind.Pooled? || s.futures[f].kind.Task?) ==>
          s.futures[f].status.Done?)
  }

  lemma {:induction false} IdleDrivesNothing(s: State, f: nat)
    requires Quiet(s)
    ensures Drivers(s, f) == Total(s.futures, FutDrives(f))
  {
    if Total(s.workers, TokDrives(f)) > 0 {
      var i := TotalWitness(s.workers, TokDrives(f));
    }
  }

  /** Unfinished for good: abandoned, or waiting for a later future that is. */
  ghost predicate Stuck(s: State, f: nat)
    decreases |s.futures| - f
  {
    f < |s.futures| && !s.futures[f].status.Done? &&
    (Abandoned(s, f) || exists g :: f < g < |s.futures| && Targets(s.futures[g].callback, f) && Stuck(s, g))
  }

  /** When all is quiet, whatever future is unfinished is stuck. */
  lemma {:induction false} QuietStuck(s: State, f: nat)
    requires Quiet(s) && AllSane(s) && Linked(s) && f < |s.futures| && !s.futures[f].status.Done?
    requires forall g :: Alive(s, g)
    ensures s.futures[f].callback != User ==> Stuck(s, f)
    decreases |s.futures| - f
  {
    if s.futures[f].callback != User && !Abandoned(s, f) {
      assert Alive(s, f);
      IdleDrivesNothing(s, f);
      var g := TotalWitness(s.futures, FutDrives(f));
      assert CallbackBelow(s.futures[g].callback, g);
      QuietStuck(s, g);
      assert f < g < |s.futures| && Targets(s.futures[g].callback, f) && Stuck(s, g);
    }
  }

  lemma {:induction false} QuietOpen(s: State, id: MsgId)
    requires Quiet(s) && AllSane(s) && Linked(s)
    requires forall g :: Alive(s, g)
    ensures Open(s, id) > 0 <==> exists f :: 0 <= f < |s.futures| && Replies(s.futures[f].callback, id) && Stuck(s, f)
  {
    if Total(s.workers, TokOpen(id)) > 0 {
      var i := TotalWitness(s.workers, TokOpen(id));
    }
    if Total(s.futures, FutOpen(id)) > 0 {
      var f := TotalWitness(s.futures, FutOpen(id));
      QuietStuck(s, f);
    }
    if f :| 0 <= f < |s.futures| && Replies(s.futures[f].callback, id) && Stuck(s, f) {
      TotalAtLeast(s.futures, f, FutOpen(id));
    }
  }
}
