/** What the table of requests holds: in every run, at rest, and for a request that is asked once. */
module RequestTable {
  import opened Totals
  import opened Requests
  import opened RequestRuns
  import opened Completion
  import opened Generators
  import opened Outbound
  import opened Wrappers

  /* Kinds of entries */

  /** Some thread is about to run this callback of this future. */
  ghost predicate Held(s: State, f: nat, cb: Callback) {
    s.main == RunCallback(f, cb) || exists i :: 0 <= i < |s.workers| && s.workers[i] == RunCallback(f, cb)
  }

  /** A request that was received: unfinished, or about to be reported. */
  ghost predicate InboundEntry(s: State, x: MsgId, f: nat) {
    f < |s.futures| && s.futures[f].callback == Reply(x) && (s.futures[f].status.Done? ==> Held(s, f, Reply(x)))
  }

  /** A request that was sent, without a response. */
  ghost predicate OutboundEntry(s: State, f: nat) {
    f < |s.futures| && s.futures[f] == Fut(Outbound, Pending, User)
  }

  /** A notification's handler, or a handler that a generator yielded: nothing removes these. */
  ghost predicate GeneratedEntry(s: State, x: MsgId, f: nat) {
    x.Uuid? && f < |s.futures| && !s.futures[f].kind.Outbound? && !s.futures[f].callback.Reply?
  }

  ghost predicate Entry(s: State, x: MsgId) {
    x in s.table ==>
      InboundEntry(s, x, s.table[x]) || OutboundEntry(s, s.table[x]) || GeneratedEntry(s, x, s.table[x])
  }

  /** No future is in the table twice, nor while it is being cancelled or set. */
  ghost predicate Apart(s: State) {
    && (forall x, y :: x in s.table && y in s.table && s.table[x] == s.table[y] ==> x == y)
    && (s.main.CancelFuture? || s.main.SetFuture? ==> forall x :: x in s.table ==> s.table[x] != s.main.future)
  }

  lemma {:induction false} AdvanceApart(s: State, t: Token)
    requires (forall x :: x in s.table ==> s.table[x] < |s.futures|)
    requires forall x, y :: x in s.table && y in s.table && s.table[x] == s.table[y] ==> x == y
    ensures var (s', t') := Advance(s, t);
            && (forall x, y :: x in s'.table && y in s'.table && s'.table[x] == s'.table[y] ==> x == y)
            && (forall x :: x in s'.table ==> s'.table[x] == |s.futures| || (x in s.table && s'.table[x] == s.table[x]))
  {
    TableStep(s, t);
    hide Advance;
  }

  lemma {:induction false} NoTaking(s: State, t: Token)
    ensures var (_, t') := Advance(s, t); !t'.CancelFuture? && !t'.SetFuture?
  {}

  lemma {:induction false} MainApart(s: State)
    requires Apart(s) && Known(s)
    ensures Apart(Next(s, MainStep))
  {
    AdvanceApart(s, s.main);
    NoTaking(s, s.main);
    hide Advance;
  }

  lemma {:induction false} WorkerApart(s: State, i: nat)
    requires Apart(s) && Known(s) && i < |s.workers|
    ensures Apart(Next(s, WorkerStep(i)))
  {
    AdvanceApart(s, s.workers[i]);
    AdvanceFrame(s, s.workers[i]);
    hide Advance;
  }

  lemma {:induction false} ReceiveApart(s: State, msg: Message)
    requires Apart(s) && Known(s) && s.main.Idle?
    ensures Apart(Receive(s, msg))
  {}

  lemma {:induction false} SendApart(s: State, y: Option<MsgId>)
    requires Apart(s) && Known(s)
    ensures Apart(Next(s, SendRequest(y)))
  {}

  lemma {:induction false} NextApart(s: State, e: Event)
    requires Apart(s) && Known(s)
    ensures Apart(Next(s, e))
  {
    hide Known, Advance, Receive;
    match e
    case MainStep => MainApart(s);
    case WorkerStep(i) => if i < |s.workers| { WorkerApart(s, i); }
    case Arrive(msg) => if s.main.Idle? { ReceiveApart(s, msg); }
    case SendRequest(y) => SendApart(s, y);
    case _ =>
  }

  lemma {:induction false} RunApart(events: seq<Event>)
    ensures Apart(Run(START, events))
  {
    if events != [] {
      RunApart(events[..|events| - 1]);
      RunKnown(events[..|events| - 1]);
      NextApart(Run(START, events[..|events| - 1]), events[|events| - 1]);
    }
  }

  /** Only generators' futures are settled. */
  lemma {:induction false} SettlesResult(s: State, t: Token)
    requires AllTraced(s) && Traced(s, t)
    ensures t.Settle? && t.target < |s.futures| ==> s.futures[t.target].kind.Result?
  {
    if t.Settle? && t.target < |s.futures| {
      EndsOfGenerator(s, t.target, Ended(t.outcome));
      assert TracedEnd(s, t.target);
    }
  }

  lemma {:induction false} EndsOfGenerator(s: State, f: nat, end: End)
    requires EndsAs(s, f, end)
    ensures f in s.handlers && s.handlers[f].Generator?
  {
    hide Reached;
  }

  /** After a thread's step, an entry is of one of the kinds, the report of an ended request being with this
      thread or where it was. */
  ghost predicate EntryAfter(s: State, t: Token, s': State, t': Token, x: MsgId) {
    x in s'.table ==>
      var f := s'.table[x];
      && f < |s'.futures|
      && (OutboundEntry(s', f) || GeneratedEntry(s', x, f) ||
          (s'.futures[f].callback == Reply(x) && (s'.futures[f].status.Done? ==> Carried(s, t, s', t', x, f))))
  }

  ghost predicate Carried(s: State, t: Token, s': State, t': Token, x: MsgId, f: nat)
    requires f < |s'.futures|
  {
    || t' == RunCallback(f, Reply(x))
    || (x in s.table && s.table[x] == f < |s.futures| && s.futures[f] == s'.futures[f] && t != RunCallback(f, Reply(x)))
  }

  lemma {:induction false} ExecuteEntry(s: State, y: MsgId, h: Handler, cb: Callback, x: MsgId)
    requires Entry(s, x) && KnownToken(s, Execute(y, h, cb))
    ensures var (s', t') := ExecuteStep(s, y, h, cb); EntryAfter(s, Execute(y, h, cb), s', t', x)
  {}

  lemma {:induction false} CallbackEntry(s: State, g: nat, cb: Callback, x: MsgId)
    requires Entry(s, x)
    ensures var (s', t') := CallbackStep(s, g, cb); EntryAfter(s, RunCallback(g, cb), s', t', x)
  {}

  /** A future that ends takes its callback along. */
  lemma {:induction false} EndingEntry(s: State, t: Token, g: nat, end: End, x: MsgId)
    requires Entry(s, x) && g < |s.futures| && !s.futures[g].status.Done? && !t.RunCallback?
    requires x in s.table && s.table[x] == g ==> !s.futures[g].kind.Outbound?
    ensures EntryAfter(s, t, SetStatus(s, g, Done(end)), RunCallback(g, s.futures[g].callback), x)
  {}

  lemma {:induction false} SameEntry(s: State, t: Token, n: State, t': Token, x: MsgId)
    requires Entry(s, x) && n.futures == s.futures && n.table == s.table && !t.RunCallback?
    ensures EntryAfter(s, t, n, t', x)
  {}

  /** A thread's step, for one entry. */
  lemma {:induction false} AdvanceEntry(s: State, t: Token, x: MsgId)
    requires Entry(s, x) && KnownToken(s, t)
    requires x in s.table ==> !((t.CancelFuture? || t.SetFuture?) && t.future == s.table[x])
    requires t.Settle? && t.target < |s.futures| ==> s.futures[t.target].kind.Result?
    ensures var (s', t') := Advance(s, t); EntryAfter(s, t, s', t', x)
  {
    var (s', t') := Advance(s, t);
    hide EntryAfter, Entry, KnownToken, ExecuteStep, CallbackStep;
    match t
    case Execute(y, h, cb) => ExecuteEntry(s, y, h, cb, x);
    case RunCallback(g, cb) => CallbackEntry(s, g, cb, x);
    case Settle(g, o, _) =>
      if g < |s.futures| && !s.futures[g].status.Done? {
        EndingEntry(s, t, g, Ended(o), x);
      } else {
        SameEntry(s, t, s', t', x);
      }
    case CancelFuture(g) =>
      if g < |s.futures| && s.futures[g].status.Pending? && !s.futures[g].kind.Task? {
        EndingEntry(s, t, g, Cancelled, x);
      } else {
        SameEntry(s, t, s', t', x);
      }
    case SetFuture(g, o) =>
      if g < |s.futures| && !s.futures[g].status.Done? && !s.futures[g].kind.Task? {
        EndingEntry(s, t, g, Ended(o), x);
      } else {
        SameEntry(s, t, s', t', x);
      }
    case _ => SameEntry(s, t, s', t', x);
  }

  lemma {:induction false} MainEntry(s: State, x: MsgId)
    requires Entry(s, x) && Known(s) && Apart(s) && AllTraced(s)
    ensures Entry(Next(s, MainStep), x)
  {
    var (s', t') := Advance(s, s.main);
    var n := Next(s, MainStep);
    SettlesResult(s, s.main);
    AdvanceEntry(s, s.main, x);
    AdvanceFrame(s, s.main);
    hide Advance, Traced, TracedEnd, TracedCallback, KnownToken, GeneratedEntry, OutboundEntry;
    if x in n.table && n.futures[n.table[x]].callback == Reply(x) && n.futures[n.table[x]].status.Done? {
      var f := n.table[x];
      if Carried(s, s.main, s', t', x, f) && n.main != RunCallback(f, Reply(x)) {
        assert InboundEntry(s, x, f) ==> Held(s, f, Reply(x));
        if i :| 0 <= i < |s.workers| && s.workers[i] == RunCallback(f, Reply(x)) {
          assert n.workers[i] == s.workers[i];
        }
      }
    }
    SamePlaces(s', n, x);
  }

  lemma {:induction false} SamePlaces(s: State, n: State, x: MsgId)
    requires n.futures == s.futures && n.table == s.table
    ensures x in s.table && OutboundEntry(s, s.table[x]) ==> OutboundEntry(n, n.table[x])
    ensures x in s.table && GeneratedEntry(s, x, s.table[x]) ==> GeneratedEntry(n, x, n.table[x])
  {}

  lemma {:induction false} WorkerEntry(s: State, i: nat, x: MsgId)
    requires Entry(s, x) && Known(s) && Guarded(s) && AllTraced(s) && i < |s.workers|
    ensures Entry(Next(s, WorkerStep(i)), x)
  {
    var (s', t') := Advance(s, s.workers[i]);
    var n := Next(s, WorkerStep(i));
    assert WorkerToken(s, s.workers[i]);
    SettlesResult(s, s.workers[i]);
    AdvanceEntry(s, s.workers[i], x);
    AdvanceFrame(s, s.workers[i]);
    assert n.workers == s.workers[i := t'] && n.main == s.main;
    hide Advance, Traced, TracedEnd, TracedCallback, KnownToken, GeneratedEntry, OutboundEntry, WorkerToken, Guarded;
    if x in n.table && n.futures[n.table[x]].callback == Reply(x) && n.futures[n.table[x]].status.Done? {
      var f := n.table[x];
      if Carried(s, s.workers[i], s', t', x, f) && t' != RunCallback(f, Reply(x)) {
        assert InboundEntry(s, x, f) ==> Held(s, f, Reply(x));
        if j :| 0 <= j < |s.workers| && s.workers[j] == RunCallback(f, Reply(x)) {
          assert j != i && n.workers[j] == s.workers[j];
        }
      } else {
        assert n.workers[i] == t';
      }
    }
    SamePlaces(s', n, x);
  }

  lemma {:induction false} HeldStays(s: State, n: State, f: nat, cb: Callback)
    requires Held(s, f, cb) && |s.workers| <= |n.workers| && n.workers[..|s.workers|] == s.workers
    requires s.main == n.main || s.main.Idle?
    ensures Held(n, f, cb)
  {
    if i :| 0 <= i < |s.workers| && s.workers[i] == RunCallback(f, cb) {
      assert n.workers[i] == n.workers[..|s.workers|][i];
    }
  }

  lemma {:induction false} OutsideEntry(s: State, e: Event, x: MsgId)
    requires Entry(s, x) && !e.MainStep? && !e.WorkerStep? && Known(s)
    ensures Entry(Next(s, e), x)
  {
    match e
    case Arrive(msg) => if s.main.Idle? { ReceiveEntry(s, msg, x); }
    case FinishFuture(g, end) => if CanFinish(s, g, end) { FinishEntry(s, g, end, x); }
    case StartPooled(g) => StillEntry(s, Next(s, e), x);
    case SendRequest(y) => SendEntry(s, y, x);
    case SetShutdown => StillEntry(s, Next(s, e), x);
    case MainStep =>
    case WorkerStep(_) =>
  }

  lemma {:induction false} StillEntry(s: State, n: State, x: MsgId)
    requires Entry(s, x) && n.table == s.table && n.main == s.main && n.workers == s.workers
    requires |n.futures| == |s.futures|
    requires forall f :: 0 <= f < |s.futures| ==>
      n.futures[f] == s.futures[f] || (s.futures[f].kind.Pooled? && n.futures[f] == s.futures[f].(status := Running))
    ensures Entry(n, x)
  {
    if x in s.table && Held(s, s.table[x], Reply(x)) {
      HeldStays(s, n, s.table[x], Reply(x));
    }
  }

  lemma {:induction false} SendEntry(s: State, y: Option<MsgId>, x: MsgId)
    requires Entry(s, x)
    ensures Entry(Next(s, SendRequest(y)), x)
  {
    if x in s.table && Held(s, s.table[x], Reply(x)) {
      HeldStays(s, Next(s, SendRequest(y)), s.table[x], Reply(x));
    }
  }

  lemma {:induction false} ReceiveEntry(s: State, msg: Message, x: MsgId)
    requires Entry(s, x) && s.main.Idle?
    ensures Entry(Receive(s, msg), x)
  {
    var n := Receive(s, msg);
    if x in s.table && Held(s, s.table[x], Reply(x)) {
      HeldStays(s, n, s.table[x], Reply(x));
    }
  }

  lemma {:induction false} FinishEntry(s: State, g: nat, end: End, x: MsgId)
    requires Entry(s, x) && CanFinish(s, g, end)
    ensures Entry(Next(s, FinishFuture(g, end)), x)
  {
    var n := Next(s, FinishFuture(g, end));
    assert n.workers[|s.workers|] == RunCallback(g, s.futures[g].callback);
    assert n.workers[..|s.workers|] == s.workers;
    if x in s.table && Held(s, s.table[x], Reply(x)) {
      HeldStays(s, n, s.table[x], Reply(x));
    }
  }

  /** In every run, each entry is a request that was sent and has no response, a request that was received and is
      unfinished or about to be reported, or under a generated id and of a handler that answers nobody. */
  lemma {:induction false} EveryEntry(events: seq<Event>, x: MsgId)
    ensures Entry(Run(START, events), x)
  {
    if events != [] {
      var before, e := events[..|events| - 1], events[|events| - 1];
      EveryEntry(before, x);
      RunApart(before);
      RunKnown(before);
      RunGuarded(before);
      RunTraced(before);
      NextEntry(Run(START, before), e, x);
    }
  }

  lemma {:induction false} NextEntry(s: State, e: Event, x: MsgId)
    requires Entry(s, x) && Known(s) && Apart(s) && Guarded(s) && AllTraced(s)
    ensures Entry(Next(s, e), x)
  {
    hide Entry, Known, Apart, Guarded, AllTraced;
    match e
    case MainStep => MainEntry(s, x);
    case WorkerStep(i) => if i < |s.workers| { WorkerEntry(s, i, x); }
    case _ => OutsideEntry(s, e, x);
  }

  /** At rest: requests that were sent and have no response, requests that are stuck, and what nothing removes. */
  lemma {:induction false} TableAtRest(events: seq<Event>, x: MsgId)
    requires Quiet(Run(START, events)) && x in Run(START, events).table
    ensures var s := Run(START, events);
            var f := s.table[x];
            || OutboundEntry(s, f)
            || (f < |s.futures| && s.futures[f].callback == Reply(x) && Stuck(s, f))
            || GeneratedEntry(s, x, f)
  {
    var s := Run(START, events);
    EveryEntry(events, x);
    forall g ensures Alive(s, g) {
      RunAlive(events, g);
    }
    RunAlive(events, 0);
    RunGuarded(events);
    if InboundEntry(s, x, s.table[x]) {
      QuietStuck(s, s.table[x]);
    }
  }

  /** So the table is not the set of outstanding requests: a notification's pooled handler, long finished. */
  const NOTIFIED: seq<Event> :=
    [Arrive(Notification(Some(Threaded), false)), MainStep, StartPooled(0), FinishFuture(0, Ended(Returned(Null))), WorkerStep(0)]

  lemma {:induction false} NotificationStays()
    ensures var s := Run(START, NOTIFIED); Quiet(s) && Uuid(0) in s.table && s.table[Uuid(0)] == 0
    ensures var s := Run(START, NOTIFIED); |s.futures| == 1 && s.futures[0].status.Done? && s.dispatched == []
  {
    var e := NOTIFIED;
    var s1 := START.(uuids := 1, main := Execute(Uuid(0), Threaded, Check));
    var s2 := START.(uuids := 1, futures := [Fut(Pooled, Pending, Check)], table := map[Uuid(0) := 0], handlers := map[0 := Threaded]);
    var s3 := s2.(futures := [Fut(Pooled, Running, Check)]);
    var s4 := s2.(futures := [Fut(Pooled, Done(Ended(Returned(Null))), Check)], workers := [RunCallback(0, Check)]);
    assert Run(START, []) == START && e[..0] == [] && e[..5] == e;
    hide Run;
    NotifiedSteps(s1, s2, s3, s4);
    RunPrefix(e, 0);
    RunPrefix(e, 1);
    RunPrefix(e, 2);
    RunPrefix(e, 3);
    RunPrefix(e, 4);
    hide Next;
  }

  lemma {:induction false} NotifiedSteps(s1: State, s2: State, s3: State, s4: State)
    requires s1 == START.(uuids := 1, main := Execute(Uuid(0), Threaded, Check))
    requires s2 == START.(uuids := 1, futures := [Fut(Pooled, Pending, Check)], table := map[Uuid(0) := 0], handlers := map[0 := Threaded])
    requires s3 == s2.(futures := [Fut(Pooled, Running, Check)])
    requires s4 == s2.(futures := [Fut(Pooled, Done(Ended(Returned(Null))), Check)], workers := [RunCallback(0, Check)])
    ensures Next(START, NOTIFIED[0]) == s1 && Next(s1, MainStep) == s2 && Next(s2, StartPooled(0)) == s3
    ensures Next(s3, FinishFuture(0, Ended(Returned(Null)))) == s4 && Next(s4, WorkerStep(0)) == s4.(workers := [Idle])
  {
    assert s4.workers[0 := Idle] == [Idle];
  }
}
