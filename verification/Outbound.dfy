/** The server's own requests: which response each one ends with, over every run. */
module Outbound {
  import opened Requests
  import opened RequestRuns
  import opened Wrappers
  import opened Totals

  /* Which response is the first */

  /** The response to `id` that the event brings in: read while the reading thread is free and before shutdown. */
  function ReadIn(s: State, e: Event, id: MsgId): Option<PeerOutcome> {
    if e.Arrive? && e.msg.Response? && e.msg.id == id && s.main.Idle? && !s.shutdown then Some(e.msg.outcome) else None
  }

  /** The first one read in a continuation. */
  function FirstResponse(s: State, events: seq<Event>, id: MsgId): Option<PeerOutcome> {
    if events == [] then None
    else
      var before := events[..|events| - 1];
      var r := FirstResponse(s, before, id);
      if r.Some? then r else ReadIn(Run(s, before), events[|events| - 1], id)
  }

  /** The id under which a request is sent. */
  function SentId(s: State, given: Option<MsgId>): MsgId {
    if given.Some? then given.value else Uuid(s.uuids)
  }

  predicate Asks(e: Event, id: MsgId) {
    e.Arrive? && e.msg.Request? && e.msg.id == id
  }

  /** Somebody else uses this id, or cancels it. */
  predicate Uses(e: Event, id: MsgId) {
    Asks(e, id) || (e.Arrive? && e.msg.Cancel? && e.msg.id == id) || (e.SendRequest? && e.id == Some(id))
  }

  /* What every run keeps */

  /** Threads name only futures that exist and generated ids that have been handed out. */
  ghost predicate KnownToken(s: State, t: Token) {
    match t
    case CancelFuture(g) => g < |s.futures|
    case SetFuture(g, _) => g < |s.futures|
    case Execute(x, _, cb) => cb == Reply(x) || (x.Uuid? && x.n < s.uuids && !cb.Reply?)
    case _ => true
  }

  ghost predicate Known(s: State) {
    && (forall x :: x in s.table ==> s.table[x] < |s.futures|)
    && KnownToken(s, s.main)
    && (forall i :: 0 <= i < |s.workers| ==> KnownToken(s, s.workers[i]))
  }

  lemma {:induction false} AdvanceKnown(s: State, t: Token)
    requires KnownToken(s, t) && (forall x :: x in s.table ==> s.table[x] < |s.futures|)
    ensures var (s', t') := Advance(s, t);
            && s.uuids <= s'.uuids && |s.futures| <= |s'.futures|
            && KnownToken(s', t') && (forall x :: x in s'.table ==> s'.table[x] < |s'.futures|)
  {
    AdvanceFrame(s, t);
    TableStep(s, t);
    NextToken(s, t);
    hide Advance;
  }

  lemma {:induction false} NextToken(s: State, t: Token)
    ensures var (s', t') := Advance(s, t); KnownToken(s', t')
  {}

  lemma {:induction false} KnownStays(s: State, n: State, t: Token)
    requires KnownToken(s, t) && |s.futures| <= |n.futures| && s.uuids <= n.uuids
    ensures KnownToken(n, t)
  {}

  lemma {:induction false} MainKnown(s: State)
    requires Known(s)
    ensures Known(Next(s, MainStep))
  {
    var n := Next(s, MainStep);
    AdvanceKnown(s, s.main);
    AdvanceFrame(s, s.main);
    hide Advance, KnownToken;
    forall i | 0 <= i < |n.workers| ensures KnownToken(n, n.workers[i]) {
      KnownStays(s, n, s.workers[i]);
    }
  }

  lemma {:induction false} WorkerKnown(s: State, i: nat)
    requires Known(s) && i < |s.workers|
    ensures Known(Next(s, WorkerStep(i)))
  {
    var n := Next(s, WorkerStep(i));
    AdvanceKnown(s, s.workers[i]);
    AdvanceFrame(s, s.workers[i]);
    hide Advance, KnownToken;
    KnownStays(s, n, s.main);
    forall j | 0 <= j < |n.workers| ensures KnownToken(n, n.workers[j]) {
      if j != i {
        KnownStays(s, n, s.workers[j]);
      }
    }
  }

  lemma {:induction false} OutsideKnown(s: State, e: Event)
    requires Known(s) && !e.MainStep? && !e.WorkerStep?
    ensures Known(Next(s, e))
  {
    var n := Next(s, e);
    OutsideTables(s, e);
    hide Next, KnownToken;
    forall i | 0 <= i < |s.workers| ensures KnownToken(n, s.workers[i]) {
      KnownStays(s, n, s.workers[i]);
    }
    if n.main == s.main {
      KnownStays(s, n, s.main);
    }
  }

  lemma {:induction false} OutsideTables(s: State, e: Event)
    requires Known(s) && !e.MainStep? && !e.WorkerStep?
    ensures var n := Next(s, e);
            && |s.futures| <= |n.futures| && s.uuids <= n.uuids
            && (forall x :: x in n.table ==> n.table[x] < |n.futures|)
            && (n.main == s.main || KnownToken(n, n.main))
            && (n.workers == s.workers || exists f, cb :: n.workers == s.workers + [RunCallback(f, cb)])
    ensures forall f, cb :: KnownToken(Next(s, e), RunCallback(f, cb))
  {
    match e
    case Arrive(msg) => if s.main.Idle? { ReceiveTables(s, msg); }
    case _ =>
  }

  lemma {:induction false} ReceiveTables(s: State, msg: Message)
    requires Known(s)
    ensures var n := Receive(s, msg);
            && n.futures == s.futures && n.workers == s.workers && s.uuids <= n.uuids
            && (forall x :: x in n.table ==> n.table[x] < |n.futures|)
            && (n.main == s.main || KnownToken(n, n.main))
  {}

  lemma {:induction false} NextKnown(s: State, e: Event)
    requires Known(s)
    ensures Known(Next(s, e))
  {
    hide Known, Next;
    match e
    case MainStep => MainKnown(s);
    case WorkerStep(i) => if i < |s.workers| { WorkerKnown(s, i); } else { NoWorker(s, i); }
    case _ => OutsideKnown(s, e);
  }

  lemma {:induction false} NoWorker(s: State, i: nat)
    requires i >= |s.workers|
    ensures Next(s, WorkerStep(i)) == s
  {}

  lemma {:induction false} RunKnown(events: seq<Event>)
    ensures Known(Run(START, events))
  {
    if events != [] {
      RunKnown(events[..|events| - 1]);
      NextKnown(Run(START, events[..|events| - 1]), events[|events| - 1]);
    }
  }

  /* One request */

  /** No thread has anything to do with the future, other than to give it its response. */
  ghost predicate LeftAlone(t: Token, f: nat, id: MsgId) {
    && !TokTargets(t, f) && t != CancelFuture(f)
    && (t.Execute? ==> t.id != id)
    && !(t.RunCallback? && Replies(t.callback, id))
  }

  /** The request under `id`, with future `f`, has got response `r`, or none yet. */
  ghost predicate Awaiting(s: State, f: nat, id: MsgId, r: Option<PeerOutcome>) {
    && f < |s.futures| && s.futures[f].kind.Outbound? && s.futures[f].callback.User?
    && (id.Uuid? ==> id.n < s.uuids)
    && (forall x :: x in s.table && s.table[x] == f ==> x == id)
    && (forall g :: 0 <= g < |s.futures| ==> !Targets(s.futures[g].callback, f))
    && LeftAlone(s.main, f, id)
    && (forall i :: 0 <= i < |s.workers| ==> LeftAlone(s.workers[i], f, id) && !s.workers[i].SetFuture?)
    && (match r
        case None =>
          s.futures[f].status.Pending? && id in s.table && s.table[id] == f && !(s.main.SetFuture? && s.main.future == f)
        case Some(o) =>
          && id !in s.table
          && (if s.main.SetFuture? && s.main.future == f then s.futures[f].status.Pending? && s.main.outcome == o
              else s.futures[f].status == Done(Ended(o))))
  }

  /** Nobody answers the id, so no callback pops it. */
  ghost predicate NobodyReplies(s: State, id: MsgId) {
    && TokOpen(id)(s.main) == 0
    && (forall i :: 0 <= i < |s.workers| ==> TokOpen(id)(s.workers[i]) == 0)
    && (forall f :: 0 <= f < |s.futures| ==> FutOpen(id)(s.futures[f]) == 0)
  }

  lemma {:induction false} UndispatchedNobodyReplies(events: seq<Event>, id: MsgId)
    requires forall i :: 0 <= i < |events| ==> !Asks(events[i], id)
    ensures NobodyReplies(Run(START, events), id)
  {
    var s := Run(START, events);
    Conservation(events, id);
    NeverDispatched(events, id);
    forall i | 0 <= i < |s.workers| ensures TokOpen(id)(s.workers[i]) == 0 {
      TotalAtLeast(s.workers, i, TokOpen(id));
    }
    forall f | 0 <= f < |s.futures| ensures FutOpen(id)(s.futures[f]) == 0 {
      TotalAtLeast(s.futures, f, FutOpen(id));
    }
  }

  lemma {:induction false} NeverDispatched(events: seq<Event>, id: MsgId)
    requires forall i :: 0 <= i < |events| ==> !Asks(events[i], id)
    ensures Dispatched(Run(START, events), id) == 0
  {
    if events != [] {
      var before, e := events[..|events| - 1], events[|events| - 1];
      NeverDispatched(before, id);
      NextDispatched(Run(START, before), e, id);
    }
  }

  lemma {:induction false} NextDispatched(s: State, e: Event, id: MsgId)
    requires !Asks(e, id)
    ensures Dispatched(Next(s, e), id) == Dispatched(s, id)
  {
    match e
    case Arrive(Request(x, _, _)) => TotalAppend(s.dispatched, x, IsId(id));
    case MainStep => AdvanceFrame(s, s.main);
    case WorkerStep(i) => if i < |s.workers| { AdvanceFrame(s, s.workers[i]); }
    case _ =>
  }

  /* What a step of a thread leaves alone */

  lemma {:induction false} TableLeftAlone(s: State, t: Token, f: nat, id: MsgId)
    requires f < |s.futures| && LeftAlone(t, f, id) && forall x :: x in s.table && s.table[x] == f ==> x == id
    ensures var (s', _) := Advance(s, t);
            && (forall x :: x in s'.table && s'.table[x] == f ==> x == id)
            && (id in s'.table <==> id in s.table) && (id in s.table ==> s'.table[id] == s.table[id])
  {}

  lemma {:induction false} FuturesLeftAlone(s: State, t: Token, f: nat, id: MsgId)
    requires f < |s.futures| && LeftAlone(t, f, id)
    requires forall g :: 0 <= g < |s.futures| ==> !Targets(s.futures[g].callback, f)
    ensures var (s', _) := Advance(s, t);
            && |s.futures| <= |s'.futures| && s.uuids <= s'.uuids
            && (forall g :: 0 <= g < |s'.futures| ==> !Targets(s'.futures[g].callback, f))
            && (!(t.SetFuture? && t.future == f) ==> s'.futures[f] == s.futures[f])
  {
    AdvanceFrame(s, t);
    NewCallback(s, t);
    TableStep(s, t);
    if !(t.SetFuture? && t.future == f) {
      SameFuture(s, t, f);
    }
    hide Advance;
  }

  lemma {:induction false} SameFuture(s: State, t: Token, f: nat)
    requires f < |s.futures| && !TokTargets(t, f) && t != CancelFuture(f) && !(t.SetFuture? && t.future == f)
    ensures Advance(s, t).0.futures[f] == s.futures[f]
  {}

  lemma {:induction false} TokenLeftAlone(s: State, t: Token, f: nat, id: MsgId)
    requires f < |s.futures| && LeftAlone(t, f, id) && TokOpen(id)(t) == 0 && (id.Uuid? ==> id.n < s.uuids)
    requires forall g :: 0 <= g < |s.futures| ==> !Targets(s.futures[g].callback, f) && FutOpen(id)(s.futures[g]) == 0
    ensures var (_, t') := Advance(s, t); LeftAlone(t', f, id) && !t'.SetFuture?
  {}

  lemma {:induction false} MainAwaiting(s: State, f: nat, id: MsgId, r: Option<PeerOutcome>)
    requires Awaiting(s, f, id, r) && NobodyReplies(s, id)
    ensures Awaiting(Next(s, MainStep), f, id, r)
  {
    TableLeftAlone(s, s.main, f, id);
    FuturesLeftAlone(s, s.main, f, id);
    TokenLeftAlone(s, s.main, f, id);
    AdvanceFrame(s, s.main);
    if s.main.SetFuture? && s.main.future == f {
      assert r.Some? && s.futures[f].status.Pending?;
      assert Next(s, MainStep).futures[f].status == Done(Ended(r.value));
    }
    hide Advance, TokTargets, TokOpen, FutOpen;
  }

  lemma {:induction false} WorkerAwaiting(s: State, i: nat, f: nat, id: MsgId, r: Option<PeerOutcome>)
    requires Awaiting(s, f, id, r) && NobodyReplies(s, id) && i < |s.workers|
    ensures Awaiting(Next(s, WorkerStep(i)), f, id, r)
  {
    TableLeftAlone(s, s.workers[i], f, id);
    FuturesLeftAlone(s, s.workers[i], f, id);
    TokenLeftAlone(s, s.workers[i], f, id);
    AdvanceFrame(s, s.workers[i]);
    hide Advance, TokTargets, TokOpen, FutOpen, LeftAlone;
  }

  /** Messages, the pool, the event loop and other senders. */
  lemma {:induction false} OutsideAwaiting(s: State, e: Event, f: nat, id: MsgId, r: Option<PeerOutcome>)
    requires Awaiting(s, f, id, r) && NobodyReplies(s, id) && !Uses(e, id) && !e.MainStep? && !e.WorkerStep?
    requires forall x :: x in s.table ==> s.table[x] < |s.futures|
    ensures Awaiting(Next(s, e), f, id, if r.Some? then r else ReadIn(s, e, id))
  {
    hide Awaiting, NobodyReplies;
    match e
    case Arrive(msg) => if s.main.Idle? { ReceiveAwaiting(s, msg, f, id, r); }
    case FinishFuture(g, end) => FinishAwaiting(s, g, end, f, id, r);
    case SendRequest(x) => SendAwaiting(s, x, f, id, r);
    case StartPooled(g) => StartAwaiting(s, g, f, id, r);
    case SetShutdown => ShutdownAwaiting(s, f, id, r);
  }

  lemma {:induction false} SendAwaiting(s: State, x: Option<MsgId>, f: nat, id: MsgId, r: Option<PeerOutcome>)
    requires Awaiting(s, f, id, r) && !Uses(SendRequest(x), id)
    ensures Awaiting(Next(s, SendRequest(x)), f, id, r)
  {}

  lemma {:induction false} StartAwaiting(s: State, g: nat, f: nat, id: MsgId, r: Option<PeerOutcome>)
    requires Awaiting(s, f, id, r)
    ensures Awaiting(Next(s, StartPooled(g)), f, id, r)
  {}

  lemma {:induction false} ShutdownAwaiting(s: State, f: nat, id: MsgId, r: Option<PeerOutcome>)
    requires Awaiting(s, f, id, r)
    ensures Awaiting(Next(s, SetShutdown), f, id, r)
  {}

  lemma {:induction false} ReceiveAwaiting(s: State, msg: Message, f: nat, id: MsgId, r: Option<PeerOutcome>)
    requires Awaiting(s, f, id, r) && s.main.Idle? && !Uses(Arrive(msg), id)
    ensures Awaiting(Receive(s, msg), f, id, if r.Some? then r else ReadIn(s, Arrive(msg), id))
  {}

  lemma {:induction false} FinishAwaiting(s: State, g: nat, end: End, f: nat, id: MsgId, r: Option<PeerOutcome>)
    requires Awaiting(s, f, id, r) && NobodyReplies(s, id)
    ensures Awaiting(Next(s, FinishFuture(g, end)), f, id, r)
  {}

  lemma {:induction false} NextAwaiting(s: State, e: Event, f: nat, id: MsgId, r: Option<PeerOutcome>)
    requires Awaiting(s, f, id, r) && NobodyReplies(s, id) && Known(s) && !Uses(e, id)
    ensures Awaiting(Next(s, e), f, id, if r.Some? then r else ReadIn(s, e, id))
  {
    hide Awaiting;
    match e
    case MainStep => MainAwaiting(s, f, id, r);
    case WorkerStep(i) => if i < |s.workers| { WorkerAwaiting(s, i, f, id, r); }
    case _ => OutsideAwaiting(s, e, f, id, r);
  }

  lemma {:induction false} JustSent(before: seq<Event>, given: Option<MsgId>)
    requires given.Some? ==> given.value.Given?
    requires var s := Run(START, before); forall i :: 0 <= i < |before| ==> !Uses(before[i], SentId(s, given))
    ensures var s := Run(START, before); Awaiting(Next(s, SendRequest(given)), |s.futures|, SentId(s, given), None)
  {
    var s := Run(START, before);
    UndispatchedNobodyReplies(before, SentId(s, given));
    RunGuarded(before);
    RunKnown(before);
    SentAwaiting(s, given);
  }

  lemma {:induction false} SentAwaiting(s: State, given: Option<MsgId>)
    requires (given.Some? ==> given.value.Given?) && NobodyReplies(s, SentId(s, given)) && Guarded(s) && Known(s)
    ensures Awaiting(Next(s, SendRequest(given)), |s.futures|, SentId(s, given), None)
  {
    var f, id := |s.futures|, SentId(s, given);
    assert LeftAlone(s.main, f, id);
    forall i | 0 <= i < |s.workers| ensures LeftAlone(s.workers[i], f, id) && !s.workers[i].SetFuture? {
      assert KnownToken(s, s.workers[i]) && WorkerToken(s, s.workers[i]);
    }
  }

  lemma {:induction false} AwaitingRun(before: seq<Event>, given: Option<MsgId>, after: seq<Event>)
    requires given.Some? ==> given.value.Given?
    requires var id := SentId(Run(START, before), given); forall i :: 0 <= i < |before| ==> !Uses(before[i], id)
    requires var id := SentId(Run(START, before), given); forall i :: 0 <= i < |after| ==> !Uses(after[i], id)
    ensures var s := Run(START, before);
            var s1, id := Next(s, SendRequest(given)), SentId(s, given);
            Awaiting(Run(s1, after), |s.futures|, id, FirstResponse(s1, after, id))
  {
    hide Awaiting, Uses, NobodyReplies, Known;
    var s := Run(START, before);
    var s1, id := Next(s, SendRequest(given)), SentId(s, given);
    if after == [] {
      JustSent(before, given);
    } else {
      var init := after[..|after| - 1];
      AwaitingRun(before, given, init);
      var events := before + [SendRequest(given)] + init;
      RunThrough(before, SendRequest(given), init);
      assert forall e :: !Uses(e, id) ==> !Asks(e, id) by { NotAsked(id); }
      forall i | 0 <= i < |events| ensures !Asks(events[i], id) {
        assert events[i] == if i < |before| then before[i] else if i == |before| then SendRequest(given) else init[i - |before| - 1];
      }
      UndispatchedNobodyReplies(events, id);
      RunKnown(events);
      NextAwaiting(Run(s1, init), after[|after| - 1], |s.futures|, id, FirstResponse(s1, init, id));
    }
  }

  lemma {:induction false} NotAsked(id: MsgId)
    ensures forall e :: !Uses(e, id) ==> !Asks(e, id)
  {}

  lemma {:induction false} RunThrough(before: seq<Event>, e: Event, after: seq<Event>)
    ensures Run(START, before + [e] + after) == Run(Next(Run(START, before), e), after)
  {
    if after == [] {
      assert before + [e] + after == before + [e] && (before + [e])[..|before|] == before;
    } else {
      var events := before + [e] + after;
      assert events[..|events| - 1] == before + [e] + after[..|after| - 1];
      RunThrough(before, e, after[..|after| - 1]);
    }
  }

  /** In every run, with whatever other threads, handlers and requests in between: a request sent under an id that
      nobody else uses or cancels stays pending until a response bearing its id is read before shutdown, and ends
      with the first such response; later ones find nothing. */
  lemma {:induction false} OutboundMatched(before: seq<Event>, given: Option<MsgId>, after: seq<Event>)
    requires given.Some? ==> given.value.Given?
    requires var id := SentId(Run(START, before), given);
             forall i :: 0 <= i < |before| ==> !Uses(before[i], id)
    requires var id := SentId(Run(START, before), given);
             forall i :: 0 <= i < |after| ==> !Uses(after[i], id)
    ensures var s, n := Run(START, before), Run(START, before + [SendRequest(given)] + after);
            var f, id := |s.futures|, SentId(s, given);
            && f < |n.futures|
            && match FirstResponse(Next(s, SendRequest(given)), after, id)
               case None => n.futures[f] == Fut(Outbound, Pending, User) && id in n.table && n.table[id] == f
               case Some(o) => id !in n.table && (n.main.Idle? ==> n.futures[f] == Fut(Outbound, Done(Ended(o)), User))
  {
    AwaitingRun(before, given, after);
    RunThrough(before, SendRequest(given), after);
  }
}
