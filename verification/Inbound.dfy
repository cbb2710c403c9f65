/** A request that is asked once: when its entry is in the table, and what a cancel notification does. */
module Inbound {
  import opened Totals
  import opened Requests
  import opened RequestRuns
  import opened Completion
  import opened Outbound
  import opened RequestTable
  import opened Wrappers

  /** Brings the id into use: a request from the peer, or one sent under this id. */
  predicate Brings(e: Event, id: MsgId) {
    Asks(e, id) || (e.SendRequest? && e.id == Some(id))
  }

  ghost predicate Executes(t: Token, id: MsgId) {
    t.Execute? && (t.id == id || Replies(t.callback, id))
  }

  /** Nothing in the state has to do with the id. */
  ghost predicate Unheard(s: State, id: MsgId) {
    && id !in s.table && !Executes(s.main, id)
    && (forall i :: 0 <= i < |s.workers| ==> !Executes(s.workers[i], id))
    && (forall f :: 0 <= f < |s.futures| ==> !Replies(s.futures[f].callback, id))
  }

  lemma {:induction false} AdvanceUnheard(s: State, t: Token, id: MsgId)
    requires id.Given? && id !in s.table && !Executes(t, id)
    requires forall f :: 0 <= f < |s.futures| ==> !Replies(s.futures[f].callback, id)
    ensures var (s', t') := Advance(s, t);
            && id !in s'.table && !Executes(t', id)
            && (forall f :: 0 <= f < |s'.futures| ==> !Replies(s'.futures[f].callback, id))
  {
    AdvanceFrame(s, t);
    NewCallback(s, t);
    TableStep(s, t);
    AdvanceUnheardToken(s, t, id);
    hide Advance;
  }

  lemma {:induction false} NextUnheard(s: State, e: Event, id: MsgId)
    requires id.Given? && Unheard(s, id) && !Brings(e, id)
    ensures Unheard(Next(s, e), id)
  {
    hide Advance, Receive;
    match e
    case MainStep =>
      AdvanceUnheard(s, s.main, id);
      AdvanceFrame(s, s.main);
    case WorkerStep(i) =>
      if i < |s.workers| {
        AdvanceUnheard(s, s.workers[i], id);
        AdvanceFrame(s, s.workers[i]);
      }
    case Arrive(msg) => if s.main.Idle? { ReceiveUnheard(s, msg, id); }
    case _ =>
  }

  lemma {:induction false} ReceiveUnheard(s: State, msg: Message, id: MsgId)
    requires id.Given? && Unheard(s, id) && !Brings(Arrive(msg), id)
    ensures Unheard(Receive(s, msg), id)
  {}

  lemma {:induction false} RunUnheard(events: seq<Event>, id: MsgId)
    requires id.Given? && forall i :: 0 <= i < |events| ==> !Brings(events[i], id)
    ensures Unheard(Run(START, events), id)
  {
    if events != [] {
      RunUnheard(events[..|events| - 1], id);
      NextUnheard(Run(START, events[..|events| - 1]), events[|events| - 1], id);
    }
  }

  /** The request is about to be executed. */
  ghost predicate Asked(s: State, id: MsgId, h: Handler) {
    && id !in s.table && s.main == Execute(id, h, Reply(id))
    && (forall i :: 0 <= i < |s.workers| ==> !Executes(s.workers[i], id))
    && (forall f :: 0 <= f < |s.futures| ==> !Replies(s.futures[f].callback, id))
    && TakenBelow(s)
    && (forall x :: x in s.table ==> s.table[x] < |s.futures|)
  }

  ghost predicate Owns(s: State, id: MsgId, f: nat) {
    && f < |s.futures| && s.futures[f].callback == Reply(id) && !s.futures[f].kind.Outbound?
    && (forall g :: 0 <= g < |s.futures| && Replies(s.futures[g].callback, id) ==> g == f)
  }

  ghost predicate Belongs(s: State, id: MsgId, f: nat) {
    (forall x :: x in s.table && s.table[x] == f ==> x == id) && (id in s.table ==> s.table[id] == f)
  }

  /** Future `f` is the request's; its entry is there until the future ends and the callback pops it, or a cancel
      or a response takes it. */
  ghost predicate Entered(s: State, id: MsgId, f: nat) {
    && Owns(s, id, f) && Belongs(s, id, f)
    && (id in s.table <==> f !in s.taken && (!s.futures[f].status.Done? || Held(s, f, Reply(id))))
    && !Executes(s.main, id) && (forall i :: 0 <= i < |s.workers| ==> !Executes(s.workers[i], id))
  }

  /** The first step: a future and its entry. */
  lemma {:induction false} ExecuteEntered(s: State, id: MsgId, h: Handler)
    requires Asked(s, id, h) && !h.Sync? && Open(s, id) <= 1 && AllSane(s)
    ensures Entered(Next(s, MainStep), id, |s.futures|)
  {
    hide Sane;
    var n := Next(s, MainStep);
    assert |s.futures| !in s.taken;
  }

  lemma {:induction false} AskedStays(s: State, e: Event, id: MsgId, h: Handler)
    requires id.Given? && Asked(s, id, h) && !Brings(e, id) && !e.MainStep?
    ensures Asked(Next(s, e), id, h)
  {
    hide Advance, Receive;
    match e
    case WorkerStep(i) => if i < |s.workers| { WorkerAsked(s, i, id, h); }
    case _ =>
  }

  lemma {:induction false} WorkerAsked(s: State, i: nat, id: MsgId, h: Handler)
    requires id.Given? && Asked(s, id, h) && i < |s.workers|
    ensures Asked(Next(s, WorkerStep(i)), id, h)
  {
    AdvanceUnheard(s, s.workers[i], id);
    AdvanceFrame(s, s.workers[i]);
    TableBelow(s, s.workers[i]);
    hide Advance;
  }

  lemma {:induction false} TableBelow(s: State, t: Token)
    requires forall x :: x in s.table ==> s.table[x] < |s.futures|
    ensures var (s', _) := Advance(s, t);
            s'.taken == s.taken && |s.futures| <= |s'.futures| && forall x :: x in s'.table ==> s'.table[x] < |s'.futures|
  {
    AdvanceFrame(s, t);
    TableStep(s, t);
    hide Advance;
  }

  /** A thread's step, for the request's future and entry. */
  lemma {:induction false} AdvanceOwns(s: State, t: Token, id: MsgId, f: nat)
    requires Owns(s, id, f) && !Executes(t, id)
    ensures Owns(Advance(s, t).0, id, f) && Advance(s, t).0.taken == s.taken
  {
    AdvanceFrame(s, t);
    NewCallback(s, t);
    TableStep(s, t);
    hide Advance;
  }

  lemma {:induction false} AdvanceBelongs(s: State, t: Token, id: MsgId, f: nat)
    requires Belongs(s, id, f) && f < |s.futures| && !Executes(t, id)
    ensures Belongs(Advance(s, t).0, id, f)
  {
    TableStep(s, t);
    hide Advance;
  }

  lemma {:induction false} AdvanceEntered(s: State, t: Token, id: MsgId, f: nat)
    requires id.Given? && Entered(s, id, f) && !Executes(t, id)
    ensures var (s', t') := Advance(s, t);
            Owns(s', id, f) && Belongs(s', id, f) && !Executes(t', id) && s'.taken == s.taken
  {
    hide Owns, Belongs, Executes, Advance;
    FutureExists(s, id, f);
    AdvanceOwns(s, t, id, f);
    AdvanceBelongs(s, t, id, f);
    AdvanceUnheardToken(s, t, id);
  }

  lemma {:induction false} FutureExists(s: State, id: MsgId, f: nat)
    requires Owns(s, id, f)
    ensures f < |s.futures|
  {}

  lemma {:induction false} AdvanceUnheardToken(s: State, t: Token, id: MsgId)
    requires id.Given? && !Executes(t, id)
    ensures !Executes(Advance(s, t).1, id)
  {}

  lemma {:induction false} AdvanceHolds(s: State, t: Token, id: MsgId, f: nat)
    requires id.Given? && Entered(s, id, f) && Sane(s, t) && !Executes(t, id)
    ensures var (s', t') := Advance(s, t);
            && (t == RunCallback(f, Reply(id)) ==> s'.futures[f].status.Done? && id !in s'.table && t' != RunCallback(f, Reply(id)))
            && (t != RunCallback(f, Reply(id)) ==> (id in s'.table <==> id in s.table))
            && (s'.futures[f].status.Done? <==> s.futures[f].status.Done? || t' == RunCallback(f, Reply(id)))
            && (t' == RunCallback(f, Reply(id)) ==> !s.futures[f].status.Done?)
  {}

  /** While the request is open once, one thread at most holds its callback, and none before its future ends. */
  lemma {:induction false} OneHolder(s: State, id: MsgId, f: nat)
    requires f < |s.futures| && s.futures[f].callback == Reply(id) && Open(s, id) <= 1
    ensures !s.futures[f].status.Done? ==> !Held(s, f, Reply(id))
    ensures s.main == RunCallback(f, Reply(id)) ==>
              forall i :: 0 <= i < |s.workers| ==> s.workers[i] != RunCallback(f, Reply(id))
    ensures forall i, j :: 0 <= i < j < |s.workers| ==>
              s.workers[i] != RunCallback(f, Reply(id)) || s.workers[j] != RunCallback(f, Reply(id))
  {
    TotalAtLeast(s.futures, f, FutOpen(id));
    forall i | 0 <= i < |s.workers| ensures TokOpen(id)(s.workers[i]) <= Total(s.workers, TokOpen(id)) {
      TotalAtLeast(s.workers, i, TokOpen(id));
    }
    assert TokOpen(id)(RunCallback(f, Reply(id))) == 1;
    forall i, j | 0 <= i < j < |s.workers| && s.workers[i] == RunCallback(f, Reply(id)) ensures s.workers[j] != RunCallback(f, Reply(id)) {
      TotalPair(s.workers, i, j, TokOpen(id));
    }
  }

  lemma {:induction false} MainEntered(s: State, id: MsgId, f: nat)
    requires id.Given? && Entered(s, id, f) && AllSane(s) && Open(s, id) <= 1
    ensures Entered(Next(s, MainStep), id, f)
  {
    var n := Next(s, MainStep);
    AdvanceEntered(s, s.main, id, f);
    AdvanceHolds(s, s.main, id, f);
    AdvanceFrame(s, s.main);
    OneHolder(s, id, f);
    hide Advance, Open, AllSane, Replies, Executes;
    assert n.workers == s.workers;
    if Held(s, f, Reply(id)) && s.main != RunCallback(f, Reply(id)) {
      var i :| 0 <= i < |s.workers| && s.workers[i] == RunCallback(f, Reply(id));
      assert n.workers[i] == RunCallback(f, Reply(id));
    }
  }

  lemma {:induction false} WorkerEntered(s: State, i: nat, id: MsgId, f: nat)
    requires id.Given? && Entered(s, id, f) && AllSane(s) && Open(s, id) <= 1 && i < |s.workers|
    ensures Entered(Next(s, WorkerStep(i)), id, f)
  {
    var n := Next(s, WorkerStep(i));
    var (s', t') := Advance(s, s.workers[i]);
    AdvanceEntered(s, s.workers[i], id, f);
    AdvanceHolds(s, s.workers[i], id, f);
    AdvanceFrame(s, s.workers[i]);
    OneHolder(s, id, f);
    assert n.workers == s.workers[i := t'] && n.main == s.main;
    hide Advance, Open, AllSane, Replies, Executes;
    assert n.workers[i] == t';
    if Held(s, f, Reply(id)) && s.workers[i] != RunCallback(f, Reply(id)) && s.main != RunCallback(f, Reply(id)) {
      var j :| 0 <= j < |s.workers| && s.workers[j] == RunCallback(f, Reply(id));
      assert n.workers[j] == RunCallback(f, Reply(id));
    }
  }

  lemma {:induction false} ReceiveEntered(s: State, msg: Message, id: MsgId, f: nat)
    requires id.Given? && Entered(s, id, f) && s.main.Idle? && !Brings(Arrive(msg), id)
    ensures Entered(Receive(s, msg), id, f)
  {
    hide Receive, Entered, Executes, Brings;
    var n := Receive(s, msg);
    ReceiveFrame(s, msg, id);
    ReceiveTable(s, msg);
    if x :| x in s.table && n.table == s.table - {x} && n.taken == s.taken + {s.table[x]} {
      TakenEntered(s, n, x, id, f);
    } else {
      UntakenEntered(s, n, id, f);
    }
  }

  lemma {:induction false} UntakenEntered(s: State, n: State, id: MsgId, f: nat)
    requires Entered(s, id, f) && n.table == s.table && n.taken == s.taken
    requires n.workers == s.workers && n.futures == s.futures && s.main.Idle? && !n.main.RunCallback? && !Executes(n.main, id)
    ensures Entered(n, id, f)
  {
    assert Held(n, f, Reply(id)) <==> Held(s, f, Reply(id));
  }

  lemma {:induction false} TakenEntered(s: State, n: State, x: MsgId, id: MsgId, f: nat)
    requires Entered(s, id, f) && x in s.table && n.table == s.table - {x} && n.taken == s.taken + {s.table[x]}
    requires n.workers == s.workers && n.futures == s.futures && s.main.Idle? && !n.main.RunCallback? && !Executes(n.main, id)
    ensures Entered(n, id, f)
  {
    assert Held(n, f, Reply(id)) <==> Held(s, f, Reply(id));
    hide Held, Executes;
  }

  lemma {:induction false} ReceiveFrame(s: State, msg: Message, id: MsgId)
    requires id.Given? && s.main.Idle? && !Brings(Arrive(msg), id)
    ensures var n := Receive(s, msg);
            n.workers == s.workers && n.futures == s.futures && !n.main.RunCallback? && !Executes(n.main, id)
  {}

  lemma {:induction false} ReceiveTable(s: State, msg: Message)
    ensures var n := Receive(s, msg);
            || (n.table == s.table && n.taken == s.taken)
            || (exists x :: x in s.table && n.table == s.table - {x} && n.taken == s.taken + {s.table[x]})
  {}

  lemma {:induction false} FinishEntered(s: State, g: nat, end: End, id: MsgId, f: nat)
    requires Entered(s, id, f) && CanFinish(s, g, end)
    ensures Entered(Next(s, FinishFuture(g, end)), id, f)
  {
    var n := Next(s, FinishFuture(g, end));
    assert n.workers[|s.workers|] == RunCallback(g, s.futures[g].callback);
    assert n.workers[..|s.workers|] == s.workers;
    if Held(s, f, Reply(id)) {
      HeldStays(s, n, f, Reply(id));
    }
    if Held(n, f, Reply(id)) && g != f && n.main != RunCallback(f, Reply(id)) {
      var i :| 0 <= i < |n.workers| && n.workers[i] == RunCallback(f, Reply(id));
      assert i < |s.workers| ==> s.workers[i] == n.workers[i];
    }
  }

  lemma {:induction false} OutsideEntered(s: State, e: Event, id: MsgId, f: nat)
    requires id.Given? && Entered(s, id, f) && !Brings(e, id) && !e.MainStep? && !e.WorkerStep?
    requires forall x :: x in s.table ==> s.table[x] < |s.futures|
    ensures Entered(Next(s, e), id, f)
  {
    hide Receive;
    match e
    case Arrive(msg) => if s.main.Idle? { ReceiveEntered(s, msg, id, f); }
    case FinishFuture(g, end) => if CanFinish(s, g, end) { FinishEntered(s, g, end, id, f); }
    case StartPooled(g) => StartEntered(s, g, id, f);
    case SendRequest(y) => SendEntered(s, y, id, f);
    case SetShutdown => assert Held(Next(s, e), f, Reply(id)) <==> Held(s, f, Reply(id));
    case MainStep =>
    case WorkerStep(_) =>
  }

  lemma {:induction false} StartEntered(s: State, g: nat, id: MsgId, f: nat)
    requires Entered(s, id, f)
    ensures Entered(Next(s, StartPooled(g)), id, f)
  {
    assert Held(Next(s, StartPooled(g)), f, Reply(id)) <==> Held(s, f, Reply(id));
  }

  lemma {:induction false} SendEntered(s: State, y: Option<MsgId>, id: MsgId, f: nat)
    requires id.Given? && Entered(s, id, f) && !Brings(SendRequest(y), id)
    requires forall x :: x in s.table ==> s.table[x] < |s.futures|
    ensures Entered(Next(s, SendRequest(y)), id, f)
  {
    assert Held(Next(s, SendRequest(y)), f, Reply(id)) <==> Held(s, f, Reply(id));
  }

  /* Runs */

  ghost predicate TakenBelow(s: State) {
    forall f :: f in s.taken ==> f < |s.futures|
  }

  lemma {:induction false} RunTakenBelow(events: seq<Event>)
    ensures TakenBelow(Run(START, events))
  {
    if events != [] {
      var before, e := events[..|events| - 1], events[|events| - 1];
      RunTakenBelow(before);
      RunKnown(before);
      NextTakenBelow(Run(START, before), e);
    }
  }

  lemma {:induction false} NextTakenBelow(s: State, e: Event)
    requires Known(s) && TakenBelow(s)
    ensures TakenBelow(Next(s, e))
  {
    match e
    case MainStep => TableBelow(s, s.main);
    case WorkerStep(i) => if i < |s.workers| { TableBelow(s, s.workers[i]); }
    case _ =>
  }

  lemma {:induction false} NotDispatched(s: State, events: seq<Event>, id: MsgId)
    requires forall i :: 0 <= i < |events| ==> !Asks(events[i], id)
    ensures Dispatched(Run(s, events), id) == Dispatched(s, id)
  {
    if events != [] {
      var before, e := events[..|events| - 1], events[|events| - 1];
      NotDispatched(s, before, id);
      AskNothing(Run(s, before), e, id);
    }
  }

  lemma {:induction false} AskNothing(s: State, e: Event, id: MsgId)
    requires !Asks(e, id)
    ensures Dispatched(Next(s, e), id) == Dispatched(s, id)
  {
    hide Total;
    match e
    case Arrive(Request(x, _, _)) => TotalAppend(s.dispatched, x, IsId(id));
    case MainStep => AdvanceFrame(s, s.main);
    case WorkerStep(i) => if i < |s.workers| { AdvanceFrame(s, s.workers[i]); }
    case _ =>
  }

  /** The request, with what comes before and after it; nothing else brings the id into use. */
  ghost predicate AskedOnce(before: seq<Event>, id: MsgId, h: Handler, isExit: bool, after: seq<Event>) {
    && id.Given? && !h.Sync? && Run(START, before).main.Idle? && (!Run(START, before).shutdown || isExit)
    && (forall i :: 0 <= i < |before| ==> !Brings(before[i], id))
    && (forall i :: 0 <= i < |after| ==> !Brings(after[i], id))
  }

  function Asking(before: seq<Event>, id: MsgId, h: Handler, isExit: bool, after: seq<Event>): seq<Event> {
    before + [Arrive(Request(id, Some(h), isExit))] + after
  }

  lemma {:induction false} OpenOnce(before: seq<Event>, id: MsgId, h: Handler, isExit: bool, after: seq<Event>)
    requires AskedOnce(before, id, h, isExit, after)
    ensures Open(Run(START, Asking(before, id, h, isExit, after)), id) <= 1
  {
    var e := Arrive(Request(id, Some(h), isExit));
    RunThrough(before, e, after);
    NotDispatched(START, before, id);
    NotDispatched(Next(Run(START, before), e), after, id);
    TotalAppend(Run(START, before).dispatched, id, IsId(id));
    Conservation(Asking(before, id, h, isExit, after), id);
  }

  lemma {:induction false} JustAsked(before: seq<Event>, id: MsgId, h: Handler, isExit: bool)
    requires AskedOnce(before, id, h, isExit, [])
    ensures Asked(Next(Run(START, before), Arrive(Request(id, Some(h), isExit))), id, h)
  {
    RunUnheard(before, id);
    RunTakenBelow(before);
    RunKnown(before);
  }

  /** In every run, after a request that is asked once for a handler that is not synchronous: it is about to be
      executed, or its entry is in the table if and only if no cancel or response took it and its future is
      unfinished or has a callback that has not popped it yet. */
  lemma {:induction false} EntryOfRequest(before: seq<Event>, id: MsgId, h: Handler, isExit: bool, after: seq<Event>)
    requires AskedOnce(before, id, h, isExit, after)
    ensures var n := Run(START, Asking(before, id, h, isExit, after)); Asked(n, id, h) || exists f :: Entered(n, id, f)
    decreases |after|
  {
    var e := Arrive(Request(id, Some(h), isExit));
    RunThrough(before, e, after);
    if after == [] {
      JustAsked(before, id, h, isExit);
    } else {
      var init, last := after[..|after| - 1], after[|after| - 1];
      EntryOfRequest(before, id, h, isExit, init);
      OpenOnce(before, id, h, isExit, init);
      RunThrough(before, e, init);
      RunAlive(Asking(before, id, h, isExit, init), 0);
      RunKnown(Asking(before, id, h, isExit, init));
      hide Asked, Entered, Asking, Brings, Open, AllSane, Next;
      NextEntered(Run(START, Asking(before, id, h, isExit, init)), last, id, h);
    }
  }

  lemma {:induction false} NextEntered(s: State, e: Event, id: MsgId, h: Handler)
    requires id.Given? && !h.Sync? && !Brings(e, id) && AllSane(s) && Known(s) && Open(s, id) <= 1
    requires Asked(s, id, h) || exists f :: Entered(s, id, f)
    ensures Asked(Next(s, e), id, h) || exists f :: Entered(Next(s, e), id, f)
  {
    hide Entered, Asked;
    if Asked(s, id, h) {
      if e.MainStep? {
        ExecuteEntered(s, id, h);
      } else {
        AskedStays(s, e, id, h);
      }
    } else {
      var f :| Entered(s, id, f);
      match e
      case MainStep => MainEntered(s, id, f);
      case WorkerStep(i) => if i < |s.workers| { WorkerEntered(s, i, id, f); } else { NoWorker(s, i); }
      case _ => OutsideEntered(s, e, id, f);
    }
  }

  /* Cancelling */

  /** Until the reading thread takes its step, what it is about to do stays. */
  lemma {:induction false} MainWaits(s: State, events: seq<Event>)
    requires !s.main.Idle? && forall i :: 0 <= i < |events| ==> !events[i].MainStep?
    ensures Run(s, events).main == s.main
  {
    if events != [] {
      var before, e := events[..|events| - 1], events[|events| - 1];
      MainWaits(s, before);
      if e.WorkerStep? && e.i < |Run(s, before).workers| {
        AdvanceFrame(Run(s, before), Run(s, before).workers[e.i]);
      }
    }
  }

  /** A cancel notification finds the request as long as its future is unfinished and nothing took it before. */
  lemma {:induction false} CancelFinds(before: seq<Event>, id: MsgId, h: Handler, isExit: bool, mid: seq<Event>, f: nat)
    requires AskedOnce(before, id, h, isExit, mid)
    requires var s := Run(START, Asking(before, id, h, isExit, mid));
             && s.main.Idle? && !s.shutdown && f < |s.futures| && Replies(s.futures[f].callback, id)
             && !s.futures[f].status.Done? && f !in s.taken
    ensures var s := Run(START, Asking(before, id, h, isExit, mid));
            id in s.table && s.table[id] == f && Receive(s, Cancel(id)).main == CancelFuture(f)
  {
    EntryOfRequest(before, id, h, isExit, mid);
  }

  /** From the notification to the answer: a request that is asked once, has not started when the reading thread
      comes to cancel it, and whose entry was not taken before, has been told that it was cancelled once all is at
      rest, whatever other threads do in between. */
  lemma {:induction false} CancelTold(before: seq<Event>, id: MsgId, h: Handler, isExit: bool, mid: seq<Event>, f: nat,
                                      between: seq<Event>, after: seq<Event>)
    requires AskedOnce(before, id, h, isExit, mid) && forall i :: 0 <= i < |between| ==> !between[i].MainStep?
    requires var s := Run(START, Asking(before, id, h, isExit, mid));
             && s.main.Idle? && !s.shutdown && f < |s.futures| && Replies(s.futures[f].callback, id)
             && !s.futures[f].status.Done? && f !in s.taken
    requires var c := Run(START, Asking(before, id, h, isExit, mid) + [Arrive(Cancel(id))] + between);
             f < |c.futures| && c.futures[f].status.Pending? && !c.futures[f].kind.Task? && Replies(c.futures[f].callback, id)
    requires Quiet(Run(START, Asking(before, id, h, isExit, mid) + [Arrive(Cancel(id))] + between + [MainStep] + after))
    ensures Answer(id, ErrorBody(-32800))
         in Run(START, Asking(before, id, h, isExit, mid) + [Arrive(Cancel(id))] + between + [MainStep] + after).written
  {
    var first := Asking(before, id, h, isExit, mid);
    CancelFinds(before, id, h, isExit, mid, f);
    RunThrough(first, Arrive(Cancel(id)), between);
    hide Quiet, Asking, Receive, AskedOnce, Replies, Run;
    assert Next(Run(START, first), Arrive(Cancel(id))).main == CancelFuture(f);
    MainWaits(Next(Run(START, first), Arrive(Cancel(id))), between);
    CancellationTold(first + [Arrive(Cancel(id))] + between, after, f, id);
  }
}
