/** How requests end, over every run: each future's end is reported once, and what is never answered is known. */
module Completion {
  import opened Totals
  import opened Requests
  import opened RequestRuns

  /* Every end is reported */

  /** The thread that holds `t` will report the end of future `f` as that of request `id`. */
  ghost predicate Reporting(t: Token, f: nat, id: MsgId, end: End) {
    t == RunCallback(f, Reply(id)) || (t == Respond(id, end) && end != Ended(RaisedBase))
  }

  /** The report has been made: an answer saying how the future ended, or a log entry saying why there is none. */
  ghost predicate Told(s: State, id: MsgId, end: End) {
    match end
    case Ended(Returned(v)) =>
      if v.Value? && !v.serialisable then id in s.discarded else Answer(id, ResultBody(v)) in s.written
    case Ended(RaisedRpc(code, serialisable)) =>
      if serialisable then Answer(id, ErrorBody(code)) in s.written else id in s.discarded
    case Ended(Raised) => Answer(id, ErrorBody(-32603)) in s.written
    case Ended(RaisedBase) => id in s.silenced
    case Cancelled => Answer(id, ErrorBody(-32800)) in s.written
  }

  ghost predicate Reported(s: State, f: nat) {
    f < |s.futures| && s.futures[f].status.Done? && s.futures[f].callback.Reply? ==>
      var id, end := s.futures[f].callback.id, s.futures[f].status.end;
      || Told(s, id, end)
      || Reporting(s.main, f, id, end)
      || exists i :: 0 <= i < |s.workers| && Reporting(s.workers[i], f, id, end)
  }

  /** A step ends no future without taking its callback along, and forgets no report it holds. */
  lemma {:induction false} AdvanceReports(s: State, t: Token, f: nat)
    requires Sane(s, t)
    ensures var (s', t') := Advance(s, t);
            f < |s'.futures| && s'.futures[f].status.Done? && s'.futures[f].callback.Reply? ==>
              var id, end := s'.futures[f].callback.id, s'.futures[f].status.end;
              || Reporting(t', f, id, end) || Told(s', id, end)
              || (f < |s.futures| && s.futures[f] == s'.futures[f] && !Reporting(t, f, id, end))
  {}

  lemma {:induction false} AdvanceTold(s: State, t: Token, id: MsgId, end: End)
    requires Told(s, id, end)
    ensures var (s', _) := Advance(s, t); Told(s', id, end)
  {}

  lemma {:induction false} MainReported(s: State, f: nat)
    requires AllSane(s) && Reported(s, f)
    ensures Reported(Next(s, MainStep), f)
  {
    hide Advance;
    var (s', t') := Advance(s, s.main);
    AdvanceFrame(s, s.main);
    AdvanceReports(s, s.main, f);
    assert Next(s, MainStep) == s'.(main := t');
    assert forall id, end :: Told(Next(s, MainStep), id, end) <==> Told(s', id, end);
    hide Told;
    if f < |s.futures| && s.futures[f] == s'.futures[f] && s.futures[f].status.Done? && s.futures[f].callback.Reply? {
      var id, end := s.futures[f].callback.id, s.futures[f].status.end;
      if Told(s, id, end) {
        AdvanceTold(s, s.main, id, end);
      } else if i :| 0 <= i < |s.workers| && Reporting(s.workers[i], f, id, end) {
        assert Reporting(Next(s, MainStep).workers[i], f, id, end);
      }
    }
  }

  lemma {:induction false} WorkerReported(s: State, i: nat, f: nat)
    requires AllSane(s) && Reported(s, f) && i < |s.workers|
    ensures Reported(Next(s, WorkerStep(i)), f)
  {
    hide Advance;
    var n := Next(s, WorkerStep(i));
    var (s', t') := Advance(s, s.workers[i]);
    AdvanceFrame(s, s.workers[i]);
    AdvanceReports(s, s.workers[i], f);
    assert n.workers[i] == t';
    assert forall id, end :: Told(n, id, end) <==> Told(s', id, end);
    hide Told;
    if f < |s.futures| && s.futures[f] == s'.futures[f] && s.futures[f].status.Done? && s.futures[f].callback.Reply? {
      var id, end := s.futures[f].callback.id, s.futures[f].status.end;
      if Told(s, id, end) {
        AdvanceTold(s, s.workers[i], id, end);
      } else if j :| 0 <= j < |s.workers| && Reporting(s.workers[j], f, id, end) {
        assert j != i ==> Reporting(n.workers[j], f, id, end);
      }
    }
  }

  lemma {:induction false} OutsideReported(s: State, e: Event, f: nat)
    requires Reported(s, f) && !e.MainStep? && !e.WorkerStep?
    ensures Reported(Next(s, e), f)
  {
    hide Receive, Told;
    match e
    case Arrive(msg) => if s.main.Idle? { ReceiveReported(s, msg, f); }
    case FinishFuture(g, end) => if CanFinish(s, g, end) { FinishReported(s, g, end, f); }
    case StartPooled(g) => PlacesReported(s, Next(s, e), f);
    case SendRequest(_) => PlacesReported(s, Next(s, e), f);
    case SetShutdown => PlacesReported(s, Next(s, e), f);
    case MainStep =>
    case WorkerStep(_) =>
  }

  /** Nothing written or logged, no thread moved, and no future ended. */
  lemma {:induction false} PlacesReported(s: State, n: State, f: nat)
    requires Reported(s, f) && n.workers == s.workers && (n.main == s.main || s.main.Idle?)
    requires n.written == s.written && n.discarded == s.discarded && n.silenced == s.silenced
    requires f < |n.futures| && n.futures[f].status.Done? ==> f < |s.futures| && n.futures[f] == s.futures[f]
    ensures Reported(n, f)
  {}

  lemma {:induction false} ReceiveReported(s: State, msg: Message, f: nat)
    requires Reported(s, f) && s.main.Idle?
    ensures Reported(Receive(s, msg), f)
  {
    var n := Receive(s, msg);
    assert n.workers == s.workers && n.futures == s.futures;
    assert n.written == s.written && n.discarded == s.discarded && n.silenced == s.silenced;
    hide Receive;
    PlacesReported(s, n, f);
  }

  lemma {:induction false} FinishReported(s: State, g: nat, end: End, f: nat)
    requires Reported(s, f) && CanFinish(s, g, end)
    ensures Reported(Next(s, FinishFuture(g, end)), f)
  {
    var n := Next(s, FinishFuture(g, end));
    assert n.workers == s.workers + [RunCallback(g, s.futures[g].callback)];
    assert n.main == s.main && n.written == s.written && n.discarded == s.discarded && n.silenced == s.silenced;
    hide Told;
    if f < |n.futures| && n.futures[f].status.Done? && n.futures[f].callback.Reply? {
      var id, end' := n.futures[f].callback.id, n.futures[f].status.end;
      if f == g {
        assert Reporting(n.workers[|s.workers|], f, id, end');
      } else {
        assert Told(n, id, end') <==> Told(s, id, end') by { SameLogs(s, n, id, end'); }
        if i :| 0 <= i < |s.workers| && Reporting(s.workers[i], f, id, end') {
          assert Reporting(n.workers[i], f, id, end');
        }
      }
    }
  }

  lemma {:induction false} SameLogs(s: State, n: State, id: MsgId, end: End)
    requires n.written == s.written && n.discarded == s.discarded && n.silenced == s.silenced
    ensures Told(n, id, end) <==> Told(s, id, end)
  {}

  /** In every run, each future that has ended and answers a request has been reported, or is about to be. */
  lemma {:induction false} EveryEndReported(events: seq<Event>, f: nat)
    ensures Reported(Run(START, events), f)
  {
    if events != [] {
      var before, e := events[..|events| - 1], events[|events| - 1];
      EveryEndReported(before, f);
      RunAlive(before, 0);
      var s := Run(START, before);
      match e {
        case MainStep => MainReported(s, f);
        case WorkerStep(i) => if i < |s.workers| { WorkerReported(s, i, f); }
        case _ => OutsideReported(s, e, f);
      }
    }
  }

  /** At rest, every such future has been reported. */
  lemma {:induction false} EndsTold(events: seq<Event>, f: nat)
    requires var s := Run(START, events); Quiet(s) && f < |s.futures| && s.futures[f].status.Done? && s.futures[f].callback.Reply?
    ensures var s := Run(START, events); Told(s, s.futures[f].callback.id, s.futures[f].status.end)
  {
    EveryEndReported(events, f);
  }

  /** What ended once has ended that way for good. */
  lemma {:induction false} EndsStay(s: State, events: seq<Event>, f: nat)
    requires f < |s.futures| && s.futures[f].status.Done?
    ensures f < |Run(s, events).futures| && Run(s, events).futures[f] == s.futures[f]
  {
    if events != [] {
      var before, e := events[..|events| - 1], events[|events| - 1];
      EndsStay(s, before, f);
      NextEndsStay(Run(s, before), e, f);
    }
  }

  lemma {:induction false} NextEndsStay(s: State, e: Event, f: nat)
    requires f < |s.futures| && s.futures[f].status.Done?
    ensures f < |Next(s, e).futures| && Next(s, e).futures[f] == s.futures[f]
  {
    match e
    case MainStep =>
      AdvanceFrame(s, s.main);
      DoneStays(s, s.main);
    case WorkerStep(i) =>
      if i < |s.workers| {
        AdvanceFrame(s, s.workers[i]);
        DoneStays(s, s.workers[i]);
      }
    case _ =>
  }

  lemma {:induction false} RunPrefix(events: seq<Event>, n: nat)
    requires n < |events|
    ensures Run(START, events[..n + 1]) == Next(Run(START, events[..n]), events[n])
  {
    assert events[..n + 1][..n] == events[..n];
  }

  lemma {:induction false} RunAppend(s: State, a: seq<Event>, b: seq<Event>)
    ensures Run(s, a + b) == Run(Run(s, a), b)
  {
    if b == [] {
      assert a + b == a;
    } else {
      assert (a + b)[..|a + b| - 1] == a + b[..|b| - 1];
      RunAppend(s, a, b[..|b| - 1]);
    }
  }

  /** A cancelled request is told so, whatever happens in between: if the reading thread gets to cancel a future
      that has not started, then whenever all has come to rest later on, the cancelled error has been written. */
  lemma {:induction false} CancellationTold(before: seq<Event>, after: seq<Event>, f: nat, id: MsgId)
    requires var s := Run(START, before);
             && s.main == CancelFuture(f) && f < |s.futures|
             && s.futures[f].status.Pending? && !s.futures[f].kind.Task? && Replies(s.futures[f].callback, id)
    requires Quiet(Run(START, before + [MainStep] + after))
    ensures Answer(id, ErrorBody(-32800)) in Run(START, before + [MainStep] + after).written
  {
    hide Quiet, Told;
    var s, s1 := Run(START, before), Run(START, before + [MainStep]);
    assert (before + [MainStep])[..|before|] == before;
    assert s1.futures[f] == s.futures[f].(status := Done(Cancelled));
    RunAppend(START, before + [MainStep], after);
    EndsStay(s1, after, f);
    EndsTold(before + [MainStep] + after, f);
    assert Told(Run(START, before + [MainStep] + after), id, Cancelled);
    CancelledTold(Run(START, before + [MainStep] + after), id);
  }

  lemma {:induction false} CancelledTold(s: State, id: MsgId)
    requires Told(s, id, Cancelled)
    ensures Answer(id, ErrorBody(-32800)) in s.written
  {}

  /* What is never answered */

  /** Whoever is silenced has a future that ended with a `BaseException`. */
  ghost predicate SilencedByFuture(s: State, id: MsgId) {
    id in s.silenced ==>
      exists f :: 0 <= f < |s.futures| && Replies(s.futures[f].callback, id) && s.futures[f].status == Done(Ended(RaisedBase))
  }

  lemma {:induction false} SilencedStays(s: State, n: State, id: MsgId)
    requires SilencedByFuture(s, id) && |s.futures| <= |n.futures|
    requires forall g :: 0 <= g < |s.futures| && s.futures[g].status.Done? ==> n.futures[g] == s.futures[g]
    requires id in n.silenced ==> id in s.silenced
    ensures SilencedByFuture(n, id)
  {
    if id in n.silenced {
      var f :| 0 <= f < |s.futures| && Replies(s.futures[f].callback, id) && s.futures[f].status == Done(Ended(RaisedBase));
      assert n.futures[f] == s.futures[f];
    }
  }

  lemma {:induction false} AdvanceSilenced(s: State, t: Token, id: MsgId)
    requires Sane(s, t) && SilencedByFuture(s, id)
    ensures var (s', _) := Advance(s, t); SilencedByFuture(s', id)
  {
    var (s', _) := Advance(s, t);
    DoneStays(s, t);
    AdvanceFrame(s, t);
    if id in s'.silenced && id !in s.silenced {
      assert t.RunCallback? && Replies(s.futures[t.future].callback, id);
      assert s'.futures[t.future] == s.futures[t.future];
    } else {
      SilencedStays(s, s', id);
    }
  }

  lemma {:induction false} RunSilenced(events: seq<Event>, id: MsgId)
    ensures SilencedByFuture(Run(START, events), id)
  {
    if events != [] {
      var before, e := events[..|events| - 1], events[|events| - 1];
      RunSilenced(before, id);
      RunAlive(before, 0);
      var s := Run(START, before);
      match e {
        case MainStep => AdvanceSilenced(s, s.main, id);
        case WorkerStep(i) => if i < |s.workers| { AdvanceSilenced(s, s.workers[i], id); }
        case _ => OutsideSilenced(s, e, id);
      }
    }
  }

  lemma {:induction false} OutsideSilenced(s: State, e: Event, id: MsgId)
    requires SilencedByFuture(s, id) && !e.MainStep? && !e.WorkerStep?
    ensures SilencedByFuture(Next(s, e), id)
  {
    SilencedStays(s, Next(s, e), id);
  }

  /** No answer will come from this future: it ended with a `BaseException`, or it is stuck. */
  ghost predicate Unanswerable(s: State, f: nat) {
    f < |s.futures| && (s.futures[f].status == Done(Ended(RaisedBase)) || Stuck(s, f))
  }

  /** Once everything has come to rest, a request has been answered exactly as often as it was dispatched, up to
      responses that could not be serialised, if and only if none of its futures is unanswerable. */
  lemma {:induction false} EveryRequestAnswered(events: seq<Event>, id: MsgId)
    requires Quiet(Run(START, events))
    ensures var s := Run(START, events);
            Answered(s, id) + Discarded(s, id) == Dispatched(s, id)
            <==> forall f :: 0 <= f < |s.futures| && Replies(s.futures[f].callback, id) ==> !Unanswerable(s, f)
  {
    var s := Run(START, events);
    forall g ensures Alive(s, g) {
      RunAlive(events, g);
    }
    RunAlive(events, 0);
    RunGuarded(events);
    QuietOpen(s, id);
    Conservation(events, id);
    SilencedCount(events, id);
    hide Quiet, Total, Stuck, Run;
  }

  /** At rest, a request is silenced exactly if one of its futures ended with a `BaseException`. */
  lemma {:induction false} SilencedCount(events: seq<Event>, id: MsgId)
    requires Quiet(Run(START, events))
    ensures var s := Run(START, events);
            Silenced(s, id) > 0 <==>
            exists f :: 0 <= f < |s.futures| && Replies(s.futures[f].callback, id) && s.futures[f].status == Done(Ended(RaisedBase))
  {
    var s := Run(START, events);
    RunSilenced(events, id);
    if Silenced(s, id) > 0 {
      var k := TotalWitness(s.silenced, IsId(id));
      assert id == s.silenced[k];
    }
    if f :| 0 <= f < |s.futures| && Replies(s.futures[f].callback, id) && s.futures[f].status == Done(Ended(RaisedBase)) {
      EndsTold(events, f);
      var k :| 0 <= k < |s.silenced| && s.silenced[k] == id;
      TotalAtLeast(s.silenced, k, IsId(id));
    }
  }
}
