/** `JsonRPCProtocol` as an object that does the machine's steps in place. Its history is a run of the machine, so
    what holds of all runs holds of the object. */
module JsonRpcProtocol {
  import opened Requests
  import opened RequestRuns
  import opened Completion
  import opened Answers
  import opened Outbound
  import opened Wrappers

  function MainSteps(n: nat): seq<Event> {
    seq(n, _ => MainStep)
  }

  function WorkerSteps(i: nat, n: nat): seq<Event> {
    seq(n, _ => WorkerStep(i))
  }

  class JsonRpcProtocol {
    var requestFutures: map<MsgId, nat>
    var shutdown: bool
    var written: seq<Answer>

    // The futures that exist, what each thread is about to do, and the ids handed out.
    var futures: seq<Fut>
    var main: Token
    var workers: seq<Token>
    var uuids: nat

    // Logs.
    var dispatched: seq<MsgId>
    var unknown: seq<MsgId>
    var discarded: seq<MsgId>
    var silenced: seq<MsgId>
    var unwound: set<nat>
    var handlers: map<nat, Handler>
    var taken: set<nat>

    /** What has happened so far. */
    ghost var events: seq<Event>

    function Snapshot(): State
      reads this
    {
      State(futures, requestFutures, main, workers, written, shutdown, uuids, dispatched, unknown, discarded, silenced, unwound,
            handlers, taken)
    }

    ghost predicate Valid()
      reads this
    {
      Snapshot() == Run(START, events)
    }

    constructor ()
      ensures Valid() && events == []
    {
      requestFutures, shutdown, written := map[], false, [];
      futures, main, workers, uuids := [], Idle, [], 0;
      dispatched, unknown, discarded, silenced, unwound, handlers, taken := [], [], [], [], {}, map[], {};
      events := [];
    }

    /** In the object as in any run: each request is answered once, discarded, silenced or open. */
    lemma {:induction false} LedgerBalances(id: MsgId)
      requires Valid()
      ensures Balanced(Snapshot(), id) && Answered(Snapshot(), id) <= Dispatched(Snapshot(), id)
    {
      Conservation(events, id);
    }

    function FutureAt(f: nat): Fut
      reads this
    {
      At(Snapshot(), f)
    }

    method Uuid4() returns (id: MsgId)
      modifies this`uuids
      ensures id == Uuid(old(uuids)) && uuids == old(uuids) + 1
    {
      id := Uuid(uuids);
      uuids := uuids + 1;
    }

    method NewFuture(kind: Kind, status: Status, callback: Callback) returns (f: nat)
      modifies this`futures
      ensures f == |old(futures)| && futures == old(futures) + [Fut(kind, status, callback)]
    {
      f := |futures|;
      futures := futures + [Fut(kind, status, callback)];
    }

    method EndFuture(f: nat, status: Status)
      modifies this`futures
      ensures Snapshot() == SetStatus(old(Snapshot()), f, status)
    {
      if f < |futures| {
        futures := futures[f := futures[f].(status := status)];
      }
    }

    method ExecuteHandler(id: MsgId, handler: Handler, callback: Callback) returns (next: Token)
      modifies this`futures, this`requestFutures, this`unwound, this`handlers
      ensures (Snapshot(), next) == ExecuteStep(old(Snapshot()), id, handler, callback)
    {
      next := Idle;
      handlers := handlers[|futures| := handler];
      match handler
      case Coroutine =>
        var f := NewFuture(Task, Pending, callback);
        requestFutures := requestFutures[id := f];
      case Threaded =>
        var f := NewFuture(Pooled, Pending, callback);
        requestFutures := requestFutures[id := f];
      case Generator(gen) =>
        var f := NewFuture(Result, Pending, callback);
        requestFutures := requestFutures[id := f];
        next := Token.RunGenerator(None, gen, f);
      case Sync(RaisedBase) =>
        var f := NewFuture(Result, Pending, callback);
        unwound := unwound + {f};
      case Sync(outcome) =>
        var f := NewFuture(Result, Done(Ended(outcome)), callback);
        next := RunCallback(f, callback);
    }

    method RunGenerator(from: Option<nat>, gen: Gen, target: nat) returns (next: Token)
      ensures (Snapshot(), next) == Advance(old(Snapshot()), Token.RunGenerator(from, gen, target))
    {
      var u := FutureAt(target);
      var cancelled := u.status.Done? && u.status.end.Cancelled?;
      next := if cancelled then Idle else Send(from, gen, target);
    }

    method ResumeGenerator(from: Option<nat>, gen: Gen, target: nat) returns (next: Token)
      modifies this`uuids, this`unwound
      ensures (Snapshot(), next) == SendStep(old(Snapshot()), from, gen, target)
    {
      var value := Null;
      if from.Some? {
        var u := FutureAt(from.value);
        if !u.status.Done? {
          return Idle;
        }
        if u.status.end.Cancelled? {
          return if u.kind.Task? then Idle else Settle(target, Raised, false);
        }
        if u.status.end.outcome.RaisedBase? {
          return Idle;
        }
        if !u.status.end.outcome.Returned? {
          return Settle(target, u.status.end.outcome, false);
        }
        value := u.status.end.outcome.value;
      }
      match gen.resume(value)
      case Finish(RaisedBase) =>
        unwound := unwound + {target};
        next := Idle;
      case Finish(outcome) => next := Settle(target, outcome, from.None?);
      case Yield(handler, rest) =>
        var id := Uuid4();
        next := Execute(id, handler, Continue(rest, target));
    }

    method SettleFuture(target: nat, outcome: Outcome, first: bool) returns (next: Token)
      modifies this`futures
      ensures (Snapshot(), next) == SettleStep(old(Snapshot()), target, outcome, first)
    {
      var u := FutureAt(target);
      if !u.status.Done? {
        EndFuture(target, Done(Ended(outcome)));
        next := RunCallback(target, u.callback);
      } else {
        next := Idle;
        if first {
          match u.callback
          case Reply(id) => next := Respond(id, Ended(Raised));
          case Continue(_, outer) => next := Settle(outer, Raised, false);
          case _ =>
        }
      }
    }

    method SendHandlerResult(f: nat, id: MsgId) returns (next: Token)
      modifies this`requestFutures, this`silenced
      ensures (Snapshot(), next) == CallbackStep(old(Snapshot()), f, Reply(id))
    {
      requestFutures := requestFutures - {id};
      var u := FutureAt(f);
      var end := if u.status.Done? then u.status.end else Ended(Raised);
      if end == Ended(RaisedBase) {
        silenced := silenced + [id];
        next := Idle;
      } else {
        next := Respond(id, end);
      }
    }

    method SendResponse(id: MsgId, end: End)
      modifies this`written, this`discarded
      ensures Snapshot() == WriteResponse(old(Snapshot()), id, end)
    {
      if Serialisable(end) {
        written := written + [Answer(id, BodyOf(end))];
      } else {
        discarded := discarded + [id];
      }
    }

    /** `future.cancel()` with a new end, or `set_result`, from outside the handler. */
    method FinishFromOutside(f: nat, end: End, pendingOnly: bool) returns (next: Token)
      modifies this`futures
      ensures pendingOnly && end.Cancelled? ==> (Snapshot(), next) == Advance(old(Snapshot()), CancelFuture(f))
      ensures !pendingOnly && end.Ended? ==> (Snapshot(), next) == Advance(old(Snapshot()), SetFuture(f, end.outcome))
    {
      var u := FutureAt(f);
      if !u.kind.Task? && (u.status.Pending? || (u.status.Running? && !pendingOnly)) {
        EndFuture(f, Done(end));
        next := RunCallback(f, u.callback);
      } else {
        next := Idle;
      }
    }

    /** One atomic step of a thread that is about to do `t`. */
    method Perform(t: Token) returns (next: Token)
      modifies this`futures, this`requestFutures, this`uuids, this`written, this`discarded, this`silenced, this`unwound, this`handlers
      ensures (Snapshot(), next) == Advance(old(Snapshot()), t)
    {
      next := Idle;
      match t
      case Idle =>
      case Execute(id, handler, callback) => next := ExecuteHandler(id, handler, callback);
      case RunGenerator(from, gen, target) => next := RunGenerator(from, gen, target);
      case Send(from, gen, target) => next := ResumeGenerator(from, gen, target);
      case Settle(target, outcome, first) => next := SettleFuture(target, outcome, first);
      case RunCallback(f, Reply(id)) => next := SendHandlerResult(f, id);
      case RunCallback(f, Continue(gen, target)) => next := Token.RunGenerator(Some(f), gen, target);
      case RunCallback(_, _) =>
      case Respond(id, end) => SendResponse(id, end);
      case CancelFuture(f) => next := FinishFromOutside(f, Cancelled, true);
      case SetFuture(f, outcome) => next := FinishFromOutside(f, Ended(outcome), false);
    }

    method HandleRequest(id: MsgId, handler: Option<Handler>)
      requires main.Idle?
      modifies this`main, this`dispatched, this`unknown
      ensures Snapshot() == if handler.Some?
                            then old(Snapshot()).(dispatched := dispatched, main := Execute(id, handler.value, Reply(id)))
                            else old(Snapshot()).(dispatched := dispatched, unknown := unknown, main := Respond(id, UNKNOWN_METHOD))
      ensures dispatched == old(dispatched) + [id]
      ensures unknown == old(unknown) + if handler.None? then [id] else []
    {
      dispatched := dispatched + [id];
      match handler
      case Some(h) => main := Execute(id, h, Reply(id));
      case None =>
        unknown := unknown + [id];
        main := Respond(id, UNKNOWN_METHOD);
    }

    method Pop(id: MsgId) returns (f: nat)
      requires id in requestFutures
      modifies this`requestFutures, this`taken
      ensures f == old(requestFutures)[id] && Snapshot() == Take(old(Snapshot()), id)
    {
      f := requestFutures[id];
      requestFutures := requestFutures - {id};
      taken := taken + {f};
    }

    /** Up to the first step of what the message asks for. */
    method ReadMessage(msg: Message)
      requires Valid() && main.Idle?
      modifies this`main, this`dispatched, this`unknown, this`requestFutures, this`uuids, this`taken, this`events
      ensures Valid() && events == old(events) + [Arrive(msg)]
    {
      hide Run;
      RunNext(START, events, Arrive(msg));
      events := events + [Arrive(msg)];
      var isExit := (msg.Request? || msg.Notification?) && msg.isExit;
      if shutdown && !isExit {
        return;
      }
      match msg
      case Request(id, handler, _) => HandleRequest(id, handler);
      case Notification(handler, _) =>
        if handler.Some? {
          var id := Uuid4();
          main := Execute(id, handler.value, Check);
        }
      case Cancel(id) =>
        if id in requestFutures {
          var f := Pop(id);
          main := CancelFuture(f);
        }
      case Response(id, outcome) =>
        if id in requestFutures {
          var f := Pop(id);
          main := SetFuture(f, outcome);
        }
    }

    /** A message is read and dealt with, to the end of all callbacks that run in the reading thread, if `fuel`
        steps are enough for them. */
    method HandleMessage(msg: Message, fuel: nat) returns (rested: bool)
      requires Valid() && main.Idle?
      modifies this
      ensures Valid() && (rested ==> main.Idle?)
      ensures exists n :: events == old(events) + [Arrive(msg)] + MainSteps(n)
      ensures rested && !old(shutdown) && msg.Request? && !msg.isExit && msg.handler.Some? && msg.handler.value.Sync?
              && msg.handler.value.outcome != RaisedBase ==>
                Told(Snapshot(), msg.id, Ended(msg.handler.value.outcome))
    {
      ghost var before, s := events, Snapshot();
      ReadMessage(msg);
      var n := 0;
      assert events == before + [Arrive(msg)] + MainSteps(0);
      while !main.Idle? && n < fuel
        invariant Valid() && events == before + [Arrive(msg)] + MainSteps(n)
      {
        StepMain();
        assert MainSteps(n) + [MainStep] == MainSteps(n + 1);
        assert (before + [Arrive(msg)] + MainSteps(n)) + [MainStep] == before + [Arrive(msg)] + MainSteps(n + 1);
        n := n + 1;
      }
      rested := main.Idle?;
      RunThrough(before, Arrive(msg), MainSteps(n));
      if rested && !s.shutdown && msg.Request? && !msg.isExit && msg.handler.Some? && msg.handler.value.Sync?
         && msg.handler.value.outcome != RaisedBase {
        SyncTold(s, MainSteps(n), msg.id, msg.handler.value.outcome);
      }
    }

    method SendRequest(msgId: Option<MsgId>)
      requires Valid()
      modifies this`futures, this`requestFutures, this`uuids, this`events
      ensures Valid() && events == old(events) + [Event.SendRequest(msgId)]
    {
      hide Run;
      RunNext(START, events, Event.SendRequest(msgId));
      events := events + [Event.SendRequest(msgId)];
      var id: MsgId;
      if msgId.Some? {
        id := msgId.value;
      } else {
        id := Uuid4();
      }
      var f := NewFuture(Outbound, Pending, User);
      requestFutures := requestFutures[id := f];
    }

    /** The reading thread goes on. */
    method StepMain()
      requires Valid()
      modifies this
      ensures Valid() && events == old(events) + [MainStep]
    {
      hide Run;
      RunNext(START, events, MainStep);
      events := events + [MainStep];
      main := Perform(main);
    }

    /** Another thread goes on. */
    method StepWorker(i: nat)
      requires Valid() && i < |workers|
      modifies this
      ensures Valid() && events == old(events) + [WorkerStep(i)] && |workers| == |old(workers)|
    {
      hide Run;
      RunNext(START, events, WorkerStep(i));
      events := events + [WorkerStep(i)];
      var next := Perform(workers[i]);
      workers := workers[i := next];
    }

    /** The pool picks up a handler. */
    method StartHandler(f: nat)
      requires Valid()
      modifies this
      ensures Valid() && events == old(events) + [StartPooled(f)]
    {
      hide Run;
      RunNext(START, events, StartPooled(f));
      events := events + [StartPooled(f)];
      var u := FutureAt(f);
      if u.kind.Pooled? && u.status.Pending? {
        EndFuture(f, Running);
      }
    }

    /** The pool or the event loop ends a handler, and its callback runs in that thread, to the end if `fuel` steps
        are enough. */
    method FinishHandler(f: nat, end: End, fuel: nat) returns (rested: bool)
      requires Valid() && CanFinish(Snapshot(), f, end)
      modifies this
      ensures Valid() && |workers| == |old(workers)| + 1 && (rested ==> workers[|old(workers)|].Idle?)
      ensures exists n :: events == old(events) + [FinishFuture(f, end)] + WorkerSteps(|old(workers)|, n)
    {
      ghost var before := events;
      var i := |workers|;
      RunNext(START, events, FinishFuture(f, end));
      events := events + [FinishFuture(f, end)];
      var u := FutureAt(f);
      EndFuture(f, Done(end));
      workers := workers + [RunCallback(f, u.callback)];
      var n := 0;
      hide Run;
      assert events == before + [FinishFuture(f, end)] + WorkerSteps(i, 0);
      while !workers[i].Idle? && n < fuel
        invariant Valid() && |workers| == i + 1 && events == before + [FinishFuture(f, end)] + WorkerSteps(i, n)
      {
        StepWorker(i);
        assert WorkerSteps(i, n) + [WorkerStep(i)] == WorkerSteps(i, n + 1);
        assert (before + [FinishFuture(f, end)] + WorkerSteps(i, n)) + [WorkerStep(i)]
            == before + [FinishFuture(f, end)] + WorkerSteps(i, n + 1);
        n := n + 1;
      }
      rested := workers[i].Idle?;
    }

    method Shutdown()
      requires Valid()
      modifies this
      ensures Valid() && events == old(events) + [SetShutdown]
    {
      hide Run;
      RunNext(START, events, SetShutdown);
      events := events + [SetShutdown];
      shutdown := true;
    }
  }
}
