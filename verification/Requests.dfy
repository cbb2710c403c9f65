/** The life of JSON-RPC requests: messages, handlers, futures and their callbacks, as atomic steps of
    the thread that reads messages and of the threads that complete futures. */
module Requests {
  import opened Wrappers

  /** Ids chosen by a peer or by the caller of `send_request`, and ids made by `uuid4`. */
  datatype MsgId = Given(id: int) | Uuid(n: nat)

  datatype Value = Null | Value(token: int, serialisable: bool)

  /** How a handler ends: with a value, with a `JsonRpcException`, which carries data of its own, with another
      `Exception`, or with a `BaseException` that is none, such as `SystemExit`. */
  datatype Outcome = Returned(value: Value) | RaisedRpc(code: int, serialisable: bool) | Raised | RaisedBase

  /** What a peer can respond. */
  type PeerOutcome = o: Outcome | o.Returned? || o.RaisedRpc? witness Returned(Null)

  /** How a future ends. */
  datatype End = Ended(outcome: Outcome) | Cancelled

  /** What a generator does next: stop, or hand over to another handler and wait for its result. */
  datatype Action = Finish(outcome: Outcome) | Yield(handler: Handler, rest: Gen)

  datatype Gen = Gen(resume: Value -> Action)

  datatype Handler = Sync(outcome: Outcome) | Threaded | Coroutine | Generator(gen: Gen)

  /** A future's done-callback: `_send_handler_result`, `_check_handler_result`, `_run_generator`, or
      one that touches nothing modelled here. */
  datatype Callback = Reply(id: MsgId) | Check | Continue(gen: Gen, target: nat) | User

  datatype Kind = Pooled | Task | Result | Outbound

  datatype Status = Pending | Running | Done(end: End)

  datatype Fut = Fut(kind: Kind, status: Status, callback: Callback)

  /** What a thread is about to do. `from` is the future whose result a generator waits for. */
  datatype Token =
    | Idle
    | Execute(id: MsgId, handler: Handler, callback: Callback)
    | RunGenerator(from: Option<nat>, gen: Gen, target: nat)
    | Send(from: Option<nat>, gen: Gen, target: nat)
    | Settle(target: nat, outcome: Outcome, first: bool)
    | RunCallback(future: nat, callback: Callback)
    | Respond(id: MsgId, end: End)
    | CancelFuture(future: nat)
    | SetFuture(future: nat, outcome: Outcome)

  datatype Message =
    | Request(id: MsgId, handler: Option<Handler>, isExit: bool)
    | Notification(handler: Option<Handler>, isExit: bool)
    | Cancel(id: MsgId)
    | Response(id: MsgId, outcome: PeerOutcome)

  datatype Answer = Answer(id: MsgId, body: Body)

  datatype Body = ResultBody(value: Value) | ErrorBody(code: int)

  /** The last fields are logs: requests dispatched; among them those without a handler; responses that could
      not be serialised; requests whose callback was stopped by a `BaseException`; the futures that the same
      kind of exception kept from being settled; the handler that each future was made for; and the futures
      whose entry a cancel notification or a response took. */
  datatype State = State(
    futures: seq<Fut>,
    table: map<MsgId, nat>,
    main: Token,
    workers: seq<Token>,
    written: seq<Answer>,
    shutdown: bool,
    uuids: nat,
    dispatched: seq<MsgId>,
    unknown: seq<MsgId>,
    discarded: seq<MsgId>,
    silenced: seq<MsgId>,
    unwound: set<nat>,
    handlers: map<nat, Handler>,
    taken: set<nat>)

  const INTERNAL_ERROR := -32603
  const METHOD_NOT_FOUND := -32601
  const REQUEST_CANCELLED := -32800

  const START := State([], map[], Idle, [], [], false, 0, [], [], [], [], {}, map[], {})

  const UNKNOWN_METHOD := Ended(RaisedRpc(METHOD_NOT_FOUND, true))

  /** A future that is not there counts as done. */
  function At(s: State, f: nat): Fut {
    if f < |s.futures| then s.futures[f] else Fut(Outbound, Done(Ended(Raised)), User)
  }

  function SetStatus(s: State, f: nat, status: Status): State {
    if f < |s.futures| then s.(futures := s.futures[f := s.futures[f].(status := status)]) else s
  }

  function Allocate(s: State, id: MsgId, u: Fut): State {
    s.(futures := s.futures + [u], table := s.table[id := |s.futures|])
  }

  function BodyOf(end: End): Body {
    match end
    case Ended(Returned(v)) => ResultBody(v)
    case Ended(RaisedRpc(code, _)) => ErrorBody(code)
    case Ended(_) => ErrorBody(INTERNAL_ERROR)
    case Cancelled => ErrorBody(REQUEST_CANCELLED)
  }

  predicate Serialisable(end: End) {
    match end
    case Ended(Returned(Value(_, serialisable))) => serialisable
    case Ended(RaisedRpc(_, serialisable)) => serialisable
    case _ => true
  }

  /** `_send_response`: a result or error that cannot be serialised is logged and nothing is written. */
  function WriteResponse(s: State, id: MsgId, end: End): State {
    if Serialisable(end) then s.(written := s.written + [Answer(id, BodyOf(end))])
    else s.(discarded := s.discarded + [id])
  }

  function AfterSend(s: State, from: Option<nat>, target: nat, action: Action): (State, Token) {
    match action
    case Finish(RaisedBase) => (s.(unwound := s.unwound + {target}), Idle)
    case Finish(o) => (s, Settle(target, o, from.None?))
    case Yield(h, rest) => (s.(uuids := s.uuids + 1), Execute(Uuid(s.uuids), h, Continue(rest, target)))
  }

  /** `gen.send` with the result of the awaited future; its exception goes to the generator's own
      future, unless it is not an `Exception`, as the cancellation of a coroutine is not. */
  function SendStep(s: State, from: Option<nat>, gen: Gen, target: nat): (State, Token) {
    if from.None? then AfterSend(s, from, target, gen.resume(Null))
    else
      match At(s, from.value).status
      case Done(Ended(Returned(v))) => AfterSend(s, from, target, gen.resume(v))
      case Done(Cancelled) =>
        if At(s, from.value).kind.Task? then (s, Idle) else (s, Settle(target, Raised, false))
      case Done(Ended(RaisedBase)) => (s, Idle)
      case Done(Ended(error)) => (s, Settle(target, error, false))
      case _ => (s, Idle)
  }

  /** An exception that is not an `Exception` leaves through every caller. */
  function ExecuteStep(s: State, id: MsgId, h: Handler, cb: Callback): (State, Token) {
    var f := |s.futures|;
    var s' := s.(handlers := s.handlers[f := h]);
    match h
    case Coroutine => (Allocate(s', id, Fut(Task, Pending, cb)), Idle)
    case Threaded => (Allocate(s', id, Fut(Pooled, Pending, cb)), Idle)
    case Generator(g) => (Allocate(s', id, Fut(Result, Pending, cb)), RunGenerator(None, g, f))
    case Sync(RaisedBase) =>
      (s'.(futures := s.futures + [Fut(Result, Pending, cb)], unwound := s.unwound + {f}), Idle)
    case Sync(o) => (s'.(futures := s.futures + [Fut(Result, Done(Ended(o)), cb)]), RunCallback(f, cb))
  }

  /** `set_result` and `set_exception`; on a future that is done they raise. If that happens in the
      generator's first run, the caller of `_execute_handler` sees the exception. */
  function SettleStep(s: State, target: nat, o: Outcome, first: bool): (State, Token) {
    var u := At(s, target);
    if !u.status.Done? then (SetStatus(s, target, Done(Ended(o))), RunCallback(target, u.callback))
    else if !first then (s, Idle)
    else
      match u.callback
      case Reply(id) => (s, Respond(id, Ended(Raised)))
      case Continue(_, outer) => (s, Settle(outer, Raised, false))
      case _ => (s, Idle)
  }

  function CallbackStep(s: State, f: nat, cb: Callback): (State, Token) {
    match cb
    case Reply(id) =>
      var s' := s.(table := s.table - {id});
      var end := if At(s, f).status.Done? then At(s, f).status.end else Ended(Raised);
      if end == Ended(RaisedBase) then (s'.(silenced := s.silenced + [id]), Idle) else (s', Respond(id, end))
    case Continue(g, target) => (s, RunGenerator(Some(f), g, target))
    case _ => (s, Idle)
  }

  /** One atomic step of a thread: the new state, and what the thread does next. */
  function Advance(s: State, t: Token): (State, Token) {
    match t
    case Idle => (s, Idle)
    case Execute(id, h, cb) => ExecuteStep(s, id, h, cb)
    case RunGenerator(from, g, target) =>
      (s, if At(s, target).status == Done(Cancelled) then Idle else Send(from, g, target))
    case Send(from, g, target) => SendStep(s, from, g, target)
    case Settle(target, o, first) => SettleStep(s, target, o, first)
    case RunCallback(f, cb) => CallbackStep(s, f, cb)
    case Respond(id, end) => (WriteResponse(s, id, end), Idle)
    case CancelFuture(f) =>
      var u := At(s, f);
      if !u.kind.Task? && u.status.Pending?
      then (SetStatus(s, f, Done(Cancelled)), RunCallback(f, u.callback)) else (s, Idle)
    case SetFuture(f, o) =>
      var u := At(s, f);
      if !u.kind.Task? && !u.status.Done?
      then (SetStatus(s, f, Done(Ended(o))), RunCallback(f, u.callback)) else (s, Idle)
  }

  /** The entry is popped for its future to be cancelled or set. */
  function Take(s: State, id: MsgId): State
    requires id in s.table
  {
    s.(table := s.table - {id}, taken := s.taken + {s.table[id]})
  }

  /** `handle_message`, up to the first atomic step of what it calls. */
  function Receive(s: State, msg: Message): State {
    if s.shutdown && !((msg.Request? || msg.Notification?) && msg.isExit) then s
    else
      match msg
      case Request(id, h, _) =>
        if h.Some? then s.(dispatched := s.dispatched + [id], main := Execute(id, h.value, Reply(id)))
        else s.(dispatched := s.dispatched + [id], unknown := s.unknown + [id], main := Respond(id, UNKNOWN_METHOD))
      case Notification(h, _) =>
        if h.None? then s else s.(uuids := s.uuids + 1, main := Execute(Uuid(s.uuids), h.value, Check))
      case Cancel(id) =>
        if id in s.table then Take(s, id).(main := CancelFuture(s.table[id])) else s
      case Response(id, o) =>
        if id in s.table then Take(s, id).(main := SetFuture(s.table[id], o)) else s
  }

  datatype Event =
    | Arrive(msg: Message)
    | MainStep
    | WorkerStep(i: nat)
    | StartPooled(f: nat)
    | FinishFuture(f: nat, end: End)
    | SendRequest(id: Option<MsgId>)
    | SetShutdown

  /** A worker completes a running pool future, the event loop a task; the callback runs afterwards. */
  predicate CanFinish(s: State, f: nat, end: End) {
    (At(s, f).kind.Pooled? && At(s, f).status.Running? && !end.Cancelled?)
    || (At(s, f).kind.Task? && !At(s, f).status.Done?)
  }

  /** What happens next; an event that is not possible yet changes nothing. */
  function Next(s: State, e: Event): State {
    match e
    case Arrive(msg) => if s.main.Idle? then Receive(s, msg) else s
    case MainStep => var (s', t) := Advance(s, s.main); s'.(main := t)
    case WorkerStep(i) =>
      if i < |s.workers| then
        var (s', t) := Advance(s, s.workers[i]); s'.(workers := s.workers[i := t])
      else s
    case StartPooled(f) =>
      if At(s, f).kind.Pooled? && At(s, f).status.Pending? then SetStatus(s, f, Running) else s
    case FinishFuture(f, end) =>
      if CanFinish(s, f, end)
      then SetStatus(s, f, Done(end)).(workers := s.workers + [RunCallback(f, At(s, f).callback)])
      else s
    case SendRequest(id) =>
      if id.Some? then Allocate(s, id.value, Fut(Outbound, Pending, User))
      else Allocate(s.(uuids := s.uuids + 1), Uuid(s.uuids), Fut(Outbound, Pending, User))
    case SetShutdown => s.(shutdown := true)
  }

  function Run(s: State, events: seq<Event>): State {
    if events == [] then s else Next(Run(s, events[..|events| - 1]), events[|events| - 1])
  }
}
