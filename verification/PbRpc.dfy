/**
  pbRPC transactions (rdp-server/icp/pbrpc/pbrpc.c).

  Caller threads and one RPC thread share a transaction table and a write queue, both
  locked per operation. The atomic steps of all threads are the steps of one machine;
  calls are named by their tags, which are never reused.
*/
module PbRpc {
  import opened Common

  type Tag = nat

  datatype Kind = Sync | Async

  /** Where a caller stands; Returned is final. */
  datatype Place = Prepared | Added | Waiting | TimedOut | Returned

  datatype Reason = CallTimeout | TransportError | Reply(status: nat)

  /**
    A call with its caller's place and what its callback was handed, response and status; of a
    synchronous call these are the context on the caller's stack, with the event. runs counts how
    often its callback was started.
  */
  datatype Call = Call(kind: Kind, place: Place, runs: nat, response: Option<nat>, status: Reason, event: bool)

  /** How far the callback of a synchronous call has come: response, status, then the event. */
  datatype Stage = Start | ResponseWritten | StatusWritten

  /** The RPC thread. Holding: it has taken a transaction out of the table and runs its callback. */
  datatype Thread =
    | Idle
    | Holding(tag: Tag, reason: Reason, response: Option<nat>, stage: Stage, draining: bool)
    | Writing(msg: Tag)
    | Broken
    | Closed
    | Draining
    | Connecting

  datatype Context = Context(connected: bool, table: set<Tag>, queue: seq<Tag>, sent: seq<Tag>,
                             calls: map<Tag, Call>, thread: Thread)

  datatype Step =
    // callers
    | CallMethod(t: Tag, kind: Kind)
    | Refused(t: Tag, kind: Kind)
    | AddTransaction(t: Tag)
    | Enqueue(t: Tag)
    | Wake(t: Tag)
    | Timeout(t: Tag)
    // the RPC thread
    | Response(t: Tag, payload: nat, status: nat)
    | RunCallback
    | Dequeue
    | WriteOk
    | WriteFails
    | ReadFails
    | Disconnect
    | ClearQueue
    | DrainOne(t: Tag)
    | DrainDone
    | Connect

  predicate At(c: Context, t: Tag, kind: Kind, place: Place) {
    t in c.calls && c.calls[t].kind == kind && c.calls[t].place == place
  }

  predicate IsAt(c: Context, t: Tag, place: Place) {
    t in c.calls && c.calls[t].place == place
  }

  predicate Enabled(c: Context, step: Step) {
    match step
    case CallMethod(t, _) => c.connected && t !in c.calls
    case Refused(t, _) => !c.connected && t !in c.calls
    case AddTransaction(t) => IsAt(c, t, Prepared)
    case Enqueue(t) => IsAt(c, t, Added)
    case Wake(t) => (IsAt(c, t, Waiting) || IsAt(c, t, TimedOut)) && c.calls[t].event
    case Timeout(t) => IsAt(c, t, Waiting) && !c.calls[t].event
    case Response(_, _, _) => c.thread == Idle
    case RunCallback => c.thread.Holding? && c.thread.tag in c.calls
    case Dequeue => c.thread == Idle && c.queue != []
    case WriteOk => c.thread.Writing?
    case WriteFails => c.thread.Writing?
    case ReadFails => c.thread == Idle
    case Disconnect => c.thread == Broken
    case ClearQueue => c.thread == Closed
    case DrainOne(t) => c.thread == Draining && t in c.table
    case DrainDone => c.thread == Draining && c.table == {}
    case Connect => c.thread == Connecting
  }

  function Update(c: Context, t: Tag, call: Call): Context {
    c.(calls := c.calls[t := call])
  }

  /** One step of a callback: an asynchronous one runs at once, pbrpc_response_local_cb in three writes. */
  function Callback(c: Context): Context
    requires c.thread.Holding? && c.thread.tag in c.calls
  {
    var h := c.thread;
    var call := c.calls[h.tag];
    var next := if h.draining then Draining else Idle;
    if call.kind == Async then
      Update(c, h.tag, call.(runs := call.runs + 1, response := h.response, status := h.reason)).(thread := next)
    else match h.stage
      case Start => Update(c, h.tag, call.(runs := call.runs + 1, response := h.response)).(thread := h.(stage := ResponseWritten))
      case ResponseWritten => Update(c, h.tag, call.(status := h.reason)).(thread := h.(stage := StatusWritten))
      case StatusWritten => Update(c, h.tag, call.(event := true)).(thread := next)
  }

  function Apply(c: Context, step: Step): Context
    requires Enabled(c, step)
  {
    match step
    case CallMethod(t, kind) => Update(c, t, Call(kind, Prepared, 0, None, CallTimeout, false))
    // a refused asynchronous call runs its callback in the caller; a refused synchronous one just returns
    case Refused(t, kind) => Update(c, t, Call(kind, Returned, if kind == Async then 1 else 0, None, TransportError, false))
    case AddTransaction(t) => Update(c, t, c.calls[t].(place := Added)).(table := c.table + {t})
    case Enqueue(t) =>
      Update(c, t, c.calls[t].(place := if c.calls[t].kind == Sync then Waiting else Returned)).(queue := c.queue + [t])
    case Wake(t) => Update(c, t, c.calls[t].(place := Returned))
    // the caller that takes its transaction out of the table owns it again; otherwise its callback is running
    case Timeout(t) =>
      if t in c.table then Update(c, t, c.calls[t].(place := Returned)).(table := c.table - {t})
      else Update(c, t, c.calls[t].(place := TimedOut))
    case Response(t, payload, status) =>
      if t in c.table then c.(table := c.table - {t}, thread := Holding(t, Reply(status), Some(payload), Start, false)) else c
    case RunCallback => Callback(c)
    case Dequeue => c.(queue := c.queue[1..], thread := Writing(c.queue[0]))
    case WriteOk => c.(sent := c.sent + [c.thread.msg], thread := Idle)
    case WriteFails => c.(thread := Broken)
    case ReadFails => c.(thread := Broken)
    case Disconnect => c.(connected := false, sent := [], thread := Closed)
    case ClearQueue => c.(queue := [], thread := Draining)
    case DrainOne(t) => c.(table := c.table - {t}, thread := Holding(t, TransportError, None, Start, true))
    case DrainDone => c.(thread := Connecting)
    case Connect => c.(connected := true, thread := Idle)
  }

  /** Before the first connection: the main loop starts by reconnecting. */
  const START := Context(false, {}, [], [], map[], Broken)

  ghost predicate Possible(c: Context, steps: seq<Step>)
    decreases |steps|
  {
    steps == [] || (Enabled(c, steps[0]) && Possible(Apply(c, steps[0]), steps[1..]))
  }

  ghost function After(c: Context, steps: seq<Step>): Context
    requires Possible(c, steps)
    decreases |steps|
  {
    if steps == [] then c else After(Apply(c, steps[0]), steps[1..])
  }

  // ------------------------------------------------------------ invariants

  predicate Held(c: Context, t: Tag) {
    c.thread.Holding? && c.thread.tag == t
  }

  /** One call: its transaction is with its caller, in the table, with the RPC thread, or done. */
  predicate CallOk(c: Context, t: Tag)
    requires t in c.calls
  {
    var call := c.calls[t];
    && call.runs <= 1
    && (call.place == Prepared ==> t !in c.table && !Held(c, t) && call.runs == 0)
    && (t in c.table ==> !Held(c, t) && call.runs == 0 && !call.event)
    && (Held(c, t) ==> !call.event && (call.runs == if c.thread.stage == Start then 0 else 1)
                       && (call.kind == Async ==> c.thread.stage == Start))
    && (call.kind == Sync && call.place == Returned ==> t !in c.table && !Held(c, t))
    && (call.kind == Async ==> call.place !in {Waiting, TimedOut})
    && (call.place == TimedOut ==> t !in c.table && (Held(c, t) || call.event))
    && (call.event ==> call.runs == 1)
    && (call.kind == Sync && call.place in {Added, Waiting} && t !in c.table ==> Held(c, t) || call.event)
    && (call.kind == Sync ==> ContextOk(c, t, call))
  }

  /** The stack context: untouched, being written, or complete. */
  predicate ContextOk(c: Context, t: Tag, call: Call) {
    if Held(c, t) then
      && (c.thread.reason.Reply? || c.thread.reason.TransportError?) && (c.thread.response.Some? <==> c.thread.reason.Reply?)
      && call.response == (if c.thread.stage == Start then None else c.thread.response)
      && (c.thread.stage == StatusWritten ==> call.status == c.thread.reason)
    else if call.event then call.status != CallTimeout && (call.response.Some? <==> call.status.Reply?)
    else call.runs == 0 && call.response == None
  }

  predicate Ok(c: Context) {
    && (forall t :: t in c.calls ==> CallOk(c, t))
    && c.table <= c.calls.Keys
    && (c.thread.Holding? ==> c.thread.tag in c.calls)
  }

  lemma CallbackKeepsOk(c: Context)
    requires Ok(c) && Enabled(c, RunCallback)
    ensures Ok(Apply(c, RunCallback))
  {
    var d := Apply(c, RunCallback);
    forall t | t in d.calls
      ensures CallOk(d, t)
    {
      assert CallOk(c, t);
    }
  }

  predicate ByCaller(step: Step) {
    step.CallMethod? || step.Refused? || step.AddTransaction? || step.Enqueue? || step.Wake? || step.Timeout?
  }

  lemma CallerKeepsOk(c: Context, step: Step)
    requires Ok(c) && Enabled(c, step) && ByCaller(step)
    ensures Ok(Apply(c, step))
  {
    var d := Apply(c, step);
    forall t | t in d.calls
      ensures CallOk(d, t)
    {
      if t in c.calls {
        assert CallOk(c, t);
      }
    }
  }

  lemma ThreadKeepsOk(c: Context, step: Step)
    requires Ok(c) && Enabled(c, step) && !ByCaller(step) && !step.RunCallback?
    ensures Ok(Apply(c, step))
  {
    var d := Apply(c, step);
    forall t | t in d.calls
      ensures CallOk(d, t)
    {
      assert CallOk(c, t);
    }
  }

  lemma ApplyKeepsOk(c: Context, step: Step)
    requires Ok(c) && Enabled(c, step)
    ensures Ok(Apply(c, step))
  {
    if step.RunCallback? {
      CallbackKeepsOk(c);
    } else if ByCaller(step) {
      CallerKeepsOk(c, step);
    } else {
      ThreadKeepsOk(c, step);
    }
  }

  lemma {:induction false} RunKeepsOk(c: Context, steps: seq<Step>)
    requires Ok(c) && Possible(c, steps)
    ensures Ok(After(c, steps))
    decreases |steps|
  {
    if steps != [] {
      ApplyKeepsOk(c, steps[0]);
      RunKeepsOk(Apply(c, steps[0]), steps[1..]);
    }
  }

  // --------------------------------------------------------- main results

  /** In every interleaving each callback is started at most once. */
  lemma CallbackRunsOnce(steps: seq<Step>, t: Tag)
    requires Possible(START, steps) && t in After(START, steps).calls
    ensures After(START, steps).calls[t].runs <= 1
  {
    RunKeepsOk(START, steps);
  }

  /** The RPC thread never holds a transaction whose synchronous caller has returned: no write to a dead stack frame. */
  lemma HeldCallerIsAlive(steps: seq<Step>)
    requires Possible(START, steps)
    ensures var c := After(START, steps);
            c.thread.Holding? ==> c.thread.tag in c.calls && (c.calls[c.thread.tag].kind == Sync ==> c.calls[c.thread.tag].place != Returned)
  {
    RunKeepsOk(START, steps);
    var c := After(START, steps);
    if c.thread.Holding? {
      assert CallOk(c, c.thread.tag);
    }
  }

  lemma ReturnedStays(c: Context, step: Step, t: Tag)
    requires Ok(c) && Enabled(c, step) && At(c, t, Sync, Returned)
    ensures var d := Apply(c, step); t in d.calls && d.calls[t] == c.calls[t]
  {
    assert CallOk(c, t);
  }

  /** Once a synchronous call has returned, nothing changes its context or runs its callback any more. */
  lemma {:induction false} ReturnedIsFrozen(c: Context, steps: seq<Step>, t: Tag)
    requires Ok(c) && Possible(c, steps) && At(c, t, Sync, Returned)
    ensures t in After(c, steps).calls && After(c, steps).calls[t] == c.calls[t]
    decreases |steps|
  {
    if steps != [] {
      ReturnedStays(c, steps[0], t);
      ApplyKeepsOk(c, steps[0]);
      ReturnedIsFrozen(Apply(c, steps[0]), steps[1..], t);
    }
  }

  /**
    A synchronous call that has returned either has its complete context, written by exactly one
    callback, or took its own transaction back and no callback ever ran.
  */
  lemma CallOutcome(steps: seq<Step>, t: Tag)
    requires Possible(START, steps) && At(After(START, steps), t, Sync, Returned)
    ensures var call := After(START, steps).calls[t];
            if call.event then call.runs == 1 && call.status != CallTimeout && (call.response.Some? <==> call.status.Reply?)
            else call.runs == 0 && call.response == None
  {
    RunKeepsOk(START, steps);
    assert CallOk(After(START, steps), t);
  }

  // --------------------------------------------------- where an answer comes from

  lemma {:induction false} RunThenStep(c: Context, steps: seq<Step>, step: Step)
    requires Possible(c, steps + [step])
    ensures Possible(c, steps) && Enabled(After(c, steps), step) && After(c, steps + [step]) == Apply(After(c, steps), step)
    decreases |steps|
  {
    if steps == [] {
      assert steps + [step] == [step];
    } else {
      assert (steps + [step])[0] == steps[0] && (steps + [step])[1..] == steps[1..] + [step];
      RunThenStep(Apply(c, steps[0]), steps[1..], step);
    }
  }

  /** The run from the start takes this step while t is in the table. */
  ghost predicate TookOf(steps: seq<Step>, step: Step, t: Tag) {
    exists k :: 0 <= k < |steps| && steps[k] == step && Possible(START, steps[..k]) && t in After(START, steps[..k]).table
  }

  lemma StillTook(steps: seq<Step>, more: Step, step: Step, t: Tag)
    requires TookOf(steps, step, t)
    ensures TookOf(steps + [more], step, t)
  {
    var k :| 0 <= k < |steps| && steps[k] == step && Possible(START, steps[..k]) && t in After(START, steps[..k]).table;
    assert (steps + [more])[k] == step && (steps + [more])[..k] == steps[..k];
  }

  lemma JustTook(steps: seq<Step>, step: Step, t: Tag)
    requires Possible(START, steps) && t in After(START, steps).table
    ensures TookOf(steps + [step], step, t)
  {
    assert (steps + [step])[|steps|] == step && (steps + [step])[..|steps|] == steps;
  }

  /** A reply with this very payload and status came for t, or the drain of a lost connection reached it. */
  ghost predicate Explains(steps: seq<Step>, t: Tag, response: Option<nat>, reason: Reason) {
    match reason
    case Reply(status) => response.Some? && TookOf(steps, Response(t, response.value, status), t)
    case TransportError => response == None && TookOf(steps, DrainOne(t), t)
    case CallTimeout => false
  }

  lemma StillExplains(steps: seq<Step>, more: Step, t: Tag, response: Option<nat>, reason: Reason)
    requires Explains(steps, t, response, reason)
    ensures Explains(steps + [more], t, response, reason)
  {
    if reason.Reply? {
      StillTook(steps, more, Response(t, response.value, reason.status), t);
    } else {
      StillTook(steps, more, DrainOne(t), t);
    }
  }

  /** A call that never had a transaction: it was refused without a connection. */
  predicate WasRefused(steps: seq<Step>, t: Tag, call: Call) {
    Refused(t, call.kind) in steps && call.status == TransportError && call.response == None
  }

  ghost predicate CallExplained(steps: seq<Step>, c: Context, t: Tag)
    requires t in c.calls
  {
    var call := c.calls[t];
    if call.kind == Async then call.runs > 0 ==> Explains(steps, t, call.response, call.status) || WasRefused(steps, t, call)
    else
      && (call.event ==> Explains(steps, t, call.response, call.status))
      && (!call.event && call.place == Returned ==>
            (call.status == CallTimeout && TookOf(steps, Timeout(t), t)) || WasRefused(steps, t, call))
      && (!call.event && call.place != Returned && !(Held(c, t) && c.thread.stage == StatusWritten) ==> call.status == CallTimeout)
  }

  ghost predicate HistoryOk(steps: seq<Step>, c: Context) {
    && (c.thread.Holding? ==> Explains(steps, c.thread.tag, c.thread.response, c.thread.reason))
    && forall t :: t in c.calls ==> CallExplained(steps, c, t)
  }

  /** What explained a call still does. */
  lemma StillExplained(steps: seq<Step>, c: Context, more: Step, d: Context, t: Tag)
    requires t in c.calls && CallExplained(steps, c, t) && t in d.calls && d.calls[t] == c.calls[t]
    requires Held(c, t) && c.thread.stage == StatusWritten ==> Held(d, t) && d.thread.stage == StatusWritten
    ensures CallExplained(steps + [more], d, t)
  {
    var call := c.calls[t];
    if call.kind == Async && call.runs > 0 && Explains(steps, t, call.response, call.status) {
      StillExplains(steps, more, t, call.response, call.status);
    } else if call.kind == Sync && call.event {
      StillExplains(steps, more, t, call.response, call.status);
    } else if call.kind == Sync && call.place == Returned && TookOf(steps, Timeout(t), t) {
      StillTook(steps, more, Timeout(t), t);
    }
  }

  /** The call a step is about. */
  predicate Concerns(c: Context, step: Step, t: Tag) {
    match step
    case CallMethod(u, _) => u == t
    case Refused(u, _) => u == t
    case AddTransaction(u) => u == t
    case Enqueue(u) => u == t
    case Wake(u) => u == t
    case Timeout(u) => u == t
    case RunCallback => Held(c, t)
    case _ => false
  }

  lemma CallerExplained(steps: seq<Step>, c: Context, step: Step, t: Tag)
    requires Ok(c) && HistoryOk(steps, c) && Possible(START, steps) && c == After(START, steps)
    requires Enabled(c, step) && ByCaller(step) && Concerns(c, step, t)
    ensures t in Apply(c, step).calls && CallExplained(steps + [step], Apply(c, step), t)
  {
    if t in c.calls {
      assert CallOk(c, t) && CallExplained(steps, c, t);
      var call := c.calls[t];
      if call.kind == Sync && call.event {
        StillExplains(steps, step, t, call.response, call.status);
      } else if call.kind == Async && call.runs > 0 && Explains(steps, t, call.response, call.status) {
        StillExplains(steps, step, t, call.response, call.status);
      } else if step == Timeout(t) && t in c.table {
        JustTook(steps, step, t);
      }
    }
  }

  lemma CallbackExplained(steps: seq<Step>, c: Context, t: Tag)
    requires Ok(c) && HistoryOk(steps, c) && Enabled(c, RunCallback) && Held(c, t)
    ensures CallExplained(steps + [RunCallback], Apply(c, RunCallback), t)
  {
    assert CallOk(c, t) && CallExplained(steps, c, t);
    StillExplains(steps, RunCallback, t, c.thread.response, c.thread.reason);
  }

  lemma ThreadExplained(steps: seq<Step>, c: Context, step: Step)
    requires Ok(c) && HistoryOk(steps, c) && Possible(START, steps) && c == After(START, steps) && Enabled(c, step)
    ensures var h := Apply(c, step).thread; h.Holding? ==> Explains(steps + [step], h.tag, h.response, h.reason)
  {
    if step.Response? && step.t in c.table {
      JustTook(steps, step, step.t);
    } else if step.DrainOne? {
      JustTook(steps, step, step.t);
    } else if c.thread.Holding? {
      StillExplains(steps, step, c.thread.tag, c.thread.response, c.thread.reason);
    }
  }

  lemma StepExplained(steps: seq<Step>, c: Context, step: Step)
    requires Ok(c) && HistoryOk(steps, c) && Possible(START, steps) && c == After(START, steps) && Enabled(c, step)
    ensures HistoryOk(steps + [step], Apply(c, step))
  {
    var d := Apply(c, step);
    ThreadExplained(steps, c, step);
    forall t | t in d.calls
      ensures CallExplained(steps + [step], d, t)
    {
      OneExplained(steps, c, step, t);
    }
  }

  lemma OneExplained(steps: seq<Step>, c: Context, step: Step, t: Tag)
    requires Ok(c) && HistoryOk(steps, c) && Possible(START, steps) && c == After(START, steps) && Enabled(c, step)
    requires t in Apply(c, step).calls
    ensures CallExplained(steps + [step], Apply(c, step), t)
  {
    if !Concerns(c, step, t) {
      StillExplained(steps, c, step, Apply(c, step), t);
    } else if step.RunCallback? {
      CallbackExplained(steps, c, t);
    } else {
      CallerExplained(steps, c, step, t);
    }
  }

  lemma {:induction false} RunExplained(steps: seq<Step>)
    requires Possible(START, steps)
    ensures HistoryOk(steps, After(START, steps))
  {
    if steps != [] {
      var front, last := steps[..|steps| - 1], steps[|steps| - 1];
      assert steps == front + [last];
      RunThenStep(START, front, last);
      RunExplained(front);
      RunKeepsOk(START, front);
      StepExplained(front, After(START, front), last);
    }
  }

  /**
    What a returned synchronous call got: the payload and status of a response that came for it while it was in
    the table; or a transport error, because a lost connection was drained of it or there was none; or a timeout,
    because it took its transaction back.
  */
  lemma AnswerIsTheirs(steps: seq<Step>, t: Tag)
    requires Possible(START, steps) && At(After(START, steps), t, Sync, Returned)
    ensures var call := After(START, steps).calls[t];
            match call.status
            case Reply(status) => call.event && call.response.Some? && TookOf(steps, Response(t, call.response.value, status), t)
            case TransportError =>
              call.response == None && if call.event then TookOf(steps, DrainOne(t), t) else Refused(t, Sync) in steps
            case CallTimeout => call.response == None && !call.event && TookOf(steps, Timeout(t), t)
  {
    RunExplained(steps);
    RunKeepsOk(START, steps);
    assert CallOk(After(START, steps), t) && CallExplained(steps, After(START, steps), t);
  }

  /** What an asynchronous call's callback was handed, if it ran. */
  lemma CallbackGetsTheirs(steps: seq<Step>, t: Tag)
    requires Possible(START, steps) && t in After(START, steps).calls
    requires After(START, steps).calls[t].kind == Async && After(START, steps).calls[t].runs > 0
    ensures var call := After(START, steps).calls[t];
            match call.status
            case Reply(status) => call.response.Some? && TookOf(steps, Response(t, call.response.value, status), t)
            case TransportError => call.response == None && (TookOf(steps, DrainOne(t), t) || Refused(t, Async) in steps)
            case CallTimeout => false
  {
    RunExplained(steps);
    assert CallExplained(steps, After(START, steps), t);
  }

  lemma RanStays(c: Context, step: Step, t: Tag)
    requires Ok(c) && Enabled(c, step) && t in c.calls && c.calls[t].kind == Async && c.calls[t].runs == 1
    ensures var d := Apply(c, step);
            t in d.calls && d.calls[t].kind == Async && d.calls[t].runs == 1 && d.calls[t].status == c.calls[t].status
  {
    assert CallOk(c, t);
  }

  /** Once its callback has run, an asynchronous call has had its answer. */
  lemma {:induction false} AnswerIsFinal(c: Context, steps: seq<Step>, t: Tag)
    requires Ok(c) && Possible(c, steps) && t in c.calls && c.calls[t].kind == Async && c.calls[t].runs == 1
    ensures var d := After(c, steps); t in d.calls && d.calls[t].runs == 1 && d.calls[t].status == c.calls[t].status
    decreases |steps|
  {
    if steps != [] {
      RanStays(c, steps[0], t);
      ApplyKeepsOk(c, steps[0]);
      AnswerIsFinal(Apply(c, steps[0]), steps[1..], t);
    }
  }

  /** An asynchronous call made without a connection is told so, once. */
  lemma RefusedIsTold(c: Context, steps: seq<Step>, t: Tag)
    requires Ok(c) && Enabled(c, Refused(t, Async)) && Possible(Apply(c, Refused(t, Async)), steps)
    ensures var d := After(Apply(c, Refused(t, Async)), steps);
            t in d.calls && d.calls[t].runs == 1 && d.calls[t].status == TransportError
  {
    ApplyKeepsOk(c, Refused(t, Async));
    AnswerIsFinal(Apply(c, Refused(t, Async)), steps, t);
  }

  /** A caller that waits without a limit is woken: its callback is done or the RPC thread is running it. */
  lemma EndlessWaitEnds(steps: seq<Step>, t: Tag)
    requires Possible(START, steps) && IsAt(After(START, steps), t, TimedOut)
    ensures var c := After(START, steps); Enabled(c, Wake(t)) || (Held(c, t) && Enabled(c, RunCallback))
  {
    RunKeepsOk(START, steps);
    assert CallOk(After(START, steps), t);
  }

  // --------------------------------------------------- requests in order

  /** The requests put into the write queue since it was last cleared. */
  function Requested(steps: seq<Step>): seq<Tag> {
    if steps == [] then []
    else
      var before, last := Requested(steps[..|steps| - 1]), steps[|steps| - 1];
      if last.Enqueue? then before + [last.t] else if last.ClearQueue? then [] else before
  }

  /** From the clearing of the queue until the next transport error. */
  predicate Serving(c: Context) {
    c.thread != Broken && c.thread != Closed
  }

  ghost predicate InOrder(steps: seq<Step>, c: Context) {
    && (Serving(c) ==> c.sent + (if c.thread.Writing? then [c.thread.msg] else []) + c.queue == Requested(steps))
    && (c.thread == Closed ==> c.sent == [])
  }

  lemma StepInOrder(steps: seq<Step>, c: Context, step: Step)
    requires InOrder(steps, c) && Enabled(c, step)
    ensures InOrder(steps + [step], Apply(c, step))
  {
    assert (steps + [step])[..|steps|] == steps;
    if step.Dequeue? {
      assert c.queue == [c.queue[0]] + c.queue[1..];
    } else if step.RunCallback? {
      assert Serving(c) == Serving(Apply(c, step));
    }
  }

  lemma {:induction false} RunInOrder(steps: seq<Step>)
    requires Possible(START, steps)
    ensures InOrder(steps, After(START, steps))
  {
    if steps != [] {
      var front, last := steps[..|steps| - 1], steps[|steps| - 1];
      assert steps == front + [last];
      RunThenStep(START, front, last);
      RunInOrder(front);
      StepInOrder(front, After(START, front), last);
    }
  }

  /** While a connection is served, requests are written in the order they were made, none lost and none twice. */
  lemma RequestsInOrder(steps: seq<Step>)
    requires Possible(START, steps) && Serving(After(START, steps))
    ensures var c := After(START, steps);
            c.sent + (if c.thread.Writing? then [c.thread.msg] else []) + c.queue == Requested(steps)
  {
    RunInOrder(steps);
  }

  // ------------------------------------------------------- no orphaned calls

  /** From the end of a drain until the next transport error. */
  predicate Up(c: Context) {
    c.thread == Idle || c.thread.Writing? || c.thread == Connecting || (c.thread.Holding? && !c.thread.draining)
  }

  /** A transaction in the table whose request can still be answered on this connection. */
  predicate Reachable(c: Context, t: Tag) {
    IsAt(c, t, Added) || t in c.queue || c.thread == Writing(t) || t in c.sent
  }

  predicate NoOrphans(c: Context) {
    Up(c) ==> forall t :: t in c.table ==> Reachable(c, t)
  }

  lemma ApplyKeepsNoOrphans(c: Context, step: Step)
    requires Ok(c) && NoOrphans(c) && Enabled(c, step)
    ensures NoOrphans(Apply(c, step))
  {
    var d := Apply(c, step);
    if Up(d) {
      forall t | t in d.table
        ensures Reachable(d, t)
      {
        if t in c.table && Up(c) {
          assert Reachable(c, t);
        }
      }
    }
  }

  lemma {:induction false} RunKeepsNoOrphans(c: Context, steps: seq<Step>)
    requires Ok(c) && NoOrphans(c) && Possible(c, steps)
    ensures NoOrphans(After(c, steps))
    decreases |steps|
  {
    if steps != [] {
      ApplyKeepsOk(c, steps[0]);
      ApplyKeepsNoOrphans(c, steps[0]);
      RunKeepsNoOrphans(Apply(c, steps[0]), steps[1..]);
    }
  }

  /**
    While a connection is up, every transaction in the table has its request with its caller, in the
    write queue, being written, or sent on this connection.
  */
  lemma NoCallIsOrphaned(steps: seq<Step>, t: Tag)
    requires Possible(START, steps) && Up(After(START, steps)) && t in After(START, steps).table
    ensures Reachable(After(START, steps), t)
  {
    RunKeepsNoOrphans(START, steps);
  }

  /** pbrpc_reconnect with its two clean-ups swapped: drain the table, then clear the queue. */
  function ApplySwapped(c: Context, step: Step): Context
    requires Enabled(c, step)
  {
    match step
    case Disconnect => Apply(c, step).(thread := Draining)
    case DrainDone => c.(thread := Closed)
    case ClearQueue => c.(queue := [], thread := Connecting)
    case _ => Apply(c, step)
  }

  /** A run of the swapped machine with the contexts it passes through. */
  ghost predicate SwappedRun(trace: seq<Context>, steps: seq<Step>) {
    && |trace| == |steps| + 1
    && forall i :: 0 <= i < |steps| ==> Enabled(trace[i], steps[i]) && trace[i + 1] == ApplySwapped(trace[i], steps[i])
  }

  predicate Orphaned(c: Context, t: Tag) {
    c.connected && Up(c) && t in c.table && !Reachable(c, t)
  }

  /** The first connection. */
  lemma SwappedStart() returns (trace: seq<Context>, steps: seq<Step>)
    ensures SwappedRun(trace, steps) && trace[0] == START
    ensures trace[|steps|] == START.(connected := true, thread := Idle)
  {
    steps := [Disconnect, DrainDone, ClearQueue, Connect];
    var c1 := ApplySwapped(START, Disconnect);
    var c2 := ApplySwapped(c1, DrainDone);
    var c3 := ApplySwapped(c2, ClearQueue);
    trace := [START, c1, c2, c3, Apply(c3, Connect)];
  }

  /** A call is prepared on a connection that is then lost, and its table drained. */
  lemma SwappedDrain(c: Context, t: Tag) returns (trace: seq<Context>, steps: seq<Step>)
    requires c.connected && c.thread == Idle && c.table == {} && t !in c.calls
    ensures SwappedRun(trace, steps) && trace[0] == c
    ensures var d := trace[|steps|];
            !d.connected && d.thread == Closed && d.table == {} && d.sent == [] && At(d, t, Sync, Prepared)
  {
    steps := [CallMethod(t, Sync), ReadFails, Disconnect, DrainDone];
    var c1 := Apply(c, CallMethod(t, Sync));
    var c2 := Apply(c1, ReadFails);
    var c3 := ApplySwapped(c2, Disconnect);
    trace := [c, c1, c2, c3, ApplySwapped(c3, DrainDone)];
  }

  /** A call that adds its transaction and its request between the two clean-ups. */
  lemma SwappedClear(c: Context, t: Tag) returns (trace: seq<Context>, steps: seq<Step>)
    requires !c.connected && c.thread == Closed && c.table == {} && c.sent == [] && At(c, t, Sync, Prepared)
    ensures SwappedRun(trace, steps) && trace[0] == c && Orphaned(trace[|steps|], t)
  {
    steps := [AddTransaction(t), Enqueue(t), ClearQueue, Connect];
    var c1 := Apply(c, AddTransaction(t));
    var c2 := Apply(c1, Enqueue(t));
    var c3 := ApplySwapped(c2, ClearQueue);
    trace := [c, c1, c2, c3, Apply(c3, Connect)];
  }

  lemma SwappedJoin(trace: seq<Context>, steps: seq<Step>, more: seq<Context>, next: seq<Step>)
    requires SwappedRun(trace, steps) && SwappedRun(more, next) && trace[|steps|] == more[0]
    ensures SwappedRun(trace + more[1..], steps + next) && (trace + more[1..])[|steps + next|] == more[|next|]
  {
    var all, done := trace + more[1..], steps + next;
    forall i | 0 <= i < |done|
      ensures Enabled(all[i], done[i]) && all[i + 1] == ApplySwapped(all[i], done[i])
    {
      if i >= |steps| {
        assert all[i] == more[i - |steps|] && done[i] == next[i - |steps|] && all[i + 1] == more[i - |steps| + 1];
      }
    }
  }

  /**
    The order of the two clean-ups matters: swapped, the machine has a run from its start after which
    a call is in the table of a live connection with its request gone, so that only its own time limit ends it.
  */
  lemma SwappedOrderOrphans(t: Tag)
    ensures exists trace, steps :: SwappedRun(trace, steps) && trace[0] == START && Orphaned(trace[|steps|], t)
  {
    var start, first := SwappedStart();
    var drain, second := SwappedDrain(start[|first|], t);
    var clear, third := SwappedClear(drain[|second|], t);
    SwappedJoin(drain, second, clear, third);
    SwappedJoin(start, first, drain + clear[1..], second + third);
  }
}
