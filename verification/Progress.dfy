/**
  No viewer gets stuck: in every reachable state of a session each front connection waits for
  something that is still to come.
*/
module Progress {
  import opened Regions
  import opened TileDiff
  import opened FrameState
  import opened Fronts

  /**
    What a phase waits for. An acknowledgement is awaited only while the window is full, a sync reply
    only while one is outstanding, active output only while output is suppressed or the graphics
    channel is not open, and a resize only in phases that nothing else moves.
  */
  ghost predicate Sound(f: Front, waiting: bool) {
    var m := f.machine;
    && (m.current == WaitingAck ==> WindowFull(f))
    && (m.current == WaitingSyncReply ==> waiting)
    && (m.current == WaitingActiveOutput ==> m.outputSuppressed || m.waitingGraphicsPipeline)
    && (m.resizePending ==> m.current in {WaitingBackend, WaitingTimer, EventloopMove})
  }

  /** And written output is awaited only while the socket is watched for it. */
  ghost predicate Wakeable(f: Front, waiting: bool) {
    Sound(f, waiting) && (f.machine.current == WaitingFrameSent ==> f.watched)
  }

  /** A handler leaves its front wakeable and never forgets an outstanding reply. */
  ghost predicate Wakes(waiting: bool, o: Outcome) {
    Wakeable(o.front, o.waiting) && (waiting ==> o.waiting)
  }

  // ------------------------------------------------------------ the handlers

  lemma SignalWakes(f: Front, e: Event, waiting: bool)
    requires Wakeable(f, waiting) && Spontaneous(f.machine, e)
    ensures Wakeable(Signal(f, e), waiting)
  {}

  lemma ImmediateWakes(f: Front, waiting: bool, setDamage: bool, all: set<Point>)
    requires Wakeable(f, waiting)
    ensures Wakes(waiting, Immediate(f, waiting, setDamage, all))
  {
    var g := if setDamage then f.(damage := all) else f;
    if Forceable(g.machine) {
      assert SetEvent(g.machine, ImmediateRequest).current in {WaitingSyncReply, WaitingTimer};
    }
  }

  lemma WaitTimerWakes(f: Front, waiting: bool, all: set<Point>)
    requires Wakeable(f, waiting)
    ensures Wakes(waiting, WaitTimer(f, waiting, all))
  {
    if ShouldCreateFrame(f.machine) {
      ImmediateWakes(Signal(f, SyncRequested), true, false, all);
    }
  }

  /** Also right after a reply, when nobody watches the socket yet, and after the write event, when nobody does any more. */
  lemma FrameWrittenWakes(f: Front, waiting: bool, all: set<Point>)
    requires Sound(f, waiting)
    ensures Wakes(waiting, FrameWritten(f, waiting, all))
  {
    if Get(f.machine) == WaitingFrameSent && !WindowFull(f) {
      WaitTimerWakes(Signal(f, FrameSent), waiting, all);
    }
  }

  lemma AcknowledgeWakes(f: Front, waiting: bool, frameId: nat, all: set<Point>)
    requires Wakeable(f, waiting)
    ensures Wakes(waiting, Acknowledge(f, waiting, frameId, all))
  {
    var g := Acked(f, frameId);
    if Get(g.machine) == WaitingAck && !WindowFull(g) {
      WaitTimerWakes(Signal(g, FrameAckReceived), waiting, all);
    }
  }

  lemma SuppressWakes(f: Front, waiting: bool, allow: bool, all: set<Point>)
    requires Wakeable(f, waiting)
    ensures Wakes(waiting, Suppress(f, waiting, allow, all))
  {
    SignalWakes(f, EnableOutput, waiting);
    WaitTimerWakes(Signal(f, EnableOutput), waiting, all);
  }

  lemma RetryWakes(f: Front, waiting: bool, again: bool, all: set<Point>)
    requires Wakeable(f, waiting)
    ensures var o := if again then Immediate(f, waiting, false, all) else Outcome(f, waiting);
            Wakes(waiting, WaitTimer(o.front, o.waiting, all))
  {
    ImmediateWakes(f, waiting, false, all);
    var o := if again then Immediate(f, waiting, false, all) else Outcome(f, waiting);
    WaitTimerWakes(o.front, o.waiting, all);
  }

  lemma TickWakes(f: Front, waiting: bool, exceeded: bool, progressive: bool, all: set<Point>)
    requires Wakeable(f, waiting)
    ensures Wakes(waiting, Tick(f, waiting, exceeded, progressive, all))
  {
    var g := Signal(f, FrameTimer);
    SignalWakes(f, FrameTimer, waiting);
    if exceeded {
      SignalWakes(g, BandwidthFail, waiting);
    } else {
      var h := Signal(g, BandwidthGood);
      SignalWakes(g, BandwidthGood, waiting);
      RetryWakes(h, waiting, progressive && Get(h.machine) == WaitingSyncReply, all);
    }
  }

  lemma AttachWakes(f: Front, waiting: bool, all: set<Point>)
    ensures Wakes(waiting, Attach(f, waiting, all))
  {
    WaitTimerWakes(Signal(f, BackendAttached), waiting, all);
  }

  lemma ReattachWakes(f: Front, waiting: bool, box: Rect, client: Screen, newSize: bool)
    ensures Wakes(waiting, Reattach(f, waiting, box, client, newSize))
  {
    var g := Signal(f.(view := Blank(box), damage := {}, client := client), BackendAttached);
    WaitTimerWakes(g, waiting, RectPoints(box));
  }

  /** All fronts receive a reply before any of them asks again: afterwards none of them awaits one. */
  lemma ReceiveWakes(f: Front, fb: Screen, reported: set<Point>, s: Send, waiting: bool)
    requires Wakeable(f, waiting)
    ensures Sound(Receive(f, fb, reported, s), false)
  {}

  lemma {:induction false} RefreshWakes(f: Front, areas: seq<Area>, box: Rect, waiting: bool)
    requires Wakeable(f, waiting)
    ensures Wakeable(RefreshAreas(f, areas, box), waiting)
  {
    RefreshKeepsPace(f, areas, box);
  }

  // ------------------------------------------------------- loops over all fronts

  ghost predicate AllWakeable(fronts: seq<Front>, waiting: bool) {
    forall i :: 0 <= i < |fronts| ==> Wakeable(fronts[i], waiting)
  }

  /** Before the loop that handles written frames the fronts are only sound. */
  ghost predicate Ready(strict: bool, f: Front, waiting: bool) {
    if strict then Wakeable(f, waiting) else Sound(f, waiting)
  }

  /** A handler that leaves any front that is ready wakeable. */
  ghost predicate Awakening(strict: bool, h: (nat, Front, bool) -> Outcome) {
    forall i: nat, f: Front, w: bool :: Ready(strict, f, w) ==> Wakes(w, h(i, f, w))
  }

  /** A reply that becomes outstanding for one front is outstanding for all. */
  lemma {:induction false} ForEachWakes(strict: bool, fronts: seq<Front>, waiting: bool, h: (nat, Front, bool) -> Outcome)
    requires Awakening(strict, h) && forall i :: 0 <= i < |fronts| ==> Ready(strict, fronts[i], waiting)
    ensures var (r, w) := ForEach(fronts, waiting, h); AllWakeable(r, w) && (waiting ==> w)
  {
    if fronts != [] {
      var n := |fronts| - 1;
      ForEachWakes(strict, fronts[..n], waiting, h);
      var (before, w) := ForEach(fronts[..n], waiting, h);
      assert Ready(strict, fronts[n], waiting) && Ready(strict, fronts[n], w);
      var o := h(n, fronts[n], w);
      assert Wakes(w, o);
    }
  }

  lemma OnTickWakes(exceeded: seq<bool>, progressive: seq<bool>, all: set<Point>)
    ensures Awakening(true, OnTick(exceeded, progressive, all))
  {
    forall i: nat, f: Front, w: bool | Wakeable(f, w)
      ensures Wakes(w, OnTick(exceeded, progressive, all)(i, f, w))
    {
      TickWakes(f, w, i < |exceeded| && exceeded[i], i < |progressive| && progressive[i], all);
    }
  }

  lemma OnWrittenWakes(blocked: seq<bool>, all: set<Point>)
    ensures Awakening(false, OnWritten(blocked, all))
  {
    forall i: nat, f: Front, w: bool | Sound(f, w)
      ensures Wakes(w, OnWritten(blocked, all)(i, f, w))
    {
      FrameWrittenWakes(f, w, all);
    }
  }

  lemma {:induction false} AttachAllWakes(fronts: seq<Front>, all: set<Point>)
    ensures var (r, w) := ForEach(fronts, false, OnAttach(all)); AllWakeable(r, w)
  {
    if fronts != [] {
      var n := |fronts| - 1;
      AttachAllWakes(fronts[..n], all);
      var (before, w) := ForEach(fronts[..n], false, OnAttach(all));
      AttachWakes(fronts[n], w, all);
    }
  }

  lemma {:induction false} ReattachAllWakes(fronts: seq<Front>, box: Rect, clients: seq<Screen>, newSize: bool)
    ensures var (r, w) := ForEach(fronts, false, OnReattach(box, clients, newSize)); AllWakeable(r, w)
  {
    if fronts != [] {
      var n, h := |fronts| - 1, OnReattach(box, clients, newSize);
      ReattachAllWakes(fronts[..n], box, clients, newSize);
      var (before, w) := ForEach(fronts[..n], false, h);
      ReattachWakes(fronts[n], w, box, if n < |clients| then clients[n] else map[], newSize);
    }
  }

  // ------------------------------------------------------------ whole runs

  ghost predicate Live(s: Session) { AllWakeable(s.fronts, s.waiting) }

  lemma PutKeepsLive(s: Session, i: nat, o: Outcome)
    requires Live(s) && i < |s.fronts| && Wakes(s.waiting, o)
    ensures Live(Put(s, i, o))
  {}

  lemma SyncReplyKeepsLive(s: Session, step: Step)
    requires Live(s) && step.SyncReply? && Enabled(s, step)
    ensures Live(Apply(s, step))
  {
    var reported := Reported(step.rects, s.box);
    var received := ReceiveAll(s.fronts, s.fb, reported, step.sends);
    forall i | 0 <= i < |received|
      ensures Sound(received[i], false)
    {
      ReceiveWakes(s.fronts[i], s.fb, reported, step.sends[i], s.waiting);
    }
    OnWrittenWakes(step.blocked, RectPoints(s.box));
    ForEachWakes(false, received, false, OnWritten(step.blocked, RectPoints(s.box)));
  }

  lemma JoinKeepsLive(s: Session, f: Front)
    requires Live(s) && Enabled(s, Join(f))
    ensures Live(Apply(s, Join(f)))
  {
    var all := RectPoints(s.box);
    var g := Signal(f.(forced := Brought(f)), NewShadowing);
    ImmediateWakes(g, s.waiting, true, all);
    var o := Immediate(g, s.waiting, true, all);
    WaitTimerWakes(o.front, o.waiting, all);
  }

  lemma OneFrontKeepsLive(s: Session, step: Step)
    requires Live(s) && (PacesOne(s, step) || step.RefreshRect?) && Enabled(s, step)
    ensures Live(Apply(s, step))
  {
    var f, all := s.fronts[step.i], RectPoints(s.box);
    match step {
      case WriteReady(i) =>
        FrameWrittenWakes(f.(watched := false), s.waiting, all);
        PutKeepsLive(s, i, FrameWritten(f.(watched := false), s.waiting, all));
      case RequestFull(i) => ImmediateWakes(f, s.waiting, true, all); PutKeepsLive(s, i, Immediate(f, s.waiting, true, all));
      case AckFrame(i, frameId) => AcknowledgeWakes(f, s.waiting, frameId, all); PutKeepsLive(s, i, Acknowledge(f, s.waiting, frameId, all));
      case SuppressOutput(i, allow) => SuppressWakes(f, s.waiting, allow, all); PutKeepsLive(s, i, Suppress(f, s.waiting, allow, all));
      case Signalled(i, event) => SignalWakes(f, event, s.waiting); PutKeepsLive(s, i, Outcome(Signal(f, event), s.waiting));
      case RefreshRect(i, areas) =>
        RefreshWakes(f, areas, s.box, s.waiting);
        ImmediateWakes(RefreshAreas(f, areas, s.box), s.waiting, false, all);
        PutKeepsLive(s, i, Refresh(f, s.waiting, areas, s.box));
    }
  }

  lemma ApplyKeepsLive(s: Session, step: Step)
    requires Live(s) && Enabled(s, step)
    ensures Live(Apply(s, step))
  {
    match step {
      case BackendWrite(_) =>
      case SyncReply(_, _, _) => SyncReplyKeepsLive(s, step);
      case Timer(exceeded, progressive) =>
        OnTickWakes(exceeded, progressive, RectPoints(s.box));
        ForEachWakes(true, s.fronts, s.waiting, OnTick(exceeded, progressive, RectPoints(s.box)));
      case NewFramebuffer(box, _, clients, newSize) => ReattachAllWakes(s.fronts, box, clients, newSize);
      case Join(f) => JoinKeepsLive(s, f);
      case FramebufferKept => AttachAllWakes(s.fronts, RectPoints(s.box));
      case Leave(_) =>
      case WriteReady(_) =>
        if !Disconnects(s, step) {
          OneFrontKeepsLive(s, step);
        }
      case _ => OneFrontKeepsLive(s, step);
    }
  }

  lemma {:induction false} RunKeepsLive(s: Session, steps: seq<Step>)
    requires Live(s) && Possible(s, steps)
    ensures Live(After(s, steps))
    decreases |steps|
  {
    if steps != [] {
      ApplyKeepsLive(s, steps[0]);
      RunKeepsLive(Apply(s, steps[0]), steps[1..]);
    }
  }

  // ---------------------------------------------------------- main results

  /** In every run each viewer waits for something that is still to come. */
  lemma NoViewerIsStuck(s: Session, steps: seq<Step>, i: nat)
    requires Start(s) && Possible(s, steps) && i < |After(s, steps).fronts|
    ensures Wakeable(After(s, steps).fronts[i], After(s, steps).waiting)
  {
    RunKeepsLive(s, steps);
  }

  /** An acknowledgement of the newest frame ends the wait for acknowledgements. */
  lemma AcknowledgementMovesOn(f: Front, waiting: bool, all: set<Point>)
    requires Wakeable(f, waiting) && f.machine.current == WaitingAck
    ensures f.lastAckFrame + 1 < f.nextFrameId
    ensures Acknowledge(f, waiting, f.nextFrameId - 1, all).front.machine.current in {WaitingTimer, WaitingSyncReply}
  {}

  /** The outstanding reply ends the wait for it. */
  lemma ReplyMovesOn(f: Front, waiting: bool, fb: Screen, reported: set<Point>, s: Send)
    requires Wakeable(f, waiting) && f.machine.current == WaitingSyncReply
    ensures waiting && Receive(f, fb, reported, s).machine.current in {WaitingFrameSent, WaitingActiveOutput}
  {}

  /** The write event that is watched for ends the wait for written output. */
  lemma WrittenMovesOn(s: Session, i: nat)
    requires Live(s) && i < |s.fronts| && s.fronts[i].machine.current == WaitingFrameSent
    ensures Enabled(s, WriteReady(i)) && |Apply(s, WriteReady(i)).fronts| == |s.fronts|
    ensures Apply(s, WriteReady(i)).fronts[i].machine.current in {WaitingAck, WaitingTimer, WaitingSyncReply}
  {
    var f := s.fronts[i];
    if !WindowFull(f) {
      WaitTimerPhase(Signal(f.(watched := false), FrameSent), s.waiting, RectPoints(s.box));
    }
  }

  lemma WaitTimerPhase(f: Front, waiting: bool, all: set<Point>)
    requires f.machine.current == WaitingTimer
    ensures WaitTimer(f, waiting, all).front.machine.current in {WaitingTimer, WaitingSyncReply}
  {}

  /** Output that is allowed and has its channel ends the wait for active output, in either order. */
  lemma OutputMovesOn(f: Front, waiting: bool)
    requires Wakeable(f, waiting) && f.machine.current == WaitingActiveOutput
    ensures Signal(Signal(f, EnableOutput), StopWaitingGfx).machine.current == WaitingTimer
    ensures Signal(Signal(f, StopWaitingGfx), EnableOutput).machine.current == WaitingTimer
    ensures Signal(f, EnableOutput).machine.current == (if f.machine.waitingGraphicsPipeline then WaitingActiveOutput else WaitingTimer)
    ensures Signal(f, StopWaitingGfx).machine.current == (if f.machine.outputSuppressed then WaitingActiveOutput else WaitingTimer)
  {}

  lemma RoomMovesOn(f: Front, waiting: bool, frameId: nat, all: set<Point>)
    requires Wakeable(f, waiting) && f.machine.current == WaitingAck
    ensures Acknowledge(f, waiting, frameId, all).front.machine.current == WaitingAck
            <==> frameId <= f.lastAckFrame || WindowFull(f.(lastAckFrame := frameId))
  {
    if frameId > f.lastAckFrame && !WindowFull(f.(lastAckFrame := frameId)) {
      WaitTimerPhase(Signal(Acked(f, frameId), FrameAckReceived), waiting, all);
    }
  }

  /** From any reachable state, exactly the acknowledgements that make room move a waiting viewer on. */
  lemma OnlyRoomMovesOn(s: Session, steps: seq<Step>, i: nat, frameId: nat)
    requires Start(s) && Possible(s, steps) && i < |After(s, steps).fronts|
    requires After(s, steps).fronts[i].machine.current == WaitingAck
    ensures var t := After(s, steps);
            var f, g := t.fronts[i], Apply(t, AckFrame(i, frameId)).fronts[i];
            g.machine.current == WaitingAck <==> frameId <= f.lastAckFrame || WindowFull(f.(lastAckFrame := frameId))
  {
    NoViewerIsStuck(s, steps, i);
    var t := After(s, steps);
    RoomMovesOn(t.fronts[i], t.waiting, frameId, RectPoints(t.box));
  }

  // -------------------------------------------- when a write event disconnects

  /** A write event, if one comes, will be taken as the end of a frame. */
  predicate WriteExpected(f: Front) {
    f.watched ==> Get(f.machine) == WaitingFrameSent
  }

  /** A write event closes the connection if and only if it is not expected. */
  lemma WriteEventDisconnects(s: Session, i: nat)
    requires Enabled(s, WriteReady(i))
    ensures Apply(s, WriteReady(i)) == Without(s, i) <==> !WriteExpected(s.fronts[i])
  {
    assert |Without(s, i).fronts| < |s.fronts|;
  }

  /** A forced request makes the write event of blocked output unexpected, and no other one. */
  lemma ImmediateSpoils(f: Front, waiting: bool, setDamage: bool, all: set<Point>)
    requires WriteExpected(f)
    ensures WriteExpected(Immediate(f, waiting, setDamage, all).front) <==> !f.watched
  {}

  /**
    After a reply: blocked output is expected only if this viewer was sent a frame, and a socket that
    was still watched makes trouble once its output is not blocked any more.
  */
  lemma ReplySpoils(blocked: seq<bool>, all: set<Point>, i: nat, f: Front, waiting: bool)
    requires i < |blocked|
    ensures WriteExpected(OnWritten(blocked, all)(i, f, waiting).front)
            <==> if blocked[i] then Get(f.machine) == WaitingFrameSent else !f.watched
  {
    if !blocked[i] && Get(f.machine) == WaitingFrameSent && !WindowFull(f) {
      WaitTimerPhase(Signal(f, FrameSent), waiting, all);
    }
  }

  /** The events that take a viewer out of the wait for written output. */
  predicate Moves(e: Event) {
    e in {BackendAttached, RewireOriginal, TriggerRewire, BackendSwitch, NewShadowing, RewireError}
  }

  /** A step that leaves viewer i with a write event it does not expect, by what holds before it. */
  predicate Spoils(s: Session, step: Step, i: nat)
    requires i < |s.fronts|
  {
    var f := s.fronts[i];
    match step
    case SyncReply(_, _, blocked) => i < |blocked| && if blocked[i] then !f.watched && !Sends(f) else f.watched
    case RequestFull(j) => j == i && f.watched
    case RefreshRect(j, areas) => j == i && areas != [] && f.watched
    case Signalled(j, event) => j == i && Moves(event) && f.watched
    case NewFramebuffer(_, _, _, _) => f.watched
    case FramebufferKept => f.watched
    case _ => false
  }

  /** Neither the watch nor the wait for written output changes. */
  predicate SameWatch(f: Front, g: Front) {
    g.watched == f.watched && (Get(f.machine) == WaitingFrameSent <==> Get(g.machine) == WaitingFrameSent)
  }

  lemma WaitTimerWatch(f: Front, waiting: bool, all: set<Point>)
    ensures SameWatch(f, WaitTimer(f, waiting, all).front)
  {}

  lemma AgainWatch(f: Front, waiting: bool, all: set<Point>)
    requires Get(f.machine) == WaitingSyncReply
    ensures SameWatch(f, Immediate(f, waiting, false, all).front)
  {}

  lemma TimerSignalsWatch(f: Front, exceeded: bool)
    ensures SameWatch(f, Signal(Signal(f, FrameTimer), if exceeded then BandwidthFail else BandwidthGood))
  {}

  lemma TickWatch(f: Front, waiting: bool, exceeded: bool, progressive: bool, all: set<Point>)
    ensures SameWatch(f, Tick(f, waiting, exceeded, progressive, all).front)
  {
    TimerSignalsWatch(f, exceeded);
    var h := Signal(Signal(f, FrameTimer), BandwidthGood);
    if progressive && Get(h.machine) == WaitingSyncReply {
      AgainWatch(h, waiting, all);
    }
    var o := if progressive && Get(h.machine) == WaitingSyncReply then Immediate(h, waiting, false, all) else Outcome(h, waiting);
    WaitTimerWatch(o.front, o.waiting, all);
  }

  lemma ReattachWatch(f: Front, waiting: bool, box: Rect, client: Screen, newSize: bool)
    ensures var g := Reattach(f, waiting, box, client, newSize).front; g.watched == f.watched && Get(g.machine) != WaitingFrameSent
  {
    WaitTimerWatch(Signal(f.(view := Blank(box), damage := {}, client := client), BackendAttached), waiting, RectPoints(box));
  }

  lemma AllSpoil(s: Session, step: Step, i: nat)
    requires (step.Timer? || step.NewFramebuffer? || step.FramebufferKept?) && Enabled(s, step)
    requires i < |s.fronts| && WriteExpected(s.fronts[i])
    ensures WriteExpected(Apply(s, step).fronts[i]) <==> !Spoils(s, step, i)
  {
    var f, all := s.fronts[i], RectPoints(s.box);
    match step {
      case Timer(exceeded, progressive) =>
        var w := ForEachFront(s.fronts, s.waiting, OnTick(exceeded, progressive, all), i);
        TickWatch(f, w, exceeded[i], progressive[i], all);
      case NewFramebuffer(box, _, clients, newSize) =>
        var w := ForEachFront(s.fronts, false, OnReattach(box, clients, newSize), i);
        ReattachWatch(f, w, box, clients[i], newSize);
      case FramebufferKept =>
        var w := ForEachFront(s.fronts, false, OnAttach(all), i);
        WaitTimerWatch(Signal(f, BackendAttached), w, all);
    }
  }

  lemma ReceiveWatch(f: Front, fb: Screen, reported: set<Point>, s: Send)
    ensures var g := Receive(f, fb, reported, s);
            g.watched == f.watched && (Get(g.machine) == WaitingFrameSent <==> Get(f.machine) == WaitingFrameSent || Sends(f))
  {}

  lemma ReplySpoilsOne(s: Session, step: Step, i: nat)
    requires Live(s) && step.SyncReply? && Enabled(s, step) && i < |s.fronts| && WriteExpected(s.fronts[i])
    ensures WriteExpected(Apply(s, step).fronts[i]) <==> !Spoils(s, step, i)
  {
    var f, w := ReplyFront(s, step, i);
    ReceiveWatch(s.fronts[i], s.fb, Reported(step.rects, s.box), step.sends[i]);
    ReplySpoils(step.blocked, RectPoints(s.box), i, f, w);
  }

  lemma AcknowledgeWatch(f: Front, waiting: bool, frameId: nat, all: set<Point>)
    ensures var g := Acknowledge(f, waiting, frameId, all).front;
            g.watched == f.watched && (Get(f.machine) == WaitingFrameSent ==> Get(g.machine) == WaitingFrameSent)
  {
    WaitTimerWatch(Signal(Acked(f, frameId), FrameAckReceived), waiting, all);
  }

  lemma SuppressWatch(f: Front, waiting: bool, allow: bool, all: set<Point>)
    ensures var g := Suppress(f, waiting, allow, all).front;
            g.watched == f.watched && (Get(f.machine) == WaitingFrameSent ==> Get(g.machine) == WaitingFrameSent)
  {
    WaitTimerWatch(Signal(f, EnableOutput), waiting, all);
  }

  lemma WrittenWatch(f: Front, waiting: bool, all: set<Point>)
    ensures FrameWritten(f, waiting, all).front.watched == f.watched
  {
    WaitTimerWatch(Signal(f, FrameSent), waiting, all);
  }

  lemma OneSpoils(s: Session, step: Step)
    requires (PacesOne(s, step) || step.RefreshRect?) && Enabled(s, step) && WriteExpected(s.fronts[step.i])
    ensures WriteExpected(Apply(s, step).fronts[step.i]) <==> !Spoils(s, step, step.i)
  {
    var f, all := s.fronts[step.i], RectPoints(s.box);
    match step {
      case WriteReady(_) => WrittenWatch(f.(watched := false), s.waiting, all);
      case RequestFull(_) => ImmediateSpoils(f, s.waiting, true, all);
      case AckFrame(_, frameId) => AcknowledgeWatch(f, s.waiting, frameId, all);
      case SuppressOutput(_, allow) => SuppressWatch(f, s.waiting, allow, all);
      case Signalled(_, event) =>
      case RefreshRect(_, areas) =>
        RefreshKeepsPace(f, areas, s.box);
        ImmediateSpoils(RefreshAreas(f, areas, s.box), s.waiting, false, all);
    }
  }

  /** Every step, exactly: whether a viewer that expects its write event still does. */
  lemma SpoiledExactly(s: Session, step: Step, i: nat)
    requires Live(s) && Enabled(s, step) && i < |s.fronts| && !ClosesOf(s, step, i) && WriteExpected(s.fronts[i])
    ensures Place(s, step, i) < |Apply(s, step).fronts|
    ensures WriteExpected(Apply(s, step).fronts[Place(s, step, i)]) <==> !Spoils(s, step, i)
  {
    HasPlace(s, step, i);
    if Closes(s, step) {
      ClosingMoves(s, step, i);
    } else if step.SyncReply? {
      ReplySpoilsOne(s, step, i);
    } else if step.Timer? || step.NewFramebuffer? || step.FramebufferKept? {
      AllSpoil(s, step, i);
    } else if PacesOne(s, step) || step.RefreshRect? {
      if step.i == i {
        OneSpoils(s, step);
      } else {
        OthersStay(s, step, i);
      }
    }
  }

  /** A run in which viewer i does not leave and no step spoils its write event. */
  ghost predicate Unspoiled(s: Session, steps: seq<Step>, i: nat)
    requires Possible(s, steps)
    decreases |steps|
  {
    steps == [] ||
    (i < |s.fronts| && steps[0] != Leave(i) && !Spoils(s, steps[0], i)
     && Unspoiled(Apply(s, steps[0]), steps[1..], Place(s, steps[0], i)))
  }

  /** In such a run no write event closes the viewer's connection. */
  lemma {:induction false} StaysConnected(s: Session, steps: seq<Step>, i: nat)
    requires Live(s) && Possible(s, steps) && i < |s.fronts| && WriteExpected(s.fronts[i]) && Unspoiled(s, steps, i)
    ensures Connected(s, steps, i) && PlaceAfter(s, steps, i) < |After(s, steps).fronts|
    ensures WriteExpected(After(s, steps).fronts[PlaceAfter(s, steps, i)])
    decreases |steps|
  {
    if steps != [] {
      assert !ClosesOf(s, steps[0], i);
      SpoiledExactly(s, steps[0], i);
      ApplyKeepsLive(s, steps[0]);
      StaysConnected(Apply(s, steps[0]), steps[1..], Place(s, steps[0], i));
    }
  }

  /** A viewer whose output is blocked loses its connection by asking for a refresh. */
  lemma RefreshDisconnects(s: Session, i: nat, areas: seq<Area>)
    requires Live(s) && i < |s.fronts| && s.fronts[i].machine.current == WaitingFrameSent && areas != []
    ensures var t := Apply(s, RefreshRect(i, areas));
            Enabled(t, WriteReady(i)) && Apply(t, WriteReady(i)).fronts == s.fronts[..i] + s.fronts[i + 1..]
  {
    var f := s.fronts[i];
    RefreshKeepsPace(f, areas, s.box);
    var t := Apply(s, RefreshRect(i, areas));
    assert t.fronts[i].watched && t.fronts[i].machine.current == WaitingSyncReply;
    assert t.fronts[..i] == s.fronts[..i] && t.fronts[i + 1..] == s.fronts[i + 1..];
  }
}
