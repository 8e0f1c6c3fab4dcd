/**
  The frame window over whole runs (rdp-server/frontend.c, peer.c): which steps let a viewer past its
  full window, what holds of a viewer that no step lets past it, and a run that exceeds the window.
*/
module FrameWindow {
  import opened Common
  import opened Regions
  import opened TileDiff
  import opened FrameState
  import opened Fronts

  /** A step that lets viewer i past its full window, by what holds before it. */
  predicate LetPast(s: Session, step: Step, i: nat)
    requires i < |s.fronts|
  {
    var f := s.fronts[i];
    && WindowFull(f) && !Paced(f.machine)
    && match step
       case RequestFull(j) => j == i && Forceable(f.machine)
       case RefreshRect(j, areas) => j == i && areas != [] && Forceable(f.machine)
       case Signalled(j, event) => j == i && Bypasses(event)
       case NewFramebuffer(_, _, _, _) => true
       case FramebufferKept => true
       case _ => false
  }

  // ------------------------------------------------- one step, one viewer

  /** The count goes up by one if past holds, and not at all otherwise. */
  predicate Counts(f: Front, g: Front, past: bool) {
    if past then g.forced == f.forced + 1 else g.forced <= f.forced
  }

  lemma ImmediateCounts(f: Front, waiting: bool, setDamage: bool, all: set<Point>)
    ensures Counts(f, Immediate(f, waiting, setDamage, all).front, WindowFull(f) && !Paced(f.machine) && Forceable(f.machine))
  {}

  lemma WaitTimerCounts(f: Front, waiting: bool, all: set<Point>)
    ensures WaitTimer(f, waiting, all).front.forced == f.forced
  {}

  lemma AttachCounts(f: Front, waiting: bool, all: set<Point>)
    ensures Counts(f, Attach(f, waiting, all).front, WindowFull(f) && !Paced(f.machine))
  {
    WaitTimerCounts(Signal(f, BackendAttached), waiting, all);
  }

  lemma ReattachCounts(f: Front, waiting: bool, box: Rect, client: Screen, newSize: bool)
    ensures Counts(f, Reattach(f, waiting, box, client, newSize).front, WindowFull(f) && !Paced(f.machine))
  {
    var g := Signal(f.(view := Blank(box), damage := {}, client := client), BackendAttached);
    WaitTimerCounts(g, waiting, RectPoints(box));
  }

  lemma TickCounts(f: Front, waiting: bool, exceeded: bool, progressive: bool, all: set<Point>)
    ensures Tick(f, waiting, exceeded, progressive, all).front.forced == f.forced
  {
    var h := Signal(Signal(f, FrameTimer), BandwidthGood);
    ImmediateCounts(h, waiting, false, all);
    var o := if progressive && Get(h.machine) == WaitingSyncReply then Immediate(h, waiting, false, all) else Outcome(h, waiting);
    WaitTimerCounts(o.front, o.waiting, all);
  }

  lemma FrameWrittenCounts(f: Front, waiting: bool, all: set<Point>)
    ensures FrameWritten(f, waiting, all).front.forced == f.forced
  {
    WaitTimerCounts(Signal(f, FrameSent), waiting, all);
  }

  lemma AcknowledgeCounts(f: Front, waiting: bool, frameId: nat, all: set<Point>)
    ensures Acknowledge(f, waiting, frameId, all).front.forced <= f.forced
  {
    WaitTimerCounts(Signal(Acked(f, frameId), FrameAckReceived), waiting, all);
  }

  lemma SuppressCounts(f: Front, waiting: bool, allow: bool, all: set<Point>)
    ensures Suppress(f, waiting, allow, all).front.forced == f.forced
  {
    WaitTimerCounts(Signal(f, EnableOutput), waiting, all);
  }

  lemma RefreshCounts(f: Front, waiting: bool, areas: seq<Area>, box: Rect)
    ensures Counts(f, Refresh(f, waiting, areas, box).front, WindowFull(f) && !Paced(f.machine) && areas != [] && Forceable(f.machine))
  {
    RefreshKeepsPace(f, areas, box);
    ImmediateCounts(RefreshAreas(f, areas, box), waiting, false, RectPoints(box));
  }

  lemma ReceiveCounts(f: Front, fb: Screen, reported: set<Point>, s: Send)
    ensures Receive(f, fb, reported, s).forced == f.forced
  {}

  lemma ReplyCounts(s: Session, step: Step, i: nat)
    requires step.SyncReply? && Enabled(s, step) && i < |s.fronts|
    ensures Apply(s, step).fronts[i].forced == s.fronts[i].forced
  {
    var f, w := ReplyFront(s, step, i);
    ReceiveCounts(s.fronts[i], s.fb, Reported(step.rects, s.box), step.sends[i]);
    FrameWrittenCounts(f, w, RectPoints(s.box));
  }

  /** The steps that handle all viewers. */
  lemma AllCounts(s: Session, step: Step, i: nat)
    requires (step.Timer? || step.NewFramebuffer? || step.FramebufferKept?) && Enabled(s, step) && i < |s.fronts|
    ensures Counts(s.fronts[i], Apply(s, step).fronts[i], LetPast(s, step, i))
  {
    var f, all := s.fronts[i], RectPoints(s.box);
    match step {
      case Timer(exceeded, progressive) =>
        var w := ForEachFront(s.fronts, s.waiting, OnTick(exceeded, progressive, all), i);
        TickCounts(f, w, exceeded[i], progressive[i], all);
      case NewFramebuffer(box, _, clients, newSize) =>
        var w := ForEachFront(s.fronts, false, OnReattach(box, clients, newSize), i);
        ReattachCounts(f, w, box, clients[i], newSize);
      case FramebufferKept =>
        var w := ForEachFront(s.fronts, false, OnAttach(all), i);
        AttachCounts(f, w, all);
    }
  }

  /** The steps that handle one viewer. */
  lemma OneCounts(s: Session, step: Step)
    requires (PacesOne(s, step) || step.RefreshRect?) && Enabled(s, step)
    ensures Counts(s.fronts[step.i], Apply(s, step).fronts[step.i], LetPast(s, step, step.i))
  {
    var f, all := s.fronts[step.i], RectPoints(s.box);
    match step {
      case WriteReady(_) => FrameWrittenCounts(f.(watched := false), s.waiting, all);
      case RequestFull(_) => ImmediateCounts(f, s.waiting, true, all);
      case AckFrame(_, frameId) => AcknowledgeCounts(f, s.waiting, frameId, all);
      case SuppressOutput(_, allow) => SuppressCounts(f, s.waiting, allow, all);
      case Signalled(_, event) =>
      case RefreshRect(_, areas) => RefreshCounts(f, s.waiting, areas, s.box);
    }
  }

  /** Exactly the steps above count, each once, and only for the viewer they let past its window. */
  lemma StepCounts(s: Session, step: Step, i: nat)
    requires Enabled(s, step) && i < |s.fronts| && !ClosesOf(s, step, i)
    ensures Place(s, step, i) < |Apply(s, step).fronts|
    ensures Counts(s.fronts[i], Apply(s, step).fronts[Place(s, step, i)], LetPast(s, step, i))
  {
    HasPlace(s, step, i);
    if Closes(s, step) {
      ClosingMoves(s, step, i);
    } else if step.SyncReply? {
      ReplyCounts(s, step, i);
    } else if step.Timer? || step.NewFramebuffer? || step.FramebufferKept? {
      AllCounts(s, step, i);
    } else if PacesOne(s, step) || step.RefreshRect? {
      if step.i == i {
        OneCounts(s, step);
      } else {
        OthersStay(s, step, i);
      }
    }
  }

  // -------------------------------------------------------- whole runs

  /** How often a run lets viewer i past its full window. */
  ghost function Passed(s: Session, steps: seq<Step>, i: nat): nat
    requires Possible(s, steps) && i < |s.fronts| && Connected(s, steps, i)
    decreases |steps|
  {
    if steps == [] then 0
    else
      HasPlace(s, steps[0], i);
      (if LetPast(s, steps[0], i) then 1 else 0) + Passed(Apply(s, steps[0]), steps[1..], Place(s, steps[0], i))
  }

  lemma {:induction false} RunCounts(s: Session, steps: seq<Step>, i: nat)
    requires Possible(s, steps) && i < |s.fronts| && Connected(s, steps, i)
    ensures PlaceAfter(s, steps, i) < |After(s, steps).fronts|
    ensures After(s, steps).fronts[PlaceAfter(s, steps, i)].forced <= s.fronts[i].forced + Passed(s, steps, i)
    decreases |steps|
  {
    if steps != [] {
      StepCounts(s, steps[0], i);
      RunCounts(Apply(s, steps[0]), steps[1..], Place(s, steps[0], i));
    }
  }

  /** Over any run the window is widened by at most the steps that let the viewer past it. */
  lemma WindowAlong(s: Session, steps: seq<Step>, i: nat)
    requires Ok(s) && Possible(s, steps) && i < |s.fronts| && Connected(s, steps, i)
    ensures PlaceAfter(s, steps, i) < |After(s, steps).fronts|
    ensures var f, past := After(s, steps).fronts[PlaceAfter(s, steps, i)], s.fronts[i].forced + Passed(s, steps, i);
            f.frameAcknowledge > 0 ==>
              && f.nextFrameId <= f.lastAckFrame + f.frameAcknowledge + 2 + past
              && (Paced(f.machine) ==> f.nextFrameId <= f.lastAckFrame + f.frameAcknowledge + 1 + past)
  {
    RunCounts(s, steps, i);
    RunKeepsOk(s, steps);
  }

  /** A viewer that joins with room in its window starts with nothing let past it. */
  lemma JoinCounts(s: Session, f: Front)
    requires Enabled(s, Join(f))
    ensures var g := Apply(s, Join(f)).fronts[|s.fronts|];
            g.forced == Brought(f) + if WindowFull(f) && !Paced(f.machine) then 1 else 0
    ensures !WindowFull(f) ==> Apply(s, Join(f)).fronts[|s.fronts|].forced == 0
  {
    var all := RectPoints(s.box);
    var g := Signal(f.(forced := Brought(f)), NewShadowing);
    ImmediateCounts(g, s.waiting, true, all);
    var o := Immediate(g, s.waiting, true, all);
    WaitTimerCounts(o.front, o.waiting, all);
  }

  /**
    The window itself, for a viewer that joins with room in it: in every run that never lets it past its
    full window, at most frameAcknowledge + 2 frame numbers are ahead of the last acknowledged one, and one
    less while the next frame is still to be made.
  */
  lemma UnforcedWindow(s: Session, f0: Front, steps: seq<Step>)
    requires Ok(s) && Enabled(s, Join(f0)) && !WindowFull(f0)
    requires var t := Apply(s, Join(f0));
             Possible(t, steps) && Connected(t, steps, |s.fronts|) && Passed(t, steps, |s.fronts|) == 0
    ensures var t := Apply(s, Join(f0));
            var u, j := After(t, steps), PlaceAfter(t, steps, |s.fronts|);
            j < |u.fronts| && (u.fronts[j].frameAcknowledge > 0 ==> InWindow(u.fronts[j]))
  {
    ApplyKeepsOk(s, Join(f0));
    JoinCounts(s, f0);
    WindowAlong(Apply(s, Join(f0)), steps, |s.fronts|);
  }

  // ------------------------------------------- a run that exceeds the window

  lemma {:induction false} RunThenStep(s: Session, steps: seq<Step>, step: Step)
    requires Possible(s, steps) && Enabled(After(s, steps), step)
    ensures Possible(s, steps + [step]) && After(s, steps + [step]) == Apply(After(s, steps), step)
    decreases |steps|
  {
    if steps == [] {
      assert steps + [step] == [step] && [step][1..] == [];
    } else {
      assert (steps + [step])[0] == steps[0] && (steps + [step])[1..] == steps[1..] + [step];
      RunThenStep(Apply(s, steps[0]), steps[1..], step);
    }
  }

  ghost predicate Reaches(s: Session, t: Session) {
    exists steps :: Possible(s, steps) && After(s, steps) == t
  }

  lemma ReachesStart(s: Session)
    ensures Reaches(s, s)
  {
    assert Possible(s, []) && After(s, []) == s;
  }

  lemma ReachesNext(s: Session, t: Session, step: Step)
    requires Reaches(s, t) && Enabled(t, step)
    ensures Reaches(s, Apply(t, step))
  {
    var steps :| Possible(s, steps) && After(s, steps) == t;
    RunThenStep(s, steps, step);
  }

  /** A viewer with a window of one frame that has acknowledged nothing, may send, and knows the framebuffer. */
  predicate Behind(f: Front, fb: Screen, next: nat) {
    && f.nextFrameId == next && f.lastAckFrame == 0 && f.frameAcknowledge == 1 && f.view == fb
    && !f.machine.resizePending && !f.machine.outputSuppressed && !f.machine.waitingGraphicsPipeline
  }

  lemma ImmediateStaysBehind(f: Front, waiting: bool, setDamage: bool, all: set<Point>, fb: Screen, next: nat)
    requires Behind(f, fb, next) && Forceable(f.machine)
    ensures var o := Immediate(f, waiting, setDamage, all);
            Behind(o.front, fb, next) && o.waiting && o.front.machine.current == WaitingSyncReply
  {}

  lemma WaitTimerStaysBehind(f: Front, waiting: bool, all: set<Point>, fb: Screen, next: nat)
    requires Behind(f, fb, next) && f.machine.current in {WaitingTimer, WaitingSyncReply}
    ensures var o := WaitTimer(f, waiting, all);
            && Behind(o.front, fb, next) && o.front.machine.current in {WaitingTimer, WaitingSyncReply}
            && (ShouldCreateFrame(f.machine) || (waiting && f.machine.current == WaitingSyncReply) ==>
                  o.waiting && o.front.machine.current == WaitingSyncReply)
  {
    if ShouldCreateFrame(f.machine) {
      ImmediateStaysBehind(Signal(f, SyncRequested), waiting, false, all, fb, next);
    }
  }

  /** A frame that is written at once waits for its acknowledgement from the third number on. */
  lemma WrittenStaysBehind(f: Front, waiting: bool, all: set<Point>, fb: Screen, next: nat)
    requires Behind(f, fb, next) && f.machine.current == WaitingFrameSent
    ensures var g := FrameWritten(f, waiting, all).front;
            Behind(g, fb, next) && g.machine.current in (if next > 2 then {WaitingAck} else {WaitingTimer, WaitingSyncReply})
  {
    if next <= 2 {
      WaitTimerStaysBehind(Signal(f, FrameSent), waiting, all, fb, next);
    }
  }

  lemma TickStaysBehind(f: Front, waiting: bool, all: set<Point>, fb: Screen, next: nat)
    requires Behind(f, fb, next) && f.machine.current in {WaitingTimer, WaitingSyncReply}
    ensures var o := Tick(f, waiting, false, false, all);
            Behind(o.front, fb, next) && o.waiting && o.front.machine.current == WaitingSyncReply
  {
    WaitTimerStaysBehind(Signal(Signal(f, FrameTimer), BandwidthGood), waiting, all, fb, next);
  }

  ghost predicate Lone(s: Session, next: nat, phases: set<Phase>) {
    && IsScreen(s.box, s.fb) && s.unreported == {} && |s.fronts| == 1
    && Behind(s.fronts[0], s.fb, next) && s.fronts[0].machine.current in phases
  }

  ghost predicate Awaiting(s: Session, next: nat) {
    Lone(s, next, {WaitingSyncReply}) && s.waiting
  }

  /** A viewer that shows the framebuffer. */
  function Newcomer(fb: Screen): Front {
    Front(Machine(WaitingTimer, false, false, false, false, false), 1, 0, 1, 0, false, false, fb, fb, {})
  }

  lemma NewcomerAwaits(s: Session) returns (t: Session)
    requires Start(s)
    ensures Reaches(s, t) && Awaiting(t, 1)
  {
    var f, all := Newcomer(s.fb), RectPoints(s.box);
    ReachesStart(s);
    ReachesNext(s, s, Join(f));
    t := Apply(s, Join(f));
    var g := Signal(f, NewShadowing);
    ImmediateStaysBehind(g, s.waiting, true, all, s.fb, 1);
    var o := Immediate(g, s.waiting, true, all);
    WaitTimerStaysBehind(o.front, o.waiting, all, s.fb, 1);
    assert f.(forced := Brought(f)) == f;
  }

  /** A reply without damage that brings a quality update, written at once. */
  const UPDATE := SyncReply([], [Send({}, {}, true)], [false])

  lemma NothingToSend(f: Front, fb: Screen)
    requires f.view == fb
    ensures Absorb(f.view, fb, f.damage) == fb && SendOk(f, fb, Send({}, {}, true))
  {
    assert Differing(f.view, fb, f.damage) == {};
  }

  lemma UpdateEnabled(s: Session, next: nat)
    requires Awaiting(s, next)
    ensures Enabled(s, UPDATE)
  {
    assert Reported([], s.box) == {};
    NothingToSend(Consume(s.fronts[0], {}), s.fb);
  }

  lemma ReceivedUpdate(f: Front, fb: Screen, next: nat)
    requires Behind(f, fb, next) && f.machine.current == WaitingSyncReply
    ensures var g := Receive(f, fb, {}, Send({}, {}, true)); Behind(g, fb, next + 1) && g.machine.current == WaitingFrameSent
  {
    NothingToSend(Consume(f, {}), fb);
  }

  /** Each reply takes a frame number. */
  lemma UpdateSent(s0: Session, s: Session, next: nat) returns (t: Session)
    requires Reaches(s0, s) && Awaiting(s, next)
    ensures Reaches(s0, t) && Lone(t, next + 1, if next >= 2 then {WaitingAck} else {WaitingTimer, WaitingSyncReply})
  {
    UpdateEnabled(s, next);
    ReachesNext(s0, s, UPDATE);
    t := Apply(s, UPDATE);
    var f, w := ReplyFront(s, UPDATE, 0);
    assert Reported([], s.box) == {};
    ReceivedUpdate(s.fronts[0], s.fb, next);
    WrittenStaysBehind(f, w, RectPoints(s.box), s.fb, next + 1);
  }

  const TICK := Timer([false], [false])

  lemma TickAwaits(s0: Session, s: Session, next: nat) returns (t: Session)
    requires Reaches(s0, s) && Lone(s, next, {WaitingTimer, WaitingSyncReply})
    ensures Reaches(s0, t) && Awaiting(t, next)
  {
    ReachesNext(s0, s, TICK);
    t := Apply(s, TICK);
    var h := OnTick([false], [false], RectPoints(s.box));
    assert ForEach(s.fronts[..0], s.waiting, h) == ([], s.waiting);
    TickStaysBehind(s.fronts[0], s.waiting, RectPoints(s.box), s.fb, next);
  }

  lemma RequestAwaits(s0: Session, s: Session, next: nat) returns (t: Session)
    requires Reaches(s0, s) && Lone(s, next, {WaitingAck})
    ensures Reaches(s0, t) && Awaiting(t, next)
  {
    ReachesNext(s0, s, RequestFull(0));
    t := Apply(s, RequestFull(0));
    ImmediateStaysBehind(s.fronts[0], s.waiting, true, RectPoints(s.box), s.fb, next);
  }

  /** From every new framebuffer: a viewer's full-screen request while it owes an acknowledgement exceeds the window. */
  lemma WindowExceeded(s: Session)
    requires Start(s)
    ensures exists t :: Reaches(s, t) && |t.fronts| == 1 && t.fronts[0].frameAcknowledge > 0 && !InWindow(t.fronts[0])
  {
    var t := NewcomerAwaits(s);
    t := UpdateSent(s, t, 1);
    t := TickAwaits(s, t, 2);
    t := UpdateSent(s, t, 2);
    t := RequestAwaits(s, t, 3);
    t := UpdateSent(s, t, 3);
  }
}
