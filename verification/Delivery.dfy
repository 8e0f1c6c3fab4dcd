/**
  What reaches the clients (rdp-server/frontend.c, graphics.c): a refresh request is answered by the next
  frame, a reply takes a frame number exactly when there is something to send, and a viewer that suppressed
  its output, is being resized or moves away gets nothing.
*/
module Delivery {
  import opened Common
  import opened Regions
  import opened TileDiff
  import opened FrameState
  import opened Fronts

  // ------------------------------------------------------ refresh requests

  /** A pixel that one of the areas asks for; an area that ends at 0xFFFF asks for nothing. */
  ghost predicate Wanted(areas: seq<Area>, box: Rect, p: Point) {
    exists k :: 0 <= k < |areas| && p in Requested(areas[k], box) && areas[k].right != 0xFFFF && areas[k].bottom != 0xFFFF
  }

  ghost predicate AreAreas(areas: seq<Area>) {
    forall k :: 0 <= k < |areas| ==> IsArea(areas[k])
  }

  lemma AreaTouches(f: Front, a: Area, box: Rect, p: Point)
    requires IsArea(a) && box.left == box.top == 0 && p in RectPoints(box) && p in f.view
    ensures var g, asked := RefreshArea(f, a, box), p in Requested(a, box) && a.right != 0xFFFF && a.bottom != 0xFFFF;
            p in g.view && g.view[p] == (if asked then BLANK else f.view[p]) && (p in g.damage <==> p in f.damage || asked)
  {
    if a.right != 0xFFFF && a.bottom != 0xFFFF {
      assert (a.right + 1) % 0x1_0000 == a.right + 1 && (a.bottom + 1) % 0x1_0000 == a.bottom + 1;
    } else {
      assert a.right == 0xFFFF ==> (a.right + 1) % 0x1_0000 == 0;
      assert a.bottom == 0xFFFF ==> (a.bottom + 1) % 0x1_0000 == 0;
    }
  }

  lemma WantedSnoc(areas: seq<Area>, box: Rect, p: Point)
    requires areas != []
    ensures var n := |areas| - 1;
            Wanted(areas, box, p) <==>
              Wanted(areas[..n], box, p) || (p in Requested(areas[n], box) && areas[n].right != 0xFFFF && areas[n].bottom != 0xFFFF)
  {
    var n := |areas| - 1;
    var front := areas[..n];
    if Wanted(front, box, p) {
      var k :| 0 <= k < |front| && p in Requested(front[k], box) && front[k].right != 0xFFFF && front[k].bottom != 0xFFFF;
      assert areas[k] == front[k];
    }
    if Wanted(areas, box, p) {
      var k :| 0 <= k < |areas| && p in Requested(areas[k], box) && areas[k].right != 0xFFFF && areas[k].bottom != 0xFFFF;
      assert k < n ==> front[k] == areas[k];
    }
  }

  lemma {:induction false} AreasTouch(f: Front, areas: seq<Area>, box: Rect, p: Point)
    requires AreAreas(areas) && box.left == box.top == 0 && p in RectPoints(box) && p in f.view
    ensures var g := RefreshAreas(f, areas, box);
            && p in g.view && g.view[p] == (if Wanted(areas, box, p) then BLANK else f.view[p])
            && (p in g.damage <==> p in f.damage || Wanted(areas, box, p))
  {
    if areas != [] {
      var n := |areas| - 1;
      AreasTouch(f, areas[..n], box, p);
      AreaTouches(RefreshAreas(f, areas[..n], box), areas[n], box, p);
      WantedSnoc(areas, box, p);
    }
  }

  lemma ImmediateKeepsView(f: Front, waiting: bool, all: set<Point>)
    ensures var g := Immediate(f, waiting, false, all).front; g.view == f.view && g.damage == f.damage && g.client == f.client
  {}

  /** A refresh makes exactly the wanted pixels unknown and damaged, and leaves all others alone. */
  lemma RefreshTouches(s: Session, i: nat, areas: seq<Area>, p: Point)
    requires Ok(s) && Enabled(s, RefreshRect(i, areas)) && AreAreas(areas) && p in RectPoints(s.box)
    ensures var f, g := s.fronts[i], Apply(s, RefreshRect(i, areas)).fronts[i];
            && p in f.view && p in g.view && g.view[p] == (if Wanted(areas, s.box, p) then BLANK else f.view[p])
            && (p in g.damage <==> p in f.damage || Wanted(areas, s.box, p))
  {
    var f := s.fronts[i];
    assert FrontOk(f, s.box, s.fb, s.unreported);
    AreasTouch(f, areas, s.box, p);
    ImmediateKeepsView(RefreshAreas(f, areas, s.box), s.waiting, RectPoints(s.box));
  }

  /** A pixel that is damaged and of which nothing is known. */
  predicate Due(f: Front, p: Point) {
    p in f.damage && p in f.view && f.view[p] == BLANK
  }

  lemma {:induction false} RefreshKeepsBlank(f: Front, areas: seq<Area>, box: Rect, p: Point)
    requires p in f.view && f.view[p] == BLANK
    ensures var g := RefreshAreas(f, areas, box); p in g.view && g.view[p] == BLANK
  {
    if areas != [] {
      RefreshKeepsBlank(f, areas[..|areas| - 1], box, p);
    }
  }

  lemma ReceiveWithoutSend(f: Front, fb: Screen, reported: set<Point>, s: Send)
    requires !Sends(f)
    ensures Receive(f, fb, reported, s).view == f.view
  {}

  lemma RefreshKeepsDue(s: Session, step: Step, i: nat, p: Point)
    requires step.RefreshRect? && Enabled(s, step) && i < |s.fronts| && p in s.fronts[i].view && s.fronts[i].view[p] == BLANK
    ensures var g := Apply(s, step).fronts[i]; p in g.view && g.view[p] == BLANK
  {
    var f := s.fronts[step.i];
    if step.i == i {
      RefreshKeepsBlank(f, step.areas, s.box, p);
      ImmediateKeepsView(RefreshAreas(f, step.areas, s.box), s.waiting, RectPoints(s.box));
    }
  }

  /** It stays so until the viewer sends. */
  lemma StaysBlank(s: Session, step: Step, i: nat, p: Point)
    requires Ok(s) && Enabled(s, step) && i < |s.fronts| && Undisturbed(s, step, i)
    requires p in s.fronts[i].view && s.fronts[i].view[p] == BLANK && Place(s, step, i) < |Apply(s, step).fronts|
    ensures var g := Apply(s, step).fronts[Place(s, step, i)]; p in g.view && g.view[p] == BLANK
  {
    if Closes(s, step) {
      ClosingMoves(s, step, i);
    } else if step.SyncReply? {
      var f := ReplyFrontKeepsOk(s, step, i);
      ReceiveWithoutSend(s.fronts[i], s.fb, Reported(step.rects, s.box), step.sends[i]);
    } else if step.Timer? {
      TimerPaces(s, step, i);
    } else if step.RefreshRect? {
      RefreshKeepsDue(s, step, i, p);
    } else if PacesOne(s, step) {
      PacedKeepsView(s, step, i);
    } else if step.FramebufferKept? {
      KeptPaces(s, i);
    }
  }

  lemma PacedKeepsView(s: Session, step: Step, i: nat)
    requires Ok(s) && PacesOne(s, step) && Enabled(s, step) && i < |s.fronts|
    ensures Apply(s, step).fronts[i].view == s.fronts[i].view
  {
    if step.i == i {
      OneFrontPaces(s, step);
    } else {
      OthersStay(s, step, i);
    }
  }

  lemma {:induction false} StaysDue(s: Session, steps: seq<Step>, i: nat, p: Point)
    requires Ok(s) && Possible(s, steps) && i < |s.fronts| && Waits(s, steps, i) && Due(s.fronts[i], p)
    ensures var t, j := After(s, steps), PlaceAfter(s, steps, i);
            Ok(t) && t.box == s.box && j < |t.fronts| && Due(t.fronts[j], p)
    decreases |steps|
  {
    if steps != [] {
      DamageGrows(s, steps[0], i);
      StaysBlank(s, steps[0], i, p);
      ApplyKeepsOk(s, steps[0]);
      StaysDue(Apply(s, steps[0]), steps[1..], Place(s, steps[0], i), p);
    }
  }

  lemma DueIsSent(f: Front, fb: Screen, reported: set<Point>, s: Send, p: Point)
    requires Due(f, p) && p in fb && fb[p] != BLANK && p in f.client && Sends(f) && SendOk(Consume(f, reported), fb, s)
    ensures var g := Receive(f, fb, reported, s);
            p in s.damage && p in g.client && g.client[p] == fb[p] && g.nextFrameId == f.nextFrameId + 1
  {
    assert p in Differing(f.view, fb, f.damage + reported);
  }

  lemma WrittenKeepsClient(f: Front, waiting: bool, all: set<Point>)
    ensures var g := FrameWritten(f, waiting, all).front; g.client == f.client && g.nextFrameId == f.nextFrameId
  {
    WaitTimerKeepsClient(Signal(f, FrameSent), waiting, all);
  }

  lemma WaitTimerKeepsClient(f: Front, waiting: bool, all: set<Point>)
    ensures var g := WaitTimer(f, waiting, all).front; g.client == f.client && g.nextFrameId == f.nextFrameId
  {}

  /**
    A refresh request is answered: whatever undisturbed run follows it, the viewer's next send takes a frame
    number, reports every wanted pixel as damage, and has its client show the framebuffer there.
  */
  lemma RefreshIsServed(s: Session, i: nat, areas: seq<Area>, steps: seq<Step>, reply: Step, p: Point)
    requires Ok(s) && Enabled(s, RefreshRect(i, areas)) && AreAreas(areas) && Wanted(areas, s.box, p)
    requires var t := Apply(s, RefreshRect(i, areas));
             && Possible(t, steps) && Waits(t, steps, i) && reply.SyncReply? && Enabled(After(t, steps), reply)
             && PlaceAfter(t, steps, i) < |After(t, steps).fronts| && Sends(After(t, steps).fronts[PlaceAfter(t, steps, i)])
    ensures var t := After(Apply(s, RefreshRect(i, areas)), steps);
            var u, j := Apply(t, reply), PlaceAfter(Apply(s, RefreshRect(i, areas)), steps, i);
            && j < |u.fronts| && p in reply.sends[j].damage
            && u.fronts[j].nextFrameId == t.fronts[j].nextFrameId + 1
            && p in u.fronts[j].client && p in u.fb && u.fronts[j].client[p] == u.fb[p]
  {
    var t0 := Apply(s, RefreshRect(i, areas));
    RefreshTouches(s, i, areas, p);
    ApplyKeepsOk(s, RefreshRect(i, areas));
    StaysDue(t0, steps, i, p);
    DueReplied(After(t0, steps), reply, PlaceAfter(t0, steps, i), p);
  }

  lemma DueReplied(t: Session, reply: Step, j: nat, p: Point)
    requires Ok(t) && reply.SyncReply? && Enabled(t, reply) && j < |t.fronts| && Sends(t.fronts[j])
    requires p in RectPoints(t.box) && Due(t.fronts[j], p)
    ensures var u := Apply(t, reply);
            && p in reply.sends[j].damage && u.fronts[j].nextFrameId == t.fronts[j].nextFrameId + 1
            && p in u.fronts[j].client && p in u.fb && u.fronts[j].client[p] == u.fb[p]
  {
    assert FrontOk(t.fronts[j], t.box, t.fb, t.unreported);
    var f, w := ReplyFront(t, reply, j);
    DueIsSent(t.fronts[j], t.fb, Reported(reply.rects, t.box), reply.sends[j], p);
    WrittenKeepsClient(f, w, RectPoints(t.box));
  }

  lemma ReceiveShows(f: Front, fb: Screen, reported: set<Point>, s: Send, p: Point)
    requires p in f.client && p in fb
    ensures var g := Receive(f, fb, reported, s);
            p in g.client && g.client[p] == if Sends(f) && (s.damage != {} || s.progressive) && p in s.sent then fb[p] else f.client[p]
  {}

  /** What a reply does to a client: it shows the pixels that are sent, and what it did elsewhere. */
  lemma ClientShows(s: Session, reply: Step, i: nat, p: Point)
    requires Ok(s) && reply.SyncReply? && Enabled(s, reply) && i < |s.fronts| && p in RectPoints(s.box)
    ensures var f, g, send := s.fronts[i], Apply(s, reply).fronts[i], reply.sends[i];
            && p in f.client && p in g.client && p in s.fb
            && g.client[p] == if Sends(f) && (send.damage != {} || send.progressive) && p in send.sent then s.fb[p] else f.client[p]
  {
    assert FrontOk(s.fronts[i], s.box, s.fb, s.unreported);
    var f, w := ReplyFront(s, reply, i);
    ReceiveShows(s.fronts[i], s.fb, Reported(reply.rects, s.box), reply.sends[i], p);
    WrittenKeepsClient(f, w, RectPoints(s.box));
  }

  /** An acknowledgement is never lost, whatever the viewer waits for, and never goes back. */
  lemma AcknowledgementCounts(s: Session, i: nat, frameId: nat)
    requires i < |s.fronts|
    ensures var f, g := s.fronts[i], Apply(s, AckFrame(i, frameId)).fronts[i];
            g.lastAckFrame == if frameId > f.lastAckFrame then frameId else f.lastAckFrame
  {
    var f, all := s.fronts[i], RectPoints(s.box);
    WaitTimerKeepsAck(Signal(Acked(f, frameId), FrameAckReceived), s.waiting, all);
  }

  lemma WaitTimerKeepsAck(f: Front, waiting: bool, all: set<Point>)
    ensures WaitTimer(f, waiting, all).front.lastAckFrame == f.lastAckFrame
  {}

  // -------------------------------------------------------- frame numbers

  /** Some pixel a reply finds damaged differs from what the viewer's client shows, or may. */
  ghost predicate Stale(s: Session, rects: seq<Rect>, i: nat)
    requires i < |s.fronts|
  {
    exists p :: p in s.fronts[i].view && p in s.fb && (p in s.fronts[i].damage || Listed(rects, s.box, p))
             && s.fronts[i].view[p] != s.fb[p]
  }

  lemma ReceiveNumbers(f: Front, fb: Screen, reported: set<Point>, s: Send)
    requires SendOk(Consume(f, reported), fb, s)
    ensures Receive(f, fb, reported, s).nextFrameId
         == f.nextFrameId + if Sends(f) && (s.progressive || Differing(f.view, fb, f.damage + reported) != {}) then 1 else 0
  {
    var g := Consume(f, reported);
    NothingDiffers(g.view, fb, g.damage, g.fullTiles, Absorb(g.view, fb, g.damage), s.damage);
  }

  /** A reply takes a frame number exactly when the viewer awaits it and something differs or a quality update is due. */
  lemma FrameExactly(s: Session, reply: Step, i: nat)
    requires reply.SyncReply? && Enabled(s, reply) && i < |s.fronts|
    ensures Apply(s, reply).fronts[i].nextFrameId == s.fronts[i].nextFrameId
            + if Sends(s.fronts[i]) && (reply.sends[i].progressive || Stale(s, reply.rects, i)) then 1 else 0
  {
    var f, reported := s.fronts[i], Reported(reply.rects, s.box);
    var g, w := ReplyFront(s, reply, i);
    ReceiveNumbers(f, s.fb, reported, reply.sends[i]);
    WrittenKeepsClient(g, w, RectPoints(s.box));
    StaleMeans(s, reply.rects, i);
  }

  lemma StaleMeans(s: Session, rects: seq<Rect>, i: nat)
    requires i < |s.fronts|
    ensures Stale(s, rects, i) <==> Differing(s.fronts[i].view, s.fb, s.fronts[i].damage + Reported(rects, s.box)) != {}
  {
    var f := s.fronts[i];
    var d := Differing(f.view, s.fb, f.damage + Reported(rects, s.box));
    if p :| p in d {
      ReportedMeans(rects, s.box, p);
    }
    if Stale(s, rects, i) {
      var p :| p in f.view && p in s.fb && (p in f.damage || Listed(rects, s.box, p)) && f.view[p] != s.fb[p];
      ReportedMeans(rects, s.box, p);
      assert p in d;
    }
  }

  // ------------------------------------------------------ nothing to be sent

  /** Who is sent a frame on a reply. */
  lemma SendsMeans(f: Front)
    ensures var m := f.machine;
            Sends(f) <==> m.current == WaitingSyncReply && !m.resizePending && !m.outputSuppressed && !m.waitingGraphicsPipeline
  {}

  /** Why a viewer may be sent nothing: it suppressed its output, is being resized, moves to another session, or its graphics channel is not open. */
  datatype Reason = Suppressed | Resizing | Moving | Unopened

  predicate Holds(why: Reason, f: Front) {
    match why
    case Suppressed => f.machine.outputSuppressed
    case Resizing => f.machine.resizePending
    case Moving => f.machine.current == EventloopMove
    case Unopened => f.machine.waitingGraphicsPipeline
  }

  /** The events that end it. */
  predicate Ends(why: Reason, e: Event) {
    match why
    case Suppressed => e == EnableOutput
    case Resizing => e == Resized
    case Moving => e in {BackendAttached, RewireOriginal, NewShadowing, RewireError, BackendSwitch}
    case Unopened => e == StopWaitingGfx
  }

  /** It goes on, and nothing is numbered or shown. */
  predicate Silent(why: Reason, f: Front, g: Front) {
    Holds(why, f) ==> Holds(why, g) && g.nextFrameId == f.nextFrameId && g.client == f.client
  }

  lemma SignalSilent(why: Reason, f: Front, e: Event)
    requires Spontaneous(f.machine, e) && !Ends(why, e)
    ensures Silent(why, f, Signal(f, e))
  {}

  lemma ImmediateSilent(why: Reason, f: Front, waiting: bool, setDamage: bool, all: set<Point>)
    ensures Silent(why, f, Immediate(f, waiting, setDamage, all).front)
  {}

  lemma WaitTimerSilent(why: Reason, f: Front, waiting: bool, all: set<Point>)
    ensures Silent(why, f, WaitTimer(f, waiting, all).front)
  {}

  lemma TickSilent(why: Reason, f: Front, waiting: bool, exceeded: bool, progressive: bool, all: set<Point>)
    ensures Silent(why, f, Tick(f, waiting, exceeded, progressive, all).front)
  {
    var g := Signal(f, FrameTimer);
    SignalSilent(why, f, FrameTimer);
    if exceeded {
      SignalSilent(why, g, BandwidthFail);
    } else {
      var h := Signal(g, BandwidthGood);
      SignalSilent(why, g, BandwidthGood);
      ImmediateSilent(why, h, waiting, false, all);
      var o := if progressive && Get(h.machine) == WaitingSyncReply then Immediate(h, waiting, false, all) else Outcome(h, waiting);
      WaitTimerSilent(why, o.front, o.waiting, all);
    }
  }

  lemma FrameWrittenSilent(why: Reason, f: Front, waiting: bool, all: set<Point>)
    ensures Silent(why, f, FrameWritten(f, waiting, all).front)
  {
    if Get(f.machine) == WaitingFrameSent && !WindowFull(f) {
      WaitTimerSilent(why, Signal(f, FrameSent), waiting, all);
    }
  }

  lemma AcknowledgeSilent(why: Reason, f: Front, waiting: bool, frameId: nat, all: set<Point>)
    ensures Silent(why, f, Acknowledge(f, waiting, frameId, all).front)
  {
    var g := Acked(f, frameId);
    if frameId > f.lastAckFrame && Get(g.machine) == WaitingAck && !WindowFull(g) {
      WaitTimerSilent(why, Signal(g, FrameAckReceived), waiting, all);
    }
  }

  lemma SuppressSilent(why: Reason, f: Front, waiting: bool, allow: bool, all: set<Point>)
    requires allow ==> why != Suppressed
    ensures Silent(why, f, Suppress(f, waiting, allow, all).front)
  {
    if allow {
      SignalSilent(why, f, EnableOutput);
      WaitTimerSilent(why, Signal(f, EnableOutput), waiting, all);
    } else {
      SignalSilent(why, f, DisableOutput);
    }
  }

  lemma RefreshSilent(why: Reason, f: Front, waiting: bool, areas: seq<Area>, box: Rect)
    ensures Silent(why, f, Refresh(f, waiting, areas, box).front)
  {
    RefreshKeepsPace(f, areas, box);
    ImmediateSilent(why, RefreshAreas(f, areas, box), waiting, false, RectPoints(box));
  }

  lemma ReceiveSilent(why: Reason, f: Front, fb: Screen, reported: set<Point>, s: Send)
    ensures Silent(why, f, Receive(f, fb, reported, s))
  {}

  lemma ReplySilent(why: Reason, s: Session, step: Step, i: nat)
    requires step.SyncReply? && Enabled(s, step) && i < |s.fronts|
    ensures Silent(why, s.fronts[i], Apply(s, step).fronts[i])
  {
    var f, w := ReplyFront(s, step, i);
    ReceiveSilent(why, s.fronts[i], s.fb, Reported(step.rects, s.box), step.sends[i]);
    FrameWrittenSilent(why, f, w, RectPoints(s.box));
  }

  lemma LoopSilent(why: Reason, s: Session, step: Step, i: nat)
    requires (step.Timer? || (step.FramebufferKept? && why != Moving)) && Enabled(s, step) && i < |s.fronts|
    ensures Silent(why, s.fronts[i], Apply(s, step).fronts[i])
  {
    var f, all := s.fronts[i], RectPoints(s.box);
    match step {
      case Timer(exceeded, progressive) =>
        var w := ForEachFront(s.fronts, s.waiting, OnTick(exceeded, progressive, all), i);
        TickSilent(why, f, w, exceeded[i], progressive[i], all);
      case FramebufferKept =>
        var w := ForEachFront(s.fronts, false, OnAttach(all), i);
        WaitTimerSilent(why, Signal(f, BackendAttached), w, all);
    }
  }

  /** The steps that end it for viewer i, or make the question a new one: a new framebuffer. */
  predicate Allows(why: Reason, step: Step, i: nat) {
    || step.NewFramebuffer?
    || (why == Suppressed && step == SuppressOutput(i, true))
    || (why == Moving && step.FramebufferKept?)
    || (step.Signalled? && step.i == i && Ends(why, step.event))
  }

  lemma OneSilent(why: Reason, s: Session, step: Step)
    requires (PacesOne(s, step) || step.RefreshRect?) && Enabled(s, step) && !Allows(why, step, step.i)
    ensures Silent(why, s.fronts[step.i], Apply(s, step).fronts[step.i])
  {
    var f, all := s.fronts[step.i], RectPoints(s.box);
    match step {
      case WriteReady(_) => FrameWrittenSilent(why, f.(watched := false), s.waiting, all);
      case RequestFull(_) => ImmediateSilent(why, f, s.waiting, true, all);
      case AckFrame(_, frameId) => AcknowledgeSilent(why, f, s.waiting, frameId, all);
      case SuppressOutput(_, allow) => SuppressSilent(why, f, s.waiting, allow, all);
      case Signalled(_, event) => SignalSilent(why, f, event);
      case RefreshRect(_, areas) => RefreshSilent(why, f, s.waiting, areas, s.box);
    }
  }

  lemma StepSilent(why: Reason, s: Session, step: Step, i: nat)
    requires Enabled(s, step) && i < |s.fronts| && !ClosesOf(s, step, i) && !Allows(why, step, i)
    ensures Place(s, step, i) < |Apply(s, step).fronts| && Silent(why, s.fronts[i], Apply(s, step).fronts[Place(s, step, i)])
  {
    HasPlace(s, step, i);
    if Closes(s, step) {
      ClosingMoves(s, step, i);
    } else if step.SyncReply? {
      ReplySilent(why, s, step, i);
    } else if step.Timer? || step.FramebufferKept? {
      LoopSilent(why, s, step, i);
    } else if PacesOne(s, step) || step.RefreshRect? {
      if step.i == i {
        OneSilent(why, s, step);
      } else {
        OthersStay(s, step, i);
      }
    }
  }

  /** A run in which viewer i stays and nothing ends it. */
  ghost predicate Quiet(why: Reason, s: Session, steps: seq<Step>, i: nat)
    requires Possible(s, steps)
    decreases |steps|
  {
    steps == [] ||
    (!ClosesOf(s, steps[0], i) && !Allows(why, steps[0], i) && Quiet(why, Apply(s, steps[0]), steps[1..], Place(s, steps[0], i)))
  }

  /** A viewer with a reason to be sent nothing is sent nothing, by any run, until the reason ends. */
  lemma {:induction false} RunSilent(why: Reason, s: Session, steps: seq<Step>, i: nat)
    requires Possible(s, steps) && i < |s.fronts| && Quiet(why, s, steps, i)
    ensures PlaceAfter(s, steps, i) < |After(s, steps).fronts|
    ensures Silent(why, s.fronts[i], After(s, steps).fronts[PlaceAfter(s, steps, i)])
    decreases |steps|
  {
    if steps != [] {
      StepSilent(why, s, steps[0], i);
      RunSilent(why, Apply(s, steps[0]), steps[1..], Place(s, steps[0], i));
    }
  }

  /** A client that suppresses its output is sent nothing until it allows it again. */
  lemma SuppressedGetsNothing(s: Session, i: nat, steps: seq<Step>)
    requires Enabled(s, SuppressOutput(i, false))
    requires Possible(Apply(s, SuppressOutput(i, false)), steps) && Quiet(Suppressed, Apply(s, SuppressOutput(i, false)), steps, i)
    ensures var t := Apply(s, SuppressOutput(i, false));
            var u, j := After(t, steps), PlaceAfter(t, steps, i);
            j < |u.fronts| && u.fronts[j].nextFrameId == s.fronts[i].nextFrameId && u.fronts[j].client == s.fronts[i].client
  {
    SuppressMutes(s, i);
    RunSilent(Suppressed, Apply(s, SuppressOutput(i, false)), steps, i);
  }

  lemma SuppressMutes(s: Session, i: nat)
    requires i < |s.fronts|
    ensures var t := Apply(s, SuppressOutput(i, false));
            && |t.fronts| == |s.fronts| && Holds(Suppressed, t.fronts[i])
            && t.fronts[i].nextFrameId == s.fronts[i].nextFrameId && t.fronts[i].client == s.fronts[i].client
  {}

  /** After a change of size nothing is numbered for a viewer until it has been resized. */
  lemma ResizedFirst(s: Session, step: Step, i: nat, steps: seq<Step>)
    requires step.NewFramebuffer? && step.newSize && Enabled(s, step) && i < |s.fronts|
    requires Possible(Apply(s, step), steps) && Quiet(Resizing, Apply(s, step), steps, i)
    ensures var t := Apply(s, step);
            var u, j := After(t, steps), PlaceAfter(t, steps, i);
            j < |u.fronts| && u.fronts[j].nextFrameId == s.fronts[i].nextFrameId
  {
    var w := ForEachFront(s.fronts, false, OnReattach(step.box, step.clients, step.newSize), i);
    ReattachResizes(s.fronts[i], w, step.box, step.clients[i]);
    RunSilent(Resizing, Apply(s, step), steps, i);
  }

  lemma ReattachResizes(f: Front, waiting: bool, box: Rect, client: Screen)
    ensures var g := Reattach(f, waiting, box, client, true).front; Holds(Resizing, g) && g.nextFrameId == f.nextFrameId
  {}

  /** Of all events exactly four take a machine with a pending resize from the timer: no request for a frame does. */
  lemma ResizeHoldsTimer(m: Machine, e: Event)
    requires m.resizePending && m.current == WaitingTimer
    ensures SetEvent(m, e).current != WaitingTimer <==> e in {SyncReplyReceived, FrameAckSend, TriggerRewire, BackendSwitch}
  {}

  /** Once it has, a tick with bandwidth asks for its next frame. */
  lemma ResizedGoesOn(f: Front, waiting: bool, progressive: bool, all: set<Point>)
    requires f.machine.current in {WaitingTimer, WaitingSyncReply} && !f.machine.outputSuppressed
    ensures var o := Tick(Signal(f, Resized), waiting, false, progressive, all); o.waiting && Get(o.front.machine) == WaitingSyncReply
  {
    TickAwaitsReply(Signal(f, Resized), waiting, progressive, all);
  }

  /** A viewer on its way to another session is sent nothing until it has arrived or come back. */
  lemma MovingGetsNothing(s: Session, i: nat, steps: seq<Step>)
    requires Enabled(s, Signalled(i, TriggerRewire))
    requires Possible(Apply(s, Signalled(i, TriggerRewire)), steps) && Quiet(Moving, Apply(s, Signalled(i, TriggerRewire)), steps, i)
    ensures var t := Apply(s, Signalled(i, TriggerRewire));
            var u, j := After(t, steps), PlaceAfter(t, steps, i);
            j < |u.fronts| && u.fronts[j].nextFrameId == s.fronts[i].nextFrameId && u.fronts[j].client == s.fronts[i].client
  {
    RunSilent(Moving, Apply(s, Signalled(i, TriggerRewire)), steps, i);
  }

  /** While its graphics channel is not open, a viewer is sent nothing. */
  lemma UnopenedGetsNothing(s: Session, i: nat, steps: seq<Step>)
    requires Enabled(s, Signalled(i, WaitingGfx))
    requires Possible(Apply(s, Signalled(i, WaitingGfx)), steps) && Quiet(Unopened, Apply(s, Signalled(i, WaitingGfx)), steps, i)
    ensures var t := Apply(s, Signalled(i, WaitingGfx));
            var u, j := After(t, steps), PlaceAfter(t, steps, i);
            j < |u.fronts| && u.fronts[j].nextFrameId == s.fronts[i].nextFrameId && u.fronts[j].client == s.fronts[i].client
  {
    RunSilent(Unopened, Apply(s, Signalled(i, WaitingGfx)), steps, i);
  }

  // ------------------------------------------------------- asking for frames

  /** One frame a tick: after a written frame the next one is asked for at once only if a tick has allowed it. */
  lemma NextFrameNeedsTick(f: Front, waiting: bool, all: set<Point>)
    requires Get(f.machine) == WaitingFrameSent && !WindowFull(f)
    ensures var o, m := FrameWritten(f, waiting, all), f.machine;
            if m.handleFrame && !m.outputSuppressed && !m.waitingForBandwidth
            then o.waiting && o.front.machine.current == WaitingSyncReply
            else o.waiting == waiting && o.front.machine == m.(current := WaitingTimer)
  {
    var g := Signal(f, FrameSent);
    if ShouldCreateFrame(g.machine) {
      WaitTimerAwaits(g, waiting, all);
    }
  }

  /** So after an acknowledgement that makes room. */
  lemma NextFrameNeedsTickToo(f: Front, waiting: bool, frameId: nat, all: set<Point>)
    requires Get(f.machine) == WaitingAck && frameId > f.lastAckFrame && !WindowFull(f.(lastAckFrame := frameId))
    ensures var o, m := Acknowledge(f, waiting, frameId, all), f.machine;
            if m.handleFrame && !m.outputSuppressed && !m.waitingForBandwidth
            then o.waiting && o.front.machine.current == WaitingSyncReply
            else o.waiting == waiting && o.front.machine == m.(current := WaitingTimer)
  {
    var g := Signal(Acked(f, frameId), FrameAckReceived);
    if ShouldCreateFrame(g.machine) {
      WaitTimerAwaits(g, waiting, all);
    }
  }

  /** A viewer that gets a backend, or its output back, asks for a frame without waiting for a tick. */
  lemma AttachedAsksAtOnce(f: Front, waiting: bool, all: set<Point>)
    requires !f.machine.resizePending && !f.machine.waitingForBandwidth
    ensures !f.machine.outputSuppressed ==>
              var o := Attach(f, waiting, all); o.waiting && Get(o.front.machine) == WaitingSyncReply
    ensures f.machine.current == WaitingActiveOutput && !f.machine.waitingGraphicsPipeline ==>
              var o := Suppress(f, waiting, true, all); o.waiting && Get(o.front.machine) == WaitingSyncReply
  {
    if !f.machine.outputSuppressed {
      WaitTimerAwaits(Signal(f, BackendAttached), waiting, all);
    }
    if f.machine.current == WaitingActiveOutput && !f.machine.waitingGraphicsPipeline {
      WaitTimerAwaits(Signal(f, EnableOutput), waiting, all);
    }
  }

  /**
    A request for damage is passed on at once in every phase between two frames, whatever it waits for; while a
    resize is pending, or without a backend, it only leaves its damage behind.
  */
  lemma RequestIsForwarded(s: Session, i: nat, step: Step)
    requires Enabled(s, step) && (step == RequestFull(i) || (step.RefreshRect? && step.i == i && step.areas != []))
    ensures i < |s.fronts| == |Apply(s, step).fronts|
    ensures Forwards(s.fronts[i].machine, s.waiting, Apply(s, step).fronts[i].machine, Apply(s, step).waiting)
  {
    var f, all := s.fronts[i], RectPoints(s.box);
    if step.RefreshRect? {
      RefreshKeepsPace(f, step.areas, s.box);
      ImmediateForwards(RefreshAreas(f, step.areas, s.box), s.waiting, false, all);
    } else {
      ImmediateForwards(f, s.waiting, true, all);
    }
  }

  predicate Forwards(m: Machine, waiting: bool, n: Machine, waits: bool) {
    if m.resizePending || m.current in {WaitingBackend, EventloopMove, WaitingResize} then n == m && waits == waiting
    else n == m.(current := WaitingSyncReply, handleFrame := true) && waits
  }

  lemma ImmediateForwards(f: Front, waiting: bool, setDamage: bool, all: set<Point>)
    ensures var o := Immediate(f, waiting, setDamage, all); Forwards(f.machine, waiting, o.front.machine, o.waiting)
  {
    ForceablePhases(f.machine);
  }

  lemma ForceablePhases(m: Machine)
    ensures Forceable(m) <==> !m.resizePending && m.current !in {WaitingBackend, EventloopMove, WaitingResize}
  {
    match m.current
    case WaitingBackend =>
    case WaitingTimer =>
    case WaitingSyncReply =>
    case WaitingActiveOutput =>
    case WaitingFrameSent =>
    case WaitingAck =>
    case EventloopMove =>
    case WaitingResize =>
  }

  /** A viewer that asks for a frame with damage pending need not wait for the timer before it asks again. */
  lemma PendingDamageGoesOn(f: Front, waiting: bool, all: set<Point>)
    requires ShouldCreateFrame(f.machine)
    ensures var o := WaitTimer(f, waiting, all); o.waiting && (o.front.machine.handleFrame <==> f.damage != {})
  {}

  /** A quality update asks again while a reply is awaited, also for a viewer with suppressed output. */
  lemma TickRetries(f: Front, waiting: bool, all: set<Point>)
    requires f.machine.current == WaitingSyncReply && !f.machine.resizePending
    ensures Tick(f, waiting, false, true, all).waiting
  {
    var h := Signal(Signal(f, FrameTimer), BandwidthGood);
    WaitTimerStillWaits(Immediate(h, waiting, false, all).front, all);
  }

  lemma WaitTimerStillWaits(f: Front, all: set<Point>)
    ensures WaitTimer(f, true, all).waiting
  {}

  /** Without bandwidth a tick asks for no frame. */
  lemma TickWithoutBandwidth(f: Front, waiting: bool, progressive: bool, all: set<Point>)
    ensures var o := Tick(f, waiting, true, progressive, all);
            && o.waiting == waiting && o.front.machine.current == f.machine.current && !ShouldCreateFrame(o.front.machine)
            && o.front.damage == f.damage && o.front.nextFrameId == f.nextFrameId
  {}
}
