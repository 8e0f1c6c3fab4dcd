/**
  Several viewers of one framebuffer (rdp-server/frontend.c, graphics.c, peer.c, encoder.c).

  A backend writes into a shared framebuffer while a sync request is outstanding and
  lists the damaged rectangles when it replies. Every front connection adds them to its
  own pending damage; the fronts that wait for the reply then compare their client view
  with the framebuffer and send what differs.
*/
module Fronts {
  import opened Common
  import opened Regions
  import opened TileDiff
  import opened FrameState

  /** The client view value that stands for "unknown": no backend pixel has it. */
  const BLANK: Pixel := 0x0101_0101

  /**
    A front connection with its encoder's client view and pending damage, and what its
    client shows. The flag watched: its socket is watched for write availability. The field
    forced is not in the C code: it counts the requests let past a full window since the
    window last had room or the viewer joined, and the frames it joined with beyond its window.
  */
  datatype Front = Front(machine: Machine, nextFrameId: nat, lastAckFrame: nat, frameAcknowledge: nat, forced: nat,
                         watched: bool, fullTiles: bool, view: Screen, client: Screen, damage: set<Point>)

  // --------------------------------------------------- the frame handlers

  /** The events that reach a paced phase without looking at the frame window. */
  predicate Bypasses(e: Event) {
    e in {BackendAttached, RewireOriginal, ImmediateRequest, NewShadowing, RewireError}
  }

  /** Frames in flight, by the frame numbers, use up the window. */
  predicate WindowFull(f: Front) {
    f.frameAcknowledge != 0 && f.lastAckFrame + f.frameAcknowledge + 1 < f.nextFrameId
  }

  function Signal(f: Front, e: Event): Front {
    var m := SetEvent(f.machine, e);
    f.(machine := m, forced := f.forced + if Bypasses(e) && !Paced(f.machine) && Paced(m) && WindowFull(f) then 1 else 0)
  }

  /** A front after a handler, and whether a sync reply is awaited from the backend. */
  datatype Outcome = Outcome(front: Front, waiting: bool)

  /** The phases in which initiate_immediate_request forces a sync request. */
  predicate Forceable(m: Machine) {
    Get(m) in {WaitingActiveOutput, WaitingAck, WaitingFrameSent, WaitingTimer, WaitingSyncReply}
  }

  /** initiate_immediate_request; all are the pixels of the screen. */
  function Immediate(f: Front, waiting: bool, setDamage: bool, all: set<Point>): Outcome {
    var g := if setDamage then f.(damage := all) else f;
    if Forceable(g.machine) then Outcome(Signal(g, ImmediateRequest), true) else Outcome(g, waiting)
  }

  /** handle_wait_timer_state */
  function WaitTimer(f: Front, waiting: bool, all: set<Point>): Outcome {
    if !ShouldCreateFrame(f.machine) then Outcome(f, waiting)
    else
      var g := Signal(f, SyncRequested);
      if Get(g.machine) != WaitingSyncReply then Outcome(g, waiting)
      else if g.damage != {} then Immediate(g, waiting, false, all)
      else Outcome(g, true)
  }

  /** frontend_handle_frame_sent */
  function FrameWritten(f: Front, waiting: bool, all: set<Point>): Outcome {
    if Get(f.machine) != WaitingFrameSent then Outcome(f, waiting)
    else if WindowFull(f) then Outcome(Signal(f, FrameAckSend), waiting)
    else WaitTimer(Signal(f, FrameSent), waiting, all)
  }

  /** Room in the window makes up for what was let past it. */
  function Acked(f: Front, frameId: nat): Front {
    var g := f.(lastAckFrame := frameId);
    if WindowFull(g) then g else g.(forced := 0)
  }

  /** ogon_rdpgfx_frame_acknowledge, without a change of the window */
  function Acknowledge(f: Front, waiting: bool, frameId: nat, all: set<Point>): Outcome {
    if frameId <= f.lastAckFrame then Outcome(f, waiting)
    else
      var g := Acked(f, frameId);
      if Get(g.machine) != WaitingAck || WindowFull(g) then Outcome(g, waiting)
      else WaitTimer(Signal(g, FrameAckReceived), waiting, all)
  }

  /** ogon_suppress_output */
  function Suppress(f: Front, waiting: bool, allow: bool, all: set<Point>): Outcome {
    if allow then WaitTimer(Signal(f, EnableOutput), waiting, all) else Outcome(Signal(f, DisableOutput), waiting)
  }

  /** handle_frame_timer_event, one front: progressive quality updates ask again while a reply is awaited. */
  function Tick(f: Front, waiting: bool, exceeded: bool, progressive: bool, all: set<Point>): Outcome {
    var g := Signal(f, FrameTimer);
    if exceeded then Outcome(Signal(g, BandwidthFail), waiting)
    else
      var h := Signal(g, BandwidthGood);
      var o := if progressive && Get(h.machine) == WaitingSyncReply then Immediate(h, waiting, false, all) else Outcome(h, waiting);
      WaitTimer(o.front, o.waiting, all)
  }

  // ------------------------------------------------------ the sync reply

  /**
    What one front sends: the damage found by the tile diff, the pixels the encoder copies
    to the client (it may enlarge the damage), and whether a quality update is due.
  */
  datatype Send = Send(damage: set<Point>, sent: set<Point>, progressive: bool)

  ghost predicate SendOk(f: Front, fb: Screen, s: Send) {
    && Diffed(f.view, fb, f.damage, f.fullTiles, Absorb(f.view, fb, f.damage), s.damage)
    && s.damage <= s.sent
  }

  /** ogon_send_surface_bits: no frame when nothing differs and no quality update is due. */
  function SendSurface(f: Front, fb: Screen, s: Send): Front {
    var g := f.(view := Absorb(f.view, fb, f.damage), damage := {});
    if s.damage == {} && !s.progressive then g
    else g.(client := Absorb(f.client, fb, s.sent), nextFrameId := f.nextFrameId + 1)
  }

  /** ogon_backend_consume_damage: rectangles that are empty or leave the screen are skipped. */
  function Reported(rects: seq<Rect>, box: Rect): set<Point> {
    if rects == [] then {}
    else Reported(rects[..|rects| - 1], box) + if RectWithin(rects[|rects| - 1], box) then RectPoints(rects[|rects| - 1]) else {}
  }

  /** A pixel of a rectangle in the backend's list that lies on the screen. */
  ghost predicate Listed(rects: seq<Rect>, box: Rect, p: Point) {
    exists i :: 0 <= i < |rects| && RectWithin(rects[i], box) && Inside(rects[i], p)
  }

  function Consume(f: Front, reported: set<Point>): Front {
    f.(damage := f.damage + reported)
  }

  predicate Sends(f: Front) {
    Get(f.machine) == WaitingSyncReply && Get(SetEvent(f.machine, SyncReplyReceived)) != WaitingActiveOutput
  }

  /** The first loop of frontend_handle_sync_reply, one front. */
  function Receive(f: Front, fb: Screen, reported: set<Point>, s: Send): Front {
    var g := Consume(f, reported);
    if Get(g.machine) != WaitingSyncReply then g
    else
      var h := Signal(g, SyncReplyReceived);
      if Get(h.machine) == WaitingActiveOutput then h else SendSurface(h, fb, s)
  }

  // ------------------------------------------------------ refresh requests

  /** A client's rectangle: 16-bit, right and bottom included. */
  datatype Area = Area(left: nat, top: nat, right: nat, bottom: nat)

  predicate IsArea(a: Area) {
    a.left < 0x1_0000 && a.top < 0x1_0000 && a.right < 0x1_0000 && a.bottom < 0x1_0000
  }

  /** The part of ogon_refresh_rect that makes an area half-open and clips it; right + 1 and bottom + 1 wrap. */
  function Refreshed(a: Area, box: Rect): Rect {
    if a.right < a.left || a.bottom < a.top then Rect(0, 0, 0, 0)
    else Rect(a.left, a.top, Min((a.right + 1) % 0x1_0000, box.right), Min((a.bottom + 1) % 0x1_0000, box.bottom))
  }

  function Blanked(v: Screen, s: set<Point>): Screen {
    map p | p in v.Keys :: if p in s then BLANK else v[p]
  }

  function RefreshArea(f: Front, a: Area, box: Rect): Front {
    var s := RectPoints(Refreshed(a, box));
    f.(damage := f.damage + s, view := Blanked(f.view, s))
  }

  function RefreshAreas(f: Front, areas: seq<Area>, box: Rect): Front {
    if areas == [] then f else RefreshArea(RefreshAreas(f, areas[..|areas| - 1], box), areas[|areas| - 1], box)
  }

  /** ogon_refresh_rect */
  function Refresh(f: Front, waiting: bool, areas: seq<Area>, box: Rect): Outcome {
    if areas == [] then Outcome(f, waiting) else Immediate(RefreshAreas(f, areas, box), waiting, false, RectPoints(box))
  }

  // ----------------------------------------------------------- the session

  /**
    The screen box and framebuffer, the pixels the backend has written since its last reply,
    whether a reply is awaited, and the front connections.
  */
  datatype Session = Session(box: Rect, fb: Screen, unreported: set<Point>, waiting: bool, fronts: seq<Front>)

  /** A handler applied to every front in turn; each may change whether a reply is awaited. */
  function ForEach(fronts: seq<Front>, waiting: bool, h: (nat, Front, bool) -> Outcome): (r: (seq<Front>, bool))
    ensures |r.0| == |fronts|
  {
    if fronts == [] then ([], waiting)
    else
      var n := |fronts| - 1;
      var (before, w) := ForEach(fronts[..n], waiting, h);
      var o := h(n, fronts[n], w);
      (before + [o.front], o.waiting)
  }

  function ReceiveAll(fronts: seq<Front>, fb: Screen, reported: set<Point>, sends: seq<Send>): (r: seq<Front>)
    requires |sends| == |fronts|
    ensures |r| == |fronts|
  {
    seq(|fronts|, i requires 0 <= i < |fronts| => Receive(fronts[i], fb, reported, sends[i]))
  }

  datatype Step =
    | BackendWrite(writes: Screen)
    | SyncReply(rects: seq<Rect>, sends: seq<Send>, blocked: seq<bool>)
    | WriteReady(i: nat)
    | RefreshRect(i: nat, areas: seq<Area>)
    | RequestFull(i: nat)
    | AckFrame(i: nat, frameId: nat)
    | SuppressOutput(i: nat, allow: bool)
    | Timer(exceeded: seq<bool>, progressive: seq<bool>)
    | Signalled(i: nat, event: Event)
    | NewFramebuffer(box: Rect, fb: Screen, clients: seq<Screen>, newSize: bool)
    | FramebufferKept
    | Join(front: Front)
    | Leave(i: nat)

  predicate IsScreen(box: Rect, s: Screen) {
    s.Keys == RectPoints(box)
  }

  predicate NoBlank(s: Screen) {
    forall p :: p in s ==> s[p] != BLANK
  }

  /** A non-blank client view pixel is what the client shows. */
  ghost predicate Truthful(f: Front) {
    forall p :: p in f.view && p in f.client && f.view[p] != BLANK ==> f.view[p] == f.client[p]
  }

  /** The events other code raises by itself; a resize is only triggered on the way to or right after an attached backend. */
  predicate Spontaneous(m: Machine, e: Event) {
    && e !in {SyncReplyReceived, SyncRequested, FrameSent, FrameAckReceived, FrameAckSend, ImmediateRequest}
    && (e == TriggerResize ==> m.current in {WaitingBackend, WaitingTimer})
  }

  ghost predicate Enabled(s: Session, step: Step) {
    match step
    case BackendWrite(writes) => s.waiting && writes.Keys <= RectPoints(s.box) && NoBlank(writes)
    case SyncReply(rects, sends, blocked) =>
      && s.waiting && |sends| == |blocked| == |s.fronts|
      && (forall p :: p in s.unreported ==> Listed(rects, s.box, p))
      && forall i :: 0 <= i < |s.fronts| ==> SendOk(Consume(s.fronts[i], Reported(rects, s.box)), s.fb, sends[i])
    case Timer(exceeded, progressive) => |exceeded| == |progressive| == |s.fronts|
    case Signalled(i, event) => i < |s.fronts| && Spontaneous(s.fronts[i].machine, event)
    case NewFramebuffer(box, fb, clients, newSize) =>
      && box.left == box.top == 0 && IsScreen(box, fb) && NoBlank(fb) && |clients| == |s.fronts|
      && forall i :: 0 <= i < |clients| ==> IsScreen(box, clients[i])
    case FramebufferKept => true
    case WriteReady(i) => i < |s.fronts| && s.fronts[i].watched
    case Join(f) =>
      IsScreen(s.box, f.view) && IsScreen(s.box, f.client) && Truthful(f)
    case _ => step.i < |s.fronts|
  }

  /** The frames beyond its window that a viewer brings along when it joins. */
  function Brought(f: Front): nat {
    var room := f.lastAckFrame + f.frameAcknowledge + if Paced(f.machine) then 1 else 2;
    if f.frameAcknowledge == 0 || f.nextFrameId <= room then 0 else f.nextFrameId - room
  }

  function Put(s: Session, i: nat, o: Outcome): Session
    requires i < |s.fronts|
  {
    s.(fronts := s.fronts[i := o.front], waiting := o.waiting)
  }

  function Blank(box: Rect): Screen {
    map p | p in RectPoints(box) :: BLANK
  }

  /** A closed connection leaves the list. */
  function Without(s: Session, i: nat): Session
    requires i < |s.fronts|
  {
    s.(fronts := s.fronts[..i] + s.fronts[i + 1..])
  }

  /** A write event that finds its viewer in any other phase closes the connection. */
  predicate Disconnects(s: Session, step: Step) {
    step.WriteReady? && step.i < |s.fronts| && Get(s.fronts[step.i].machine) != WaitingFrameSent
  }

  /** ogon_server_framebuffer_info with the geometry it had, one front: encoder, view and damage stay. */
  function Attach(f: Front, waiting: bool, all: set<Point>): Outcome {
    WaitTimer(Signal(f, BackendAttached), waiting, all)
  }

  /** ogon_server_framebuffer_info and ogon_resize_frontend, one front: a new encoder starts blank. */
  function Reattach(f: Front, waiting: bool, box: Rect, client: Screen, newSize: bool): Outcome {
    var g := Signal(f.(view := Blank(box), damage := {}, client := client), BackendAttached);
    if newSize then Outcome(Signal(g, TriggerResize), waiting) else WaitTimer(g, waiting, RectPoints(box))
  }

  /** Frames that were written at once are handled at once; blocked output is watched, in whatever phase its viewer is. */
  function OnWritten(blocked: seq<bool>, all: set<Point>): (nat, Front, bool) -> Outcome {
    (i: nat, f: Front, w: bool) => if i < |blocked| && blocked[i] then Outcome(f.(watched := true), w) else FrameWritten(f, w, all)
  }

  function OnTick(exceeded: seq<bool>, progressive: seq<bool>, all: set<Point>): (nat, Front, bool) -> Outcome {
    (i: nat, f: Front, w: bool) => Tick(f, w, i < |exceeded| && exceeded[i], i < |progressive| && progressive[i], all)
  }

  function OnAttach(all: set<Point>): (nat, Front, bool) -> Outcome {
    (i: nat, f: Front, w: bool) => Attach(f, w, all)
  }

  function OnReattach(box: Rect, clients: seq<Screen>, newSize: bool): (nat, Front, bool) -> Outcome {
    (i: nat, f: Front, w: bool) => Reattach(f, w, box, if i < |clients| then clients[i] else map[], newSize)
  }

  function Apply(s: Session, step: Step): Session
    requires Enabled(s, step)
  {
    var all := RectPoints(s.box);
    match step
    case BackendWrite(writes) => s.(fb := s.fb + writes, unreported := s.unreported + writes.Keys)
    case SyncReply(rects, sends, blocked) =>
      var received := ReceiveAll(s.fronts, s.fb, Reported(rects, s.box), sends);
      var (fronts, waiting) := ForEach(received, false, OnWritten(blocked, all));
      s.(unreported := {}, waiting := waiting, fronts := fronts)
    // the write part of handle_front_rdp_event, once the output is no longer blocked
    case WriteReady(i) =>
      if Disconnects(s, step) then Without(s, i)
      else Put(s, i, FrameWritten(s.fronts[i].(watched := false), s.waiting, all))
    case RefreshRect(i, areas) => Put(s, i, Refresh(s.fronts[i], s.waiting, areas, s.box))
    case RequestFull(i) => Put(s, i, Immediate(s.fronts[i], s.waiting, true, all))
    case AckFrame(i, frameId) => Put(s, i, Acknowledge(s.fronts[i], s.waiting, frameId, all))
    case SuppressOutput(i, allow) => Put(s, i, Suppress(s.fronts[i], s.waiting, allow, all))
    case Timer(exceeded, progressive) =>
      var (fronts, waiting) := ForEach(s.fronts, s.waiting, OnTick(exceeded, progressive, all));
      s.(fronts := fronts, waiting := waiting)
    case Signalled(i, event) => Put(s, i, Outcome(Signal(s.fronts[i], event), s.waiting))
    case NewFramebuffer(box, fb, clients, newSize) =>
      var (fronts, waiting) := ForEach(s.fronts, false, OnReattach(box, clients, newSize));
      Session(box, fb, {}, waiting, fronts)
    case Join(f) =>
      var o := Immediate(Signal(f.(forced := Brought(f)), NewShadowing), s.waiting, true, all);
      var o' := WaitTimer(o.front, o.waiting, all);
      s.(fronts := s.fronts + [o'.front], waiting := o'.waiting)
    case FramebufferKept =>
      var (fronts, waiting) := ForEach(s.fronts, false, OnAttach(all));
      s.(fronts := fronts, waiting := waiting)
    case Leave(i) => Without(s, i)
  }

  // ------------------------------------------------------- the invariants

  /**
    The client view is truthful, and outside the pending damage and the unreported writes it is
    blank or the framebuffer's.
  */
  ghost predicate ViewOk(f: Front, box: Rect, fb: Screen, unreported: set<Point>) {
    && IsScreen(box, f.view) && IsScreen(box, f.client) && f.damage <= RectPoints(box) && Truthful(f)
    && forall p :: p in fb && p in f.view && p !in f.damage && p !in unreported ==> f.view[p] == BLANK || f.view[p] == fb[p]
  }

  /** The frame window, widened by what was let past it; with room in it, by nothing. */
  ghost predicate WindowOk(f: Front) {
    && (f.forced > 0 ==> WindowFull(f))
    && (f.frameAcknowledge > 0 ==>
          && f.nextFrameId <= f.lastAckFrame + f.frameAcknowledge + 2 + f.forced
          && (Paced(f.machine) ==> f.nextFrameId <= f.lastAckFrame + f.frameAcknowledge + 1 + f.forced))
  }

  ghost predicate FrontOk(f: Front, box: Rect, fb: Screen, unreported: set<Point>) {
    ViewOk(f, box, fb, unreported) && WindowOk(f)
  }

  ghost predicate Ok(s: Session) {
    && s.box.left == s.box.top == 0
    && IsScreen(s.box, s.fb) && NoBlank(s.fb) && s.unreported <= RectPoints(s.box)
    && forall i :: 0 <= i < |s.fronts| ==> FrontOk(s.fronts[i], s.box, s.fb, s.unreported)
  }

  // -------------------------------------- every handler keeps the invariants

  /** A handler that only moves the automaton and adds damage. */
  ghost predicate OnlyPaces(f: Front, g: Front, box: Rect) {
    && g.view == f.view && g.client == f.client && f.damage <= g.damage <= RectPoints(box)
    && (WindowOk(f) ==> WindowOk(g))
  }

  lemma SignalPaces(f: Front, e: Event, box: Rect)
    requires f.damage <= RectPoints(box) && e !in {SyncReplyReceived, SyncRequested, FrameSent, FrameAckReceived}
    ensures OnlyPaces(f, Signal(f, e), box)
  {}

  lemma ImmediatePaces(f: Front, waiting: bool, setDamage: bool, box: Rect)
    requires f.damage <= RectPoints(box)
    ensures OnlyPaces(f, Immediate(f, waiting, setDamage, RectPoints(box)).front, box)
  {}

  lemma WaitTimerPaces(f: Front, waiting: bool, box: Rect)
    requires f.damage <= RectPoints(box)
    ensures OnlyPaces(f, WaitTimer(f, waiting, RectPoints(box)).front, box)
  {
    var g := Signal(f, SyncRequested);
    ImmediatePaces(g, waiting, false, box);
  }

  lemma FrameWrittenPaces(f: Front, waiting: bool, box: Rect)
    requires f.damage <= RectPoints(box)
    ensures OnlyPaces(f, FrameWritten(f, waiting, RectPoints(box)).front, box)
  {
    if Get(f.machine) == WaitingFrameSent && !WindowFull(f) {
      WaitTimerPaces(Signal(f, FrameSent), waiting, box);
    }
  }

  lemma AcknowledgePaces(f: Front, waiting: bool, frameId: nat, box: Rect)
    requires f.damage <= RectPoints(box)
    ensures OnlyPaces(f, Acknowledge(f, waiting, frameId, RectPoints(box)).front, box)
  {
    var g := Acked(f, frameId);
    if frameId > f.lastAckFrame && Get(g.machine) == WaitingAck && !WindowFull(g) {
      WaitTimerPaces(Signal(g, FrameAckReceived), waiting, box);
    }
  }

  lemma SuppressPaces(f: Front, waiting: bool, allow: bool, box: Rect)
    requires f.damage <= RectPoints(box)
    ensures OnlyPaces(f, Suppress(f, waiting, allow, RectPoints(box)).front, box)
  {
    WaitTimerPaces(Signal(f, EnableOutput), waiting, box);
  }

  lemma PacesTrans(f: Front, g: Front, h: Front, box: Rect)
    requires OnlyPaces(f, g, box) && OnlyPaces(g, h, box)
    ensures OnlyPaces(f, h, box)
  {}

  lemma TickPaces(f: Front, waiting: bool, exceeded: bool, progressive: bool, box: Rect)
    requires f.damage <= RectPoints(box)
    ensures OnlyPaces(f, Tick(f, waiting, exceeded, progressive, RectPoints(box)).front, box)
  {
    var g := Signal(f, FrameTimer);
    SignalPaces(f, FrameTimer, box);
    if exceeded {
      SignalPaces(g, BandwidthFail, box);
      PacesTrans(f, g, Signal(g, BandwidthFail), box);
    } else {
      var h := Signal(g, BandwidthGood);
      SignalPaces(g, BandwidthGood, box);
      PacesTrans(f, g, h, box);
      ImmediatePaces(h, waiting, false, box);
      var o := if progressive && Get(h.machine) == WaitingSyncReply then Immediate(h, waiting, false, RectPoints(box)) else Outcome(h, waiting);
      PacesTrans(f, h, o.front, box);
      WaitTimerPaces(o.front, o.waiting, box);
      PacesTrans(f, o.front, WaitTimer(o.front, o.waiting, RectPoints(box)).front, box);
    }
  }

  lemma PacingKeepsOk(f: Front, g: Front, box: Rect, fb: Screen, unreported: set<Point>)
    requires FrontOk(f, box, fb, unreported) && OnlyPaces(f, g, box)
    ensures FrontOk(g, box, fb, unreported)
  {}

  // -------------------------------------------------- receiving and sending

  /** Sending keeps the view truthful: pixels sent beyond the damage already agree with the framebuffer. */
  lemma SendKeepsView(f: Front, box: Rect, fb: Screen, s: Send)
    requires ViewOk(f, box, fb, {}) && IsScreen(box, fb) && NoBlank(fb) && SendOk(f, fb, s)
    ensures ViewOk(SendSurface(f, fb, s), box, fb, {})
  {
    NothingDiffers(f.view, fb, f.damage, f.fullTiles, Absorb(f.view, fb, f.damage), s.damage);
    var g := SendSurface(f, fb, s);
    forall p | p in g.view && p in g.client && g.view[p] != BLANK
      ensures g.view[p] == g.client[p]
    {
      if p in f.damage && f.view[p] != fb[p] {
        assert p in Differing(f.view, fb, f.damage);
      }
    }
  }

  lemma ConsumeKeepsView(f: Front, box: Rect, fb: Screen, unreported: set<Point>, reported: set<Point>)
    requires ViewOk(f, box, fb, unreported) && unreported <= reported <= RectPoints(box)
    ensures ViewOk(Consume(f, reported), box, fb, {})
  {}

  /** A reply is only handled in a paced phase, so the frame it produces fits the window. */
  lemma ReceiveKeepsWindow(f: Front, fb: Screen, reported: set<Point>, s: Send)
    requires WindowOk(f)
    ensures WindowOk(Receive(f, fb, reported, s))
  {
    if Get(f.machine) == WaitingSyncReply {
      var m := SetEvent(f.machine, SyncReplyReceived);
      assert Paced(f.machine) && m.current in {WaitingActiveOutput, WaitingFrameSent};
    }
  }

  lemma ReceiveKeepsOk(f: Front, box: Rect, fb: Screen, unreported: set<Point>, reported: set<Point>, s: Send)
    requires FrontOk(f, box, fb, unreported) && IsScreen(box, fb) && NoBlank(fb)
    requires unreported <= reported <= RectPoints(box) && SendOk(Consume(f, reported), fb, s)
    ensures FrontOk(Receive(f, fb, reported, s), box, fb, {})
  {
    ReceiveKeepsWindow(f, fb, reported, s);
    ConsumeKeepsView(f, box, fb, unreported, reported);
    var h := Signal(Consume(f, reported), SyncReplyReceived);
    assert ViewOk(h, box, fb, {});
    assert SendOk(h, fb, s);
    SendKeepsView(h, box, fb, s);
  }

  /** Exactly the pixels of the listed rectangles on the screen are taken from a reply. */
  lemma {:induction false} ReportedMeans(rects: seq<Rect>, box: Rect, p: Point)
    ensures p in Reported(rects, box) <==> Listed(rects, box, p)
  {
    if rects != [] {
      var n := |rects| - 1;
      var front := rects[..n];
      ReportedMeans(front, box, p);
      if Listed(front, box, p) {
        var i :| 0 <= i < |front| && RectWithin(front[i], box) && Inside(front[i], p);
        assert rects[i] == front[i];
      }
      if Listed(rects, box, p) {
        var i :| 0 <= i < |rects| && RectWithin(rects[i], box) && Inside(rects[i], p);
        assert i < n ==> front[i] == rects[i];
      }
    }
  }

  lemma ReportedOnScreen(rects: seq<Rect>, box: Rect)
    ensures Reported(rects, box) <= RectPoints(box)
  {
    forall p | p in Reported(rects, box)
      ensures p in RectPoints(box)
    {
      ReportedMeans(rects, box, p);
    }
  }

  /** A backend that lists what it wrote has it consumed. */
  lemma ListedIsReported(rects: seq<Rect>, box: Rect, written: set<Point>)
    requires forall p :: p in written ==> Listed(rects, box, p)
    ensures written <= Reported(rects, box)
  {
    forall p | p in written
      ensures p in Reported(rects, box)
    {
      ReportedMeans(rects, box, p);
    }
  }

  lemma RefreshAreaKeepsOk(f: Front, a: Area, box: Rect, fb: Screen, unreported: set<Point>)
    requires FrontOk(f, box, fb, unreported) && box.left == box.top == 0
    ensures FrontOk(RefreshArea(f, a, box), box, fb, unreported)
  {}

  lemma {:induction false} RefreshAreasKeepOk(f: Front, areas: seq<Area>, box: Rect, fb: Screen, unreported: set<Point>)
    requires FrontOk(f, box, fb, unreported) && box.left == box.top == 0
    ensures FrontOk(RefreshAreas(f, areas, box), box, fb, unreported)
  {
    if areas != [] {
      RefreshAreasKeepOk(f, areas[..|areas| - 1], box, fb, unreported);
      RefreshAreaKeepsOk(RefreshAreas(f, areas[..|areas| - 1], box), areas[|areas| - 1], box, fb, unreported);
    }
  }

  // -------------------------------------------------------- whole sessions

  lemma {:induction false} ForEachFront(fronts: seq<Front>, waiting: bool, h: (nat, Front, bool) -> Outcome, i: nat) returns (w: bool)
    requires i < |fronts|
    ensures ForEach(fronts, waiting, h).0[i] == h(i, fronts[i], w).front
  {
    var n := |fronts| - 1;
    if i == n {
      w := ForEach(fronts[..n], waiting, h).1;
    } else {
      w := ForEachFront(fronts[..n], waiting, h, i);
    }
  }

  /** What a reply does to one front: it receives, then handles the written frame unless output is blocked. */
  lemma ReplyFront(s: Session, step: Step, i: nat) returns (f: Front, w: bool)
    requires step.SyncReply? && Enabled(s, step) && i < |s.fronts|
    ensures f == Receive(s.fronts[i], s.fb, Reported(step.rects, s.box), step.sends[i])
    ensures Apply(s, step).fronts[i] == if step.blocked[i] then f.(watched := true) else FrameWritten(f, w, RectPoints(s.box)).front
  {
    var received := ReceiveAll(s.fronts, s.fb, Reported(step.rects, s.box), step.sends);
    var h := OnWritten(step.blocked, RectPoints(s.box));
    f := received[i];
    w := ForEachFront(received, false, h, i);
  }

  lemma ReplyFrontKeepsOk(s: Session, step: Step, i: nat) returns (f: Front)
    requires Ok(s) && step.SyncReply? && Enabled(s, step) && i < |s.fronts|
    ensures f == Receive(s.fronts[i], s.fb, Reported(step.rects, s.box), step.sends[i])
    ensures FrontOk(f, s.box, s.fb, {}) && OnlyPaces(f, Apply(s, step).fronts[i], s.box)
  {
    var w;
    f, w := ReplyFront(s, step, i);
    ReportedOnScreen(step.rects, s.box);
    ListedIsReported(step.rects, s.box, s.unreported);
    ReceiveKeepsOk(s.fronts[i], s.box, s.fb, s.unreported, Reported(step.rects, s.box), step.sends[i]);
    FrameWrittenPaces(f, w, s.box);
  }

  lemma SyncReplyKeepsOk(s: Session, step: Step)
    requires Ok(s) && step.SyncReply? && Enabled(s, step)
    ensures Ok(Apply(s, step))
  {
    forall i | 0 <= i < |s.fronts|
      ensures FrontOk(Apply(s, step).fronts[i], s.box, s.fb, {})
    {
      var f := ReplyFrontKeepsOk(s, step, i);
      PacingKeepsOk(f, Apply(s, step).fronts[i], s.box, s.fb, {});
    }
  }

  lemma TimerPaces(s: Session, step: Step, i: nat)
    requires step.Timer? && Enabled(s, step) && i < |s.fronts| && s.fronts[i].damage <= RectPoints(s.box)
    ensures OnlyPaces(s.fronts[i], Apply(s, step).fronts[i], s.box)
  {
    var h := OnTick(step.exceeded, step.progressive, RectPoints(s.box));
    var w := ForEachFront(s.fronts, s.waiting, h, i);
    TickPaces(s.fronts[i], w, step.exceeded[i], step.progressive[i], s.box);
  }

  lemma TimerKeepsOk(s: Session, step: Step)
    requires Ok(s) && step.Timer? && Enabled(s, step)
    ensures Ok(Apply(s, step))
  {
    forall i | 0 <= i < |s.fronts|
      ensures FrontOk(Apply(s, step).fronts[i], s.box, s.fb, s.unreported)
    {
      TimerPaces(s, step, i);
      PacingKeepsOk(s.fronts[i], Apply(s, step).fronts[i], s.box, s.fb, s.unreported);
    }
  }

  /** A recreated encoder starts with a blank view and no damage. */
  lemma ReattachOk(f: Front, waiting: bool, box: Rect, fb: Screen, client: Screen, newSize: bool)
    requires WindowOk(f) && IsScreen(box, fb) && IsScreen(box, client)
    ensures FrontOk(Reattach(f, waiting, box, client, newSize).front, box, fb, {})
  {
    var f0 := f.(view := Blank(box), damage := {}, client := client);
    assert FrontOk(f0, box, fb, {});
    var g := Signal(f0, BackendAttached);
    SignalPaces(f0, BackendAttached, box);
    PacingKeepsOk(f0, g, box, fb, {});
    SignalPaces(g, TriggerResize, box);
    PacingKeepsOk(g, Signal(g, TriggerResize), box, fb, {});
    WaitTimerPaces(g, waiting, box);
    PacingKeepsOk(g, WaitTimer(g, waiting, RectPoints(box)).front, box, fb, {});
  }

  lemma AttachPaces(f: Front, waiting: bool, box: Rect)
    requires f.damage <= RectPoints(box)
    ensures OnlyPaces(f, Attach(f, waiting, RectPoints(box)).front, box)
  {
    var g := Signal(f, BackendAttached);
    SignalPaces(f, BackendAttached, box);
    WaitTimerPaces(g, waiting, box);
    PacesTrans(f, g, WaitTimer(g, waiting, RectPoints(box)).front, box);
  }

  lemma KeptPaces(s: Session, i: nat)
    requires i < |s.fronts| && s.fronts[i].damage <= RectPoints(s.box)
    ensures OnlyPaces(s.fronts[i], Apply(s, FramebufferKept).fronts[i], s.box)
  {
    var w := ForEachFront(s.fronts, false, OnAttach(RectPoints(s.box)), i);
    AttachPaces(s.fronts[i], w, s.box);
  }

  /** Framebuffer information that changes nothing only moves the automata. */
  lemma KeptKeepsOk(s: Session)
    requires Ok(s)
    ensures Ok(Apply(s, FramebufferKept))
  {
    forall i | 0 <= i < |s.fronts|
      ensures FrontOk(Apply(s, FramebufferKept).fronts[i], s.box, s.fb, s.unreported)
    {
      KeptPaces(s, i);
      PacingKeepsOk(s.fronts[i], Apply(s, FramebufferKept).fronts[i], s.box, s.fb, s.unreported);
    }
  }

  lemma NewFramebufferKeepsOk(s: Session, step: Step)
    requires Ok(s) && step.NewFramebuffer? && Enabled(s, step)
    ensures Ok(Apply(s, step))
  {
    var h := OnReattach(step.box, step.clients, step.newSize);
    forall i | 0 <= i < |s.fronts|
      ensures FrontOk(ForEach(s.fronts, false, h).0[i], step.box, step.fb, {})
    {
      var w := ForEachFront(s.fronts, false, h, i);
      ReattachOk(s.fronts[i], w, step.box, step.fb, step.clients[i], step.newSize);
    }
  }

  lemma RequestPaces(f: Front, waiting: bool, box: Rect)
    requires f.damage <= RectPoints(box)
    ensures var o := Immediate(f, waiting, true, RectPoints(box));
            OnlyPaces(f, WaitTimer(o.front, o.waiting, RectPoints(box)).front, box)
  {
    var o := Immediate(f, waiting, true, RectPoints(box));
    ImmediatePaces(f, waiting, true, box);
    WaitTimerPaces(o.front, o.waiting, box);
    PacesTrans(f, o.front, WaitTimer(o.front, o.waiting, RectPoints(box)).front, box);
  }

  lemma DamageIsReplaced(f: Front, waiting: bool, all: set<Point>)
    ensures Immediate(Signal(f, NewShadowing), waiting, true, all)
         == Immediate(Signal(f.(damage := all), NewShadowing), waiting, true, all)
  {}

  /** A viewer that joins has everything damaged. */
  lemma JoinedFrontOk(f0: Front, waiting: bool, box: Rect, fb: Screen, unreported: set<Point>)
    requires IsScreen(box, f0.view) && IsScreen(box, f0.client) && Truthful(f0) && WindowOk(f0) && IsScreen(box, fb)
    ensures var o := Immediate(Signal(f0, NewShadowing), waiting, true, RectPoints(box));
            FrontOk(WaitTimer(o.front, o.waiting, RectPoints(box)).front, box, fb, unreported)
  {
    var all := RectPoints(box);
    var f := f0.(damage := all);
    var g := Signal(f, NewShadowing);
    SignalPaces(f, NewShadowing, box);
    PacingKeepsOk(f, g, box, fb, unreported);
    DamageIsReplaced(f0, waiting, all);
    RequestPaces(g, waiting, box);
    var o := Immediate(g, waiting, true, all);
    PacingKeepsOk(g, WaitTimer(o.front, o.waiting, all).front, box, fb, unreported);
  }

  lemma JoinKeepsOk(s: Session, step: Step)
    requires Ok(s) && step.Join? && Enabled(s, step)
    ensures Ok(Apply(s, step))
  {
    JoinedFrontOk(step.front.(forced := Brought(step.front)), s.waiting, s.box, s.fb, s.unreported);
  }

  /** Writes while a reply is awaited are unreported until it arrives. */
  lemma BackendWriteKeepsOk(s: Session, step: Step)
    requires Ok(s) && step.BackendWrite? && Enabled(s, step)
    ensures Ok(Apply(s, step))
  {}

  /** The steps that concern a single front and do not touch its view. */
  predicate PacesOne(s: Session, step: Step) {
    (step.WriteReady? && !Disconnects(s, step)) || step.RequestFull? || step.AckFrame? || step.SuppressOutput? || step.Signalled?
  }

  lemma OthersStay(s: Session, step: Step, i: nat)
    requires (PacesOne(s, step) || step.RefreshRect?) && Enabled(s, step) && i < |s.fronts| && i != step.i
    ensures Apply(s, step).fronts[i] == s.fronts[i]
  {}

  lemma OneFrontPaces(s: Session, step: Step)
    requires PacesOne(s, step) && Enabled(s, step) && s.fronts[step.i].damage <= RectPoints(s.box)
    ensures OnlyPaces(s.fronts[step.i], Apply(s, step).fronts[step.i], s.box)
  {
    var f := s.fronts[step.i];
    match step {
      case WriteReady(_) => FrameWrittenPaces(f.(watched := false), s.waiting, s.box);
      case RequestFull(_) => ImmediatePaces(f, s.waiting, true, s.box);
      case AckFrame(_, frameId) => AcknowledgePaces(f, s.waiting, frameId, s.box);
      case SuppressOutput(_, allow) => SuppressPaces(f, s.waiting, allow, s.box);
      case Signalled(_, event) => SignalPaces(f, event, s.box);
    }
  }

  lemma OneFrontKeepsOk(s: Session, step: Step)
    requires Ok(s) && PacesOne(s, step) && Enabled(s, step)
    ensures Ok(Apply(s, step))
  {
    OneFrontPaces(s, step);
    PacingKeepsOk(s.fronts[step.i], Apply(s, step).fronts[step.i], s.box, s.fb, s.unreported);
  }

  lemma RefreshKeepsOk(s: Session, step: Step)
    requires Ok(s) && step.RefreshRect? && Enabled(s, step)
    ensures Ok(Apply(s, step))
  {
    var f := s.fronts[step.i];
    RefreshAreasKeepOk(f, step.areas, s.box, s.fb, s.unreported);
    var g := RefreshAreas(f, step.areas, s.box);
    ImmediatePaces(g, s.waiting, false, s.box);
    PacingKeepsOk(g, Immediate(g, s.waiting, false, RectPoints(s.box)).front, s.box, s.fb, s.unreported);
  }

  lemma ApplyKeepsOk(s: Session, step: Step)
    requires Ok(s) && Enabled(s, step)
    ensures Ok(Apply(s, step))
  {
    match step {
      case BackendWrite(_) => BackendWriteKeepsOk(s, step);
      case SyncReply(_, _, _) => SyncReplyKeepsOk(s, step);
      case RefreshRect(_, _) => RefreshKeepsOk(s, step);
      case Timer(_, _) => TimerKeepsOk(s, step);
      case NewFramebuffer(_, _, _, _) => NewFramebufferKeepsOk(s, step);
      case Join(_) => JoinKeepsOk(s, step);
      case FramebufferKept => KeptKeepsOk(s);
      case Leave(_) =>
      case WriteReady(_) =>
        if !Disconnects(s, step) {
          OneFrontKeepsOk(s, step);
        }
      case _ => OneFrontKeepsOk(s, step);
    }
  }

  ghost predicate Possible(s: Session, steps: seq<Step>)
    decreases |steps|
  {
    steps == [] || (Enabled(s, steps[0]) && Possible(Apply(s, steps[0]), steps[1..]))
  }

  ghost function After(s: Session, steps: seq<Step>): Session
    requires Possible(s, steps)
    decreases |steps|
  {
    if steps == [] then s else After(Apply(s, steps[0]), steps[1..])
  }

  /** A framebuffer without viewers yet; viewers join. */
  ghost predicate Start(s: Session) {
    s.box.left == s.box.top == 0 && IsScreen(s.box, s.fb) && NoBlank(s.fb) && s.unreported == {} && s.fronts == []
  }

  lemma {:induction false} RunKeepsOk(s: Session, steps: seq<Step>)
    requires Ok(s) && Possible(s, steps)
    ensures Ok(After(s, steps))
    decreases |steps|
  {
    if steps != [] {
      ApplyKeepsOk(s, steps[0]);
      RunKeepsOk(Apply(s, steps[0]), steps[1..]);
    }
  }

  // --------------------------------------------------------- main results

  /**
    In every run, for every viewer and pixel: a client view pixel that is not blank is what the
    client shows, and outside the pending damage and the unreported writes it is blank or current.
  */
  lemma ViewsAreSound(s: Session, steps: seq<Step>, i: nat, p: Point)
    requires Start(s) && Possible(s, steps) && i < |After(s, steps).fronts| && p in RectPoints(After(s, steps).box)
    ensures var t := After(s, steps);
            var f := t.fronts[i];
            && p in f.view && p in f.client && p in t.fb
            && (f.view[p] != BLANK ==> f.view[p] == f.client[p])
            && (p !in f.damage && p !in t.unreported ==> f.view[p] == BLANK || f.view[p] == f.client[p] == t.fb[p])
  {
    RunKeepsOk(s, steps);
  }

  /**
    In every run the frames in flight stay within the window plus what was let past it while it was full,
    and with room in the window that is nothing.
  */
  lemma WindowHolds(s: Session, steps: seq<Step>, i: nat)
    requires Start(s) && Possible(s, steps) && i < |After(s, steps).fronts|
    requires After(s, steps).fronts[i].frameAcknowledge > 0
    ensures var f := After(s, steps).fronts[i];
            && f.nextFrameId <= f.lastAckFrame + f.frameAcknowledge + 2 + f.forced
            && (f.machine.current in {WaitingTimer, WaitingSyncReply} ==> f.nextFrameId <= f.lastAckFrame + f.frameAcknowledge + 1 + f.forced)
            && (f.forced > 0 ==> WindowFull(f))
  {
    RunKeepsOk(s, steps);
  }

  lemma ReceiveEverything(f: Front, box: Rect, fb: Screen, reported: set<Point>, s: Send)
    requires f.damage == RectPoints(box) && Sends(f) && IsScreen(box, f.view) && IsScreen(box, fb)
    ensures Receive(f, fb, reported, s).view == fb
  {}

  lemma TruthfulView(f: Front, box: Rect, fb: Screen)
    requires ViewOk(f, box, fb, {}) && IsScreen(box, fb) && NoBlank(fb) && f.view == fb
    ensures f.client == fb
  {
    forall p | p in fb
      ensures f.client[p] == fb[p]
    {
      assert f.view[p] != BLANK;
    }
  }

  /** A front that has everything damaged and sends on a reply shows the framebuffer. */
  lemma FullSendConverges(s: Session, step: Step, i: nat)
    requires Ok(s) && step.SyncReply? && Enabled(s, step) && i < |s.fronts|
    requires s.fronts[i].damage == RectPoints(s.box) && Sends(s.fronts[i])
    ensures Apply(s, step).fronts[i].client == s.fb == Apply(s, step).fb
  {
    var f := ReplyFrontKeepsOk(s, step, i);
    ReceiveEverything(s.fronts[i], s.box, s.fb, Reported(step.rects, s.box), step.sends[i]);
    TruthfulView(f, s.box, s.fb);
  }

  // ---------------------------------------------------- following a viewer

  /** A step that closes a connection. */
  predicate Closes(s: Session, step: Step) {
    step.Leave? || Disconnects(s, step)
  }

  predicate ClosesOf(s: Session, step: Step, i: nat) {
    Closes(s, step) && step.i == i
  }

  /** Where viewer i is after a step that does not close its connection: behind a closed one all move down. */
  function Place(s: Session, step: Step, i: nat): nat {
    if Closes(s, step) && step.i < i then i - 1 else i
  }

  /** No step of the run closes viewer i's connection. */
  ghost predicate Connected(s: Session, steps: seq<Step>, i: nat)
    requires Possible(s, steps)
    decreases |steps|
  {
    steps == [] || (!ClosesOf(s, steps[0], i) && Connected(Apply(s, steps[0]), steps[1..], Place(s, steps[0], i)))
  }

  ghost function PlaceAfter(s: Session, steps: seq<Step>, i: nat): nat
    requires Possible(s, steps)
    decreases |steps|
  {
    if steps == [] then i else PlaceAfter(Apply(s, steps[0]), steps[1..], Place(s, steps[0], i))
  }

  /** Others that leave do not matter to a viewer. */
  lemma ClosingMoves(s: Session, step: Step, i: nat)
    requires Enabled(s, step) && i < |s.fronts| && Closes(s, step) && !ClosesOf(s, step, i)
    ensures var t := Apply(s, step);
            && Place(s, step, i) < |t.fronts| && t.fronts[Place(s, step, i)] == s.fronts[i]
            && t == s.(fronts := t.fronts)
  {}

  lemma HasPlace(s: Session, step: Step, i: nat)
    requires Enabled(s, step) && i < |s.fronts| && !ClosesOf(s, step, i)
    ensures Place(s, step, i) < |Apply(s, step).fronts|
  {}

  /** A step that neither closes viewer i's connection nor replaces its encoder nor makes it send. */
  ghost predicate Undisturbed(s: Session, step: Step, i: nat)
    requires Enabled(s, step) && i < |s.fronts|
  {
    !ClosesOf(s, step, i) && !step.NewFramebuffer? && !(step.SyncReply? && Sends(s.fronts[i]))
  }

  /** Viewer i, now at j, loses no damage. */
  ghost predicate Grew(s: Session, t: Session, i: nat, j: nat) {
    i < |s.fronts| && j < |t.fronts| && t.box == s.box && s.fronts[i].damage <= t.fronts[j].damage
  }

  lemma ReplyGrows(s: Session, step: Step, i: nat)
    requires Ok(s) && step.SyncReply? && Enabled(s, step) && i < |s.fronts| && !Sends(s.fronts[i])
    ensures Grew(s, Apply(s, step), i, i)
  {
    var f := ReplyFrontKeepsOk(s, step, i);
  }

  lemma RefreshGrows(s: Session, step: Step, i: nat)
    requires step.RefreshRect? && Enabled(s, step) && i < |s.fronts|
    ensures Grew(s, Apply(s, step), i, i)
  {
    RefreshKeepsDamage(s.fronts[step.i], step.areas, s.box);
  }

  lemma TimerGrows(s: Session, step: Step, i: nat)
    requires Ok(s) && step.Timer? && Enabled(s, step) && i < |s.fronts|
    ensures Grew(s, Apply(s, step), i, i)
  {
    TimerPaces(s, step, i);
  }

  lemma OneFrontGrows(s: Session, step: Step, i: nat)
    requires Ok(s) && PacesOne(s, step) && Enabled(s, step) && i < |s.fronts|
    ensures Grew(s, Apply(s, step), i, i)
  {
    OneFrontPaces(s, step);
  }

  lemma WriteOrJoinGrows(s: Session, step: Step, i: nat)
    requires (step.BackendWrite? || step.Join?) && Enabled(s, step) && i < |s.fronts|
    ensures Grew(s, Apply(s, step), i, i)
  {}

  /** Pending damage only goes away by sending. */
  lemma DamageGrows(s: Session, step: Step, i: nat)
    requires Ok(s) && Enabled(s, step) && i < |s.fronts| && Undisturbed(s, step, i)
    ensures Grew(s, Apply(s, step), i, Place(s, step, i))
  {
    if Closes(s, step) {
      ClosingMoves(s, step, i);
    } else if step.SyncReply? {
      ReplyGrows(s, step, i);
    } else if step.Timer? {
      TimerGrows(s, step, i);
    } else if step.RefreshRect? {
      RefreshGrows(s, step, i);
    } else if PacesOne(s, step) {
      OneFrontGrows(s, step, i);
    } else if step.FramebufferKept? {
      KeptPaces(s, i);
    } else {
      WriteOrJoinGrows(s, step, i);
    }
  }

  lemma {:induction false} RefreshKeepsDamage(f: Front, areas: seq<Area>, box: Rect)
    ensures f.damage <= RefreshAreas(f, areas, box).damage
  {
    if areas != [] {
      RefreshKeepsDamage(f, areas[..|areas| - 1], box);
    }
  }

  /** A run in which viewer i is never disturbed, whatever happens to the others. */
  ghost predicate Waits(s: Session, steps: seq<Step>, i: nat)
    requires Possible(s, steps)
    decreases |steps|
  {
    steps == [] ||
    (i < |s.fronts| && Undisturbed(s, steps[0], i) && Waits(Apply(s, steps[0]), steps[1..], Place(s, steps[0], i)))
  }

  lemma {:induction false} DamageStaysAlong(s: Session, steps: seq<Step>, i: nat)
    requires Ok(s) && Possible(s, steps) && i < |s.fronts| && Waits(s, steps, i)
    requires s.fronts[i].damage == RectPoints(s.box)
    ensures var t, j := After(s, steps), PlaceAfter(s, steps, i);
            Ok(t) && j < |t.fronts| && t.fronts[j].damage == RectPoints(t.box)
    decreases |steps|
  {
    if steps != [] {
      DamageGrows(s, steps[0], i);
      ApplyKeepsOk(s, steps[0]);
      DamageStaysAlong(Apply(s, steps[0]), steps[1..], Place(s, steps[0], i));
    }
  }

  /**
    After a full-screen request, whatever happens until the viewer next sends, other viewers coming and
    going included, but for a new framebuffer: that send makes its client show exactly the framebuffer.
  */
  lemma FullRequestConverges(s: Session, i: nat, steps: seq<Step>, reply: Step)
    requires Ok(s) && Enabled(s, RequestFull(i))
    requires var t := Apply(s, RequestFull(i));
             && Possible(t, steps) && Waits(t, steps, i)
             && reply.SyncReply? && Enabled(After(t, steps), reply)
             && PlaceAfter(t, steps, i) < |After(t, steps).fronts| && Sends(After(t, steps).fronts[PlaceAfter(t, steps, i)])
    ensures var t := Apply(s, RequestFull(i));
            var u, j := Apply(After(t, steps), reply), PlaceAfter(t, steps, i);
            j < |u.fronts| && u.fronts[j].client == u.fb
  {
    var t := Apply(s, RequestFull(i));
    ApplyKeepsOk(s, RequestFull(i));
    DamageStaysAlong(t, steps, i);
    FullSendConverges(After(t, steps), reply, PlaceAfter(t, steps, i));
  }

  /** A new framebuffer in between forgets the request: nothing is damaged and nothing is known. */
  lemma NewFramebufferForgets(s: Session, step: Step, i: nat)
    requires step.NewFramebuffer? && Enabled(s, step) && i < |s.fronts|
    ensures var f := Apply(s, step).fronts[i]; f.damage == {} && f.view == Blank(step.box)
  {
    var w := ForEachFront(s.fronts, false, OnReattach(step.box, step.clients, step.newSize), i);
    ReattachForgets(s.fronts[i], w, step.box, step.clients[i], step.newSize);
  }

  lemma WaitTimerKeepsDamage(f: Front, waiting: bool, all: set<Point>)
    ensures var g := WaitTimer(f, waiting, all).front; g.damage == f.damage && g.view == f.view
  {}

  lemma ReattachForgets(f: Front, waiting: bool, box: Rect, client: Screen, newSize: bool)
    ensures var g := Reattach(f, waiting, box, client, newSize).front; g.damage == {} && g.view == Blank(box)
  {
    WaitTimerKeepsDamage(Signal(f.(view := Blank(box), damage := {}, client := client), BackendAttached), waiting, RectPoints(box));
  }

  /** Within the window as it is without any forced request. */
  predicate InWindow(f: Front) {
    && f.nextFrameId <= f.lastAckFrame + f.frameAcknowledge + 2
    && (Paced(f.machine) ==> f.nextFrameId <= f.lastAckFrame + f.frameAcknowledge + 1)
  }

  /**
    When the window alone is no bound: from a front within it, an immediate request and the frame that
    answers it break the bound if and only if the window was full, which it can be in the phases that wait
    for an acknowledgement or for written output and in no other.
  */
  lemma ImmediatePassesWindow(f: Front, waiting: bool, setDamage: bool, all: set<Point>, fb: Screen, reported: set<Point>, s: Send)
    requires f.frameAcknowledge > 0 && InWindow(f) && Forceable(f.machine)
    requires !f.machine.outputSuppressed && !f.machine.waitingGraphicsPipeline && (s.damage != {} || s.progressive)
    ensures var o := Immediate(f, waiting, setDamage, all).front;
            var g := Receive(o, fb, reported, s);
            && g.nextFrameId == f.nextFrameId + 1
            && (g.nextFrameId > g.lastAckFrame + g.frameAcknowledge + 2 <==> WindowFull(f))
            && (WindowFull(f) ==> f.machine.current in {WaitingAck, WaitingFrameSent})
            && g.forced == f.forced + if WindowFull(f) then 1 else 0
  {
    var o := Immediate(f, waiting, setDamage, all).front;
    assert o.machine.current == WaitingSyncReply && o.nextFrameId == f.nextFrameId;
    assert Get(Signal(Consume(o, reported), SyncReplyReceived).machine) == WaitingFrameSent;
  }

  /** A refresh request is such a request. */
  lemma RefreshPassesWindow(f: Front, waiting: bool, areas: seq<Area>, box: Rect, fb: Screen, reported: set<Point>, s: Send)
    requires f.frameAcknowledge > 0 && InWindow(f) && Forceable(f.machine) && areas != []
    requires !f.machine.outputSuppressed && !f.machine.waitingGraphicsPipeline && (s.damage != {} || s.progressive)
    ensures var g := Receive(Refresh(f, waiting, areas, box).front, fb, reported, s);
            && g.nextFrameId == f.nextFrameId + 1
            && (g.nextFrameId > g.lastAckFrame + g.frameAcknowledge + 2 <==> WindowFull(f))
  {
    RefreshKeepsPace(f, areas, box);
    ImmediatePassesWindow(RefreshAreas(f, areas, box), waiting, false, RectPoints(box), fb, reported, s);
  }

  lemma {:induction false} RefreshKeepsPace(f: Front, areas: seq<Area>, box: Rect)
    ensures var g := RefreshAreas(f, areas, box); g == f.(view := g.view, damage := g.damage)
  {
    if areas != [] {
      RefreshKeepsPace(f, areas[..|areas| - 1], box);
    }
  }

  lemma WaitTimerAwaits(f: Front, waiting: bool, all: set<Point>)
    requires ShouldCreateFrame(f.machine)
    ensures var o := WaitTimer(f, waiting, all); o.waiting && Get(o.front.machine) == WaitingSyncReply
  {}

  lemma ImmediateMayCreate(f: Front, waiting: bool, all: set<Point>)
    requires ShouldCreateFrame(f.machine)
    ensures ShouldCreateFrame(Immediate(f, waiting, false, all).front.machine)
  {}

  /** A timer tick with bandwidth left always has a front that may produce frames await a reply. */
  lemma TickAwaitsReply(f: Front, waiting: bool, progressive: bool, all: set<Point>)
    requires f.machine.current in {WaitingTimer, WaitingSyncReply} && !f.machine.resizePending && !f.machine.outputSuppressed
    ensures var o := Tick(f, waiting, false, progressive, all);
            o.waiting && Get(o.front.machine) == WaitingSyncReply
  {
    var h := Signal(Signal(f, FrameTimer), BandwidthGood);
    ImmediateMayCreate(h, waiting, all);
    var o := if progressive && Get(h.machine) == WaitingSyncReply then Immediate(h, waiting, false, all) else Outcome(h, waiting);
    WaitTimerAwaits(o.front, o.waiting, all);
  }

  /** The pixels a client asks to have refreshed. */
  function Requested(a: Area, box: Rect): set<Point> {
    set p | p in RectPoints(box) && a.left <= p.x <= a.right && a.top <= p.y <= a.bottom
  }

  /** A client that asks for everything by the largest coordinates gets nothing. */
  lemma RefreshWraps()
    ensures var box := Rect(0, 0, 1, 1);
            Requested(Area(0, 0, 0xFFFF, 0xFFFF), box) == {Point(0, 0)} && RectPoints(Refreshed(Area(0, 0, 0xFFFF, 0xFFFF), box)) == {}
  {
    var box, a := Rect(0, 0, 1, 1), Area(0, 0, 0xFFFF, 0xFFFF);
    assert RectPoints(box) == {Point(0, 0)};
    assert Refreshed(a, box) == Rect(0, 0, 0, 0);
  }

  /**
    A refresh damages and blanks exactly the requested pixels unless right or bottom is 0xFFFF:
    then adding one wraps, and nothing is refreshed.
  */
  lemma RefreshExact(a: Area, box: Rect)
    requires IsArea(a) && box.left == box.top == 0 && 0 < box.right <= 0xFFFF && 0 < box.bottom <= 0xFFFF
    ensures RectPoints(Refreshed(a, box)) == Requested(a, box) <==>
            (a.right != 0xFFFF && a.bottom != 0xFFFF) || Requested(a, box) == {}
  {
    if a.right != 0xFFFF && a.bottom != 0xFFFF {
      assert (a.right + 1) % 0x1_0000 == a.right + 1 && (a.bottom + 1) % 0x1_0000 == a.bottom + 1;
    } else {
      assert RectPoints(Refreshed(a, box)) == {};
    }
  }
}
