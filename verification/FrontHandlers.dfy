/**
  The handlers that loop over the front connections (rdp-server/frontend.c, backend.c):
  the session object they update in place, each proved to be one step of the session.
*/
module FrontHandlers {
  import opened Common
  import opened Regions
  import opened TileDiff
  import opened FrameState
  import opened Fronts

  lemma ForEachStep(f0: seq<Front>, i: nat, w0: bool, h: (nat, Front, bool) -> Outcome)
    requires i < |f0|
    ensures var (done, w) := ForEach(f0[..i], w0, h);
            ForEach(f0[..i + 1], w0, h) == (done + [h(i, f0[i], w).front], h(i, f0[i], w).waiting)
  {
    assert f0[..i + 1][..i] == f0[..i];
  }

  class Connection {
    var box: Rect
    var fb: Screen
    var unreported: set<Point>
    var waitingSyncReply: bool
    var fronts: seq<Front>

    ghost function Model(): Session
      reads this
    {
      Session(box, fb, unreported, waitingSyncReply, fronts)
    }

    /** ogon_backend_consume_damage: collect the valid rectangles of the reply. */
    method ConsumeDamage(rects: seq<Rect>) returns (reported: set<Point>)
      ensures reported == Reported(rects, box) && forall p :: p in reported <==> Listed(rects, box, p)
    {
      reported := {};
      for i := 0 to |rects|
        invariant reported == Reported(rects[..i], box)
      {
        assert rects[..i + 1][..i] == rects[..i];
        if RectWithin(rects[i], box) {
          reported := reported + RectPoints(rects[i]);
        }
      }
      assert rects[..|rects|] == rects;
      forall p
        ensures p in reported <==> Listed(rects, box, p)
      {
        ReportedMeans(rects, box, p);
      }
    }

    /** The first loop of frontend_handle_sync_reply. */
    method ReceiveReply(reported: set<Point>, sends: seq<Send>)
      requires |sends| == |fronts|
      modifies this`fronts
      ensures fronts == ReceiveAll(old(fronts), fb, reported, sends)
    {
      for i := 0 to |fronts|
        invariant |fronts| == |old(fronts)| && fronts[i..] == old(fronts)[i..]
        invariant forall j :: 0 <= j < i ==> fronts[j] == Receive(old(fronts)[j], fb, reported, sends[j])
      {
        fronts := fronts[i := Receive(fronts[i], fb, reported, sends[i])];
      }
    }

    /** One turn of such a loop. */
    method HandleFront(i: nat, h: (nat, Front, bool) -> Outcome, ghost f0: seq<Front>, ghost w0: bool)
      requires i < |fronts| == |f0| && fronts[i..] == f0[i..]
      requires (fronts[..i], waitingSyncReply) == ForEach(f0[..i], w0, h)
      modifies this`fronts, this`waitingSyncReply
      ensures |fronts| == |f0| && fronts[i + 1..] == f0[i + 1..]
      ensures (fronts[..i + 1], waitingSyncReply) == ForEach(f0[..i + 1], w0, h)
    {
      ghost var before := fronts[..i];
      assert fronts[i] == fronts[i..][0] == f0[i];
      ForEachStep(f0, i, w0, h);
      var o := h(i, fronts[i], waitingSyncReply);
      fronts := fronts[i := o.front];
      waitingSyncReply := o.waiting;
      assert fronts[..i + 1] == before + [o.front];
      assert fronts[i + 1..] == f0[i..][1..];
    }

    /** A loop over the front connections that handles each in turn. */
    method EachFront(h: (nat, Front, bool) -> Outcome)
      modifies this`fronts, this`waitingSyncReply
      ensures (fronts, waitingSyncReply) == ForEach(old(fronts), old(waitingSyncReply), h)
    {
      for i := 0 to |fronts|
        invariant |fronts| == |old(fronts)| && fronts[i..] == old(fronts)[i..]
        invariant (fronts[..i], waitingSyncReply) == ForEach(old(fronts)[..i], old(waitingSyncReply), h)
      {
        HandleFront(i, h, old(fronts), old(waitingSyncReply));
      }
      assert fronts[..|fronts|] == fronts && old(fronts)[..|fronts|] == old(fronts);
    }

    /**
      frontend_handle_sync_reply: all fronts receive before any of them may ask the backend for
      the next frame, so that they all see the same framebuffer.
    */
    method HandleSyncReply(rects: seq<Rect>, sends: seq<Send>, blocked: seq<bool>)
      requires Enabled(Model(), SyncReply(rects, sends, blocked))
      modifies this
      ensures Model() == Apply(old(Model()), SyncReply(rects, sends, blocked))
    {
      waitingSyncReply, unreported := false, {};
      var reported := ConsumeDamage(rects);
      ReceiveReply(reported, sends);
      EachFront(OnWritten(blocked, RectPoints(box)));
    }

    /** handle_frame_timer_event */
    method HandleFrameTimer(exceeded: seq<bool>, progressive: seq<bool>)
      requires Enabled(Model(), Timer(exceeded, progressive))
      modifies this
      ensures Model() == Apply(old(Model()), Timer(exceeded, progressive))
    {
      EachFront(OnTick(exceeded, progressive, RectPoints(box)));
    }

    /** What framebuffer information amounts to: a new size or scan line needs new encoders, otherwise all stay. */
    ghost function FramebufferStep(newBox: Rect, newScanLine: bool, newFb: Screen, clients: seq<Screen>): Step
      reads this
    {
      if newBox != box || newScanLine then NewFramebuffer(newBox, newFb, clients, newBox != box) else FramebufferKept
    }

    /** ogon_server_framebuffer_info of an active backend. */
    method HandleFramebufferInfo(newBox: Rect, newScanLine: bool, newFb: Screen, clients: seq<Screen>)
      requires Enabled(Model(), FramebufferStep(newBox, newScanLine, newFb, clients))
      modifies this
      ensures Model() == Apply(old(Model()), old(FramebufferStep(newBox, newScanLine, newFb, clients)))
    {
      waitingSyncReply := false;
      var newSize := newBox != box;
      if newSize || newScanLine {
        box, fb, unreported := newBox, newFb, {};
        EachFront(OnReattach(newBox, clients, newSize));
      } else {
        EachFront(OnAttach(RectPoints(box)));
      }
    }

    /** ogon_refresh_rect */
    method HandleRefreshRect(i: nat, areas: seq<Area>)
      requires Enabled(Model(), RefreshRect(i, areas))
      modifies this
      ensures Model() == Apply(old(Model()), RefreshRect(i, areas))
    {
      if |areas| == 0 {
        return;
      }
      ghost var f0 := fronts[i];
      for k := 0 to |areas|
        invariant |fronts| == |old(fronts)| && fronts == old(fronts)[i := RefreshAreas(f0, areas[..k], box)]
        invariant box == old(box) && fb == old(fb) && unreported == old(unreported) && waitingSyncReply == old(waitingSyncReply)
      {
        assert areas[..k + 1][..k] == areas[..k];
        fronts := fronts[i := RefreshArea(fronts[i], areas[k], box)];
      }
      assert areas[..|areas|] == areas;
      var o := Immediate(fronts[i], waitingSyncReply, false, RectPoints(box));
      fronts := fronts[i := o.front];
      waitingSyncReply := o.waiting;
    }
  }

  // ------------------------------------------ the encoder's client view buffer

  /** The desktop's part of a buffer whose scan lines may be longer. */
  function Desktop(s: Screen, box: Rect): Screen {
    map p | p in s.Keys && Inside(box, p) :: s[p]
  }

  /** ogon_encoder_blank_client_view_area: blank the part of r on the desktop, row by row. */
  method BlankArea(view: array2<Pixel>, box: Rect, r: Rect)
    requires box.left == box.top == 0 && RectWithin(box, Bounds(view)) && 0 <= r.left && 0 <= r.top
    modifies view
    ensures Desktop(Shot(view), box) == Blanked(Desktop(old(Shot(view)), box), RectPoints(r))
    ensures forall p :: p in Shot(view) && !Inside(box, p) ==> Shot(view)[p] == old(Shot(view))[p]
  {
    if r.top >= box.bottom || r.left >= box.right {
      return;
    }
    var bottom, right := Min(r.bottom, box.bottom), Min(r.right, box.right);
    if r.top >= bottom || r.left >= right {
      return;
    }
    var i := r.top;
    while i < bottom
      invariant r.top <= i <= bottom
      invariant forall x, y :: 0 <= x < view.Length1 && 0 <= y < view.Length0 ==>
                  view[y, x] == if r.left <= x < right && r.top <= y < i then BLANK else old(view[y, x])
    {
      forall x | r.left <= x < right {
        view[i, x] := BLANK;
      }
      i := i + 1;
    }
  }

  /** The tile diff on whole buffers is the tile diff on the desktop. */
  lemma DiffedOnDesktop(v: Screen, f: Screen, input: set<Point>, fullTiles: bool, v': Screen, damage: set<Point>, box: Rect)
    requires Diffed(v, f, input, fullTiles, v', damage) && v.Keys == f.Keys
    requires input <= RectPoints(box) <= v.Keys
    ensures Diffed(Desktop(v, box), Desktop(f, box), input, fullTiles, Desktop(v', box), damage)
  {
    assert forall s :: s <= input ==> Differing(Desktop(v, box), Desktop(f, box), s) == Differing(v, f, s);
    forall p | p in damage
      ensures exists a, b :: Inside(GridTile(fullTiles, a, b), p)
                          && Differing(Desktop(v, box), Desktop(f, box), input * RectPoints(GridTile(fullTiles, a, b))) != {}
    {
      var a, b :| Inside(GridTile(fullTiles, a, b), p) && Differing(v, f, input * RectPoints(GridTile(fullTiles, a, b))) != {};
      assert input * RectPoints(GridTile(fullTiles, a, b)) <= input;
    }
  }

  /**
    The diff of ogon_send_surface_bits on the encoder's buffers: what it reports is a legal send of
    the front, and the buffer becomes that front's new client view.
  */
  method DiffForSend(view: array2<Pixel>, fb: array2<Pixel>, box: Rect, f: Front, pending: Region, progressive: bool)
    returns (s: Send, rects: Region)
    requires view != fb && Bounds(view) == Bounds(fb) && box.left == box.top == 0 && RectWithin(box, Bounds(view))
    requires Within(pending, box) && f.damage == Points(pending) && f.view == Desktop(Shot(view), box)
    modifies view
    ensures SendOk(f, Desktop(Shot(fb), box), s) && s.damage == Points(rects) && Within(rects, Bounds(view))
    ensures Desktop(Shot(view), box) == SendSurface(f, Desktop(Shot(fb), box), s).view
  {
    ghost var v := Shot(view);
    rects := SimplifyDamage(view, fb, pending, f.fullTiles);
    WithinPoints(pending, box);
    DiffedOnDesktop(v, Shot(fb), f.damage, f.fullTiles, Shot(view), Points(rects), box);
    s := Send(Points(rects), Points(rects), progressive);
  }
}
