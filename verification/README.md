# ogon's RDP server: a verified model

ogon's RDP server (`rdp-server/`) shares one framebuffer between several viewers, cuts and packs what it sends
to fit each client, multiplexes virtual channels, and runs it all on a callback-driven event loop. This project
models those parts in Dafny and proves what they are for.

- **Viewers of one framebuffer** (`Regions`, `TileDiff`, `FrameState`, `Fronts`, `FrameWindow`, `Delivery`, `Progress`,
  `FrontHandlers`). Every viewer keeps a client view, a copy of what its client shows, and a pending damage region. A
  backend writes while a sync request is outstanding and lists what it damaged when it replies. The session with any
  number of viewers is a transition system; its invariants give the main results: client views never lie, a
  full-screen request makes the client show the framebuffer, a refresh is answered by the next frame, a viewer that
  suppressed its output, is being resized or moves away is sent nothing, the frames in flight stay within the
  acknowledge window and what was forced past it, and no viewer ever waits for something that is not still to come: a
  reply, an acknowledgement, allowed output or a write event. The tile diff is proved on the buffers it updates in
  place, the handlers that loop over viewers are methods proved to be steps of the system.
- **Bitmap updates** (`BitmapUpdates`). Damage rectangles are aligned, cut into fragments, encoded into a buffer and
  packed greedily into size-limited PDUs: an exact, disjoint cover, no PDU too large, no order-preserving packing with
  fewer PDUs, and the exact condition under which the buffer suffices.
- **pbRPC** (`PbRpc`). Caller threads and the RPC thread as atomic steps of one machine: every callback runs at most
  once, a returned call's stack frame is never written, every answer is the one that was sent for that call, requests
  go out in order, and no call is left behind by a reconnect.
- **Virtual channels** (`Common`, `Bytes`, `DynamicChannel`, `GfxSegments`, `GfxParser`, `FlushLoops`). Fragmentation and
  reassembly under multiplexing, graphics segmentation, the incremental graphics PDU parser and the flush loops, each
  alone and composed into round trips.
- **Hashing** (`Murmur`). Progressive MurmurHash3_x86_32 in both build variants equals the one-shot hash.
- **Bandwidth** (`Bandwidth`). The token-bucket ring conserves every bit, which gives a bound in bits per second for
  whole runs.
- **Event loop** (`EventLoop`). Deferred release and rescheduling, safe for every behaviour of the callbacks, each of
  which is handed exactly the interests it is for, and what a turn has done once it ends.
- **Pointer conversion** (`PointerConversion`). The in-place conversion equals the pixel-by-pixel one.

Nine properties turn out to hold only under a condition. Each has a failing input or run, and the condition is
proved to be exact:

- Sending damage as bitmaps succeeds for every content if and only if the aligned areas, and three bytes for each
  fragment, fit the encoder's buffer, which is a tenth larger than the desktop's pixels (`BitmapUpdates.SendBitmapBits`,
  `BitmapUpdates.BufferSufficesExactly`). The smallest desktop fails whatever its content, and two pixels that share
  their aligned columns fail on a small one (`BitmapUpdates.SmallestDesktopFails`, `BitmapUpdates.SharedColumnsFail`).
- A flush of a channel's transmit buffer repeats bytes whenever it stops at its send limit, because that branch does
  not commit what it sent. It cannot happen if and only if the limit is at least one peek, as the constant in use is
  (`FlushLoops.Channel.Flush`, `FlushLoops.RepeatingFlush`).
- The frame window holds in every run that never lets the viewer past it while it is full
  (`FrameWindow.UnforcedWindow`). Which steps do is stated exactly (`FrameWindow.StepCounts`); each widens the window by
  one frame, until it has room again (`FrameWindow.WindowAlong`, `Fronts.WindowHolds`). From a viewer within its window
  an immediate request and its frame leave it if and only if it was full (`Fronts.ImmediatePassesWindow`), and from
  every start there is a run that does (`FrameWindow.WindowExceeded`).
- A write event closes a viewer's connection if and only if the viewer is not waiting for written output
  (`Progress.WriteEventDisconnects`). Which steps bring that about is stated exactly (`Progress.SpoiledExactly`), and
  without them no write event ever closes the connection (`Progress.StaysConnected`). A refresh while output is blocked
  is one (`Progress.RefreshDisconnects`).
- A turn of the event loop ends if and only if the callbacks it runs make finitely many reschedule calls
  (`EventLoop.TurnEndsExactly`, `EventLoop.TurnEnds`). A callback that always asks to be called again keeps it from
  ending (`EventLoop.AskingForEver`), and nothing is freed then (`EventLoop.Loop.Dispatch`).
- A refresh rectangle whose right or bottom is 0xFFFF refreshes nothing, since adding one wraps in 16 bits
  (`Fronts.RefreshExact`, `Fronts.RefreshWraps`).
- The stream allocated for a segmented graphics PDU suffices up to 65532 full segments; beyond that its 32-bit size
  wraps (`GfxSegments.AllocationSuffices`, `GfxSegments.AllocationWraps`).
- A frame is allotted its share of the bit rate, rounded down, if and only if 1024 times the measured kilobits do not
  wrap in 32 bits (`Bandwidth.ShareExactly`); at four gigabit a frame is allotted nothing (`Bandwidth.RateWraps`).
- Charging traffic loses bits if and only if the bits or the new debt do not fit 32 bits (`Bandwidth.ChargeExact`,
  `Bandwidth.ChargeWraps`).

Integers are unbounded; where 32-bit arithmetic can wrap and it matters, the wrap is written out or excluded by a
precondition. Encoders are lossless functions with the size bound the code relies on. The backend, the kernel,
pipes, clients and callbacks are parameters: every answer they can give is covered.

## Model

| member | source | states |
|---|---|---|
| Fronts.ViewsAreSound | rdp-server/frontend.c:216-280 | in every run, for every viewer and pixel: a client view pixel that is not blank is what the client shows; outside pending damage and unreported writes it is blank or the framebuffer's |
| Fronts.FullRequestConverges | rdp-server/peer.c:381-432 | after a full-screen damage request, whatever happens until that viewer next sends, other viewers joining, leaving or being disconnected included, but for a new framebuffer, the send makes its client show exactly the framebuffer |
| Fronts.NewFramebufferForgets | rdp-server/backend.c:341-446 | a new framebuffer in between forgets the request: no damage is pending and nothing of the client view is known |
| Fronts.ClosingMoves | rdp-server/peer.c:340-363 | a connection that is closed changes nothing for the other viewers but their place in the list |
| Fronts.FullSendConverges | rdp-server/graphics.c:1223-1353 | a viewer with everything damaged that sends on a reply shows the framebuffer |
| Fronts.ApplyKeepsOk | rdp-server/frontend.c:154-351 | every step of every handler keeps both session invariants, view soundness and the frame window |
| Fronts.RunKeepsOk | rdp-server/frontend.c:154-351 | so does every run |
| Fronts.WindowHolds | rdp-server/frontend.c:154-212 | in every run with a positive window, nextFrameId <= lastAckFrame + frameAcknowledge + 2 plus what was let past the window, and one less while waiting for the timer or a reply; with room in the window nothing counts as let past it |
| FrameWindow.UnforcedWindow | rdp-server/frontend.c:154-212 | for a viewer that joins with room in its window, in every run that never lets it past its full window: nextFrameId <= lastAckFrame + frameAcknowledge + 2, and one less while the next frame is still to be made |
| FrameWindow.WindowAlong | rdp-server/frontend.c:154-212 | over any run, wherever other viewers come and go, the window is widened by at most the number of steps that let the viewer past it |
| FrameWindow.StepCounts | rdp-server/peer.c:381-432 | of all steps exactly a full-screen or refresh request in a phase it forces, framebuffer information and a bypassing event let a viewer past its window, only while it is full and the phase is not a paced one, and each counts once |
| FrameWindow.JoinCounts | rdp-server/peer.c:516-600 | a viewer that joins counts the frames it brings beyond its window, and nothing if it has room |
| FrameWindow.WindowExceeded | rdp-server/peer.c:381-432 | from every start there is a run with one viewer that ends beyond the window |
| Fronts.ReceiveKeepsWindow | rdp-server/graphics.c:1060-1095 | handling a reply numbers at most one new frame, only from a phase that left room for it |
| Fronts.AcknowledgePaces | rdp-server/frontend.c:1279-1307 | an acknowledgement leaves view, damage and frame numbers sound and reopens the window only as far as it acknowledges |
| Delivery.AcknowledgementCounts | rdp-server/frontend.c:1279-1307 | an acknowledgement is recorded in every phase, and never goes back |
| Fronts.SuppressPaces | rdp-server/frontend.c:1094-1119 | suppressing or allowing output keeps the window and the view |
| Delivery.RunSilent | rdp-server/state.c:169-283 | a viewer with a reason to be sent nothing is sent nothing, by any run, until an event that ends the reason |
| Delivery.SuppressedGetsNothing | rdp-server/frontend.c:1094-1119 | so a client that suppresses its output, until it allows it again |
| Delivery.ResizedFirst | rdp-server/backend.c:297-339 | so after a change of size, until the viewer has been resized |
| Delivery.ResizeHoldsTimer | rdp-server/state.c:169-283 | of all events exactly four take a machine with a pending resize from the timer, and no request for a frame is among them |
| Delivery.ResizedGoesOn | rdp-server/state.c:263-279 | and then it goes on |
| Delivery.MovingGetsNothing | rdp-server/peer.c:260-304 | so on the way to another session |
| Delivery.UnopenedGetsNothing | rdp-server/state.c:197-207 | so without an open graphics channel |
| Delivery.SendsMeans | rdp-server/state.c:177-184 | who is sent a frame on a reply |
| Fronts.TickPaces | rdp-server/frontend.c:282-351 | a timer tick, with or without bandwidth and progressive updates, keeps the window and the view |
| Delivery.TickWithoutBandwidth | rdp-server/frontend.c:332-349 | a tick without bandwidth asks for no frame |
| Delivery.TickRetries | rdp-server/frontend.c:282-306 | a quality update asks again while a reply is awaited |
| Fronts.FrameWrittenPaces | rdp-server/frontend.c:193-212 | a written frame moves on only if the window allows it |
| Delivery.NextFrameNeedsTick | rdp-server/frontend.c:193-212 | after a written frame the next one is asked for at once only if a tick has allowed it |
| Delivery.NextFrameNeedsTickToo | rdp-server/frontend.c:1121-1141 | so after an acknowledgement |
| Delivery.PendingDamageGoesOn | rdp-server/frontend.c:154-189 | a viewer that asks with damage pending need not wait for a tick before it asks again |
| Delivery.AttachedAsksAtOnce | rdp-server/state.c:189-196 | a viewer that gets a backend, or its output back, asks for a frame at once |
| Fronts.ImmediatePaces | rdp-server/peer.c:381-432 | an immediate request only adds damage and moves the automaton, counting exactly when the window is full |
| Fronts.ImmediatePassesWindow | rdp-server/peer.c:381-432 | from a viewer within its window, in every phase the request forces, the request and the frame that answers it exceed the window if and only if it was full, which it can be only while waiting for an acknowledgement or for written output |
| Fronts.RefreshPassesWindow | rdp-server/frontend.c:1041-1092 | the same if and only if for a refresh request with any areas |
| Fronts.RefreshExact | rdp-server/frontend.c:1041-1092 | a refresh touches exactly the requested pixels if and only if neither right nor bottom is 0xFFFF, or nothing on screen was requested |
| Fronts.RefreshWraps | rdp-server/frontend.c:1060-1075 | a client that asks for the whole one-pixel screen by the largest coordinates gets nothing |
| Delivery.RefreshIsServed | rdp-server/frontend.c:1041-1092 | after a refresh request, whatever undisturbed run follows, the viewer's next send takes a frame number, has every requested pixel in its damage, and makes the client show the framebuffer there |
| Delivery.RefreshTouches | rdp-server/frontend.c:1055-1084 | a refresh makes exactly the requested pixels unknown and damaged, for any list of areas, and leaves all other pixels alone |
| Delivery.RequestIsForwarded | rdp-server/peer.c:404-430 | a request is passed on to the backend in every phase between two frames, and only leaves its damage behind in the others |
| Fronts.RefreshAreasKeepOk | rdp-server/frontend.c:1041-1092 | blanking and damaging any list of areas keeps the view sound |
| Fronts.SendKeepsView | rdp-server/graphics.c:1223-1353 | sending keeps the view truthful, also for pixels sent beyond the damage |
| Delivery.ClientShows | rdp-server/graphics.c:1223-1353 | after a reply a client shows the framebuffer where it was sent pixels and what it did elsewhere |
| Delivery.FrameExactly | rdp-server/graphics.c:1305-1353 | a reply takes a frame number exactly when the viewer awaits it and a damaged or listed pixel differs, or a quality update is due |
| Fronts.ConsumeKeepsView | rdp-server/graphics.c:1021-1058 | damage consumed from a reply covers all unreported writes |
| Fronts.ReportedOnScreen | rdp-server/graphics.c:1021-1058 | only rectangles on the screen are taken from a reply |
| Fronts.ReportedMeans | rdp-server/graphics.c:1038-1055 | a pixel is taken from a reply if and only if a listed rectangle on the screen contains it |
| Regions.WithinMeans | rdp-server/graphics.c:1039-1045 | a rectangle passes the test if and only if all its pixels are on the screen |
| Fronts.ReattachOk | rdp-server/backend.c:297-446 | an encoder recreated for a new size or scan line starts with a blank view that claims nothing |
| Fronts.KeptKeepsOk | rdp-server/backend.c:341-446 | framebuffer information with the size and scan line there were keeps every encoder, view and damage and only moves the automata |
| Fronts.DamageGrows | rdp-server/graphics.c:1021-1058 | no step but a send, a new framebuffer or the closing of its own connection takes damage away from a viewer, wherever it is in the list afterwards |
| Fronts.TickAwaitsReply | rdp-server/frontend.c:307-351 | a tick with bandwidth left has every viewer that may produce frames await a reply |
| Progress.NoViewerIsStuck | rdp-server/state.c:169-283 | in every run a viewer waits for an acknowledgement only while its window is full, for a sync reply only while one is outstanding, for written output only while its socket is watched, for active output only while output is suppressed or its channel is missing, and for a resize only where nothing else would move it |
| Progress.ApplyKeepsLive | rdp-server/frontend.c:154-351 | every step of every handler keeps that for all viewers at once |
| Progress.RunKeepsLive | rdp-server/frontend.c:154-351 | so does every run |
| Progress.OnlyRoomMovesOn | rdp-server/frontend.c:1121-1141 | from every reachable state, exactly the acknowledgements that make room in the window end the wait for one |
| Progress.AcknowledgementMovesOn | rdp-server/frontend.c:1121-1141 | the acknowledgement of the newest frame always does |
| Progress.ReplyMovesOn | rdp-server/frontend.c:216-251 | the outstanding reply ends the wait for it |
| Progress.WrittenMovesOn | rdp-server/peer.c:333-360 | in every live session the write event a viewer waits for can come, and ends its wait |
| Progress.OutputMovesOn | rdp-server/state.c:181-204 | allowed output and an open channel, in either order, end the wait for active output, and neither alone does |
| Progress.ForEachWakes | rdp-server/frontend.c:216-280 | in a loop over all viewers a reply requested for one is outstanding for all |
| Progress.ReceiveWakes | rdp-server/frontend.c:216-251 | after a reply no viewer awaits one, so forgetting the outstanding request is right |
| Progress.WriteEventDisconnects | rdp-server/peer.c:340-363 | a write event closes the connection if and only if its viewer does not wait for written output |
| Progress.ImmediateSpoils | rdp-server/peer.c:381-432 | an immediate request leaves a write event behind that will close the connection if and only if output was blocked |
| Progress.ReplySpoils | rdp-server/frontend.c:253-276 | after a reply no such event is left if and only if a blocked viewer was sent a frame, or an unblocked one was not watched any more |
| Progress.RefreshDisconnects | rdp-server/frontend.c:1041-1092 | a viewer whose output is blocked loses its connection by asking for a refresh |
| Progress.SpoiledExactly | rdp-server/frontend.c:193-280 | for every step and every viewer that expects its write event: exactly when it no longer does |
| Progress.StaysConnected | rdp-server/peer.c:340-363 | in a run without such a step no write event closes the viewer's connection |
| FrontHandlers.Connection.HandleSyncReply | rdp-server/frontend.c:216-280 | the two loops over all viewers are exactly one reply step of the session |
| FrontHandlers.Connection.HandleFrameTimer | rdp-server/frontend.c:307-351 | the loop over all viewers is exactly one timer step |
| FrontHandlers.Connection.HandleFramebufferInfo | rdp-server/backend.c:341-446 | the loop over all viewers is exactly one step, to a new framebuffer if size or scan line changed, and otherwise one that keeps all encoders |
| FrontHandlers.Connection.HandleRefreshRect | rdp-server/frontend.c:1041-1092 | the loop over the areas and the request behind it are exactly one refresh step |
| FrontHandlers.Connection.ConsumeDamage | rdp-server/graphics.c:1021-1058 | collects exactly the pixels of the listed rectangles that are on the screen |
| FrontHandlers.BlankArea | rdp-server/encoder.c:386-430 | the row loop blanks exactly the part of the rectangle on the desktop and leaves scan line padding alone |
| FrontHandlers.DiffForSend | rdp-server/graphics.c:1223-1353 | the diff on the encoder's buffers is a legal send and leaves that viewer's next client view in the buffer |
| TileDiff.SimplifyDamage | rdp-server/graphics.c:910-989 | the view equals the framebuffer on the whole input region and is unchanged elsewhere, every differing input pixel is reported, the report lies in grid tiles with a change, and inside the input unless tiles are reported whole |
| TileDiff.CompareAndUpdate | rdp-server/graphics.c:872-908 | reports equality exactly, and leaves the rectangle copied and everything else untouched although it compares and copies row by row |
| TileDiff.DiffTileInPlace | rdp-server/graphics.c:940-985 | one tile in place is one tile on values |
| TileDiff.DiffedByTiles | rdp-server/graphics.c:910-989 | any walk whose tiles lie in the grid and reach all of the input meets the specification |
| TileDiff.WalkTile | rdp-server/graphics.c:925-945 | one step of the walk: tiles clipped at the extents stay in the grid and on the screen and miss no input pixel |
| TileDiff.NothingDiffers | rdp-server/graphics.c:1309-1318 | the reported damage is empty if and only if nothing differed |
| TileDiff.DamageIsNear | rdp-server/graphics.c:910-989 | every reported pixel lies in the same tile of 64 x 64 or 32 x 32 pixels as one that differed |
| BitmapUpdates.SendBitmapBits | rdp-server/graphics.c:655-869 | succeeds if and only if there is damage and every fragment finds room for its raw size and header behind what was encoded before it; then the bitmaps cover the damage, exactly the aligned rectangles, exceed the client's request size in no PDU, and no order-preserving packing has fewer PDUs; otherwise nothing is sent |
| BitmapUpdates.BufferSufficesExactly | rdp-server/encoder.c:88-91 | for damage on the desktop: sending succeeds for every content if and only if the aligned areas plus three bytes for each fragment are at most the buffer |
| BitmapUpdates.FullScreenFits | rdp-server/encoder.c:88-91 | a full-screen update of any content succeeds on every desktop of at least 64 x 64 pixels in whole columns, if the client takes a whole bitmap |
| BitmapUpdates.SufficesExactly | rdp-server/graphics.c:741-747 | any fragments fit for every content an encoder may produce if and only if their raw sizes and headers fit together |
| BitmapUpdates.SmallestDesktopFails | rdp-server/graphics.c:741-747 | a one-pixel desktop fails whatever is encoded |
| BitmapUpdates.SharedColumnsFail | rdp-server/graphics.c:693-747 | two damaged pixels of one line that align to the same columns fail with incompressible content |
| BitmapUpdates.EncodeAll | rdp-server/graphics.c:686-820 | the loops over rectangles, rows and columns produce exactly the specified fragments, and stop exactly when a fragment has not enough room |
| BitmapUpdates.EncodeRows | rdp-server/graphics.c:725-747 | so for the rows of one rectangle |
| BitmapUpdates.EncodeRow | rdp-server/graphics.c:729-747 | so for the fragments of one row |
| BitmapUpdates.AlignIsTight | rdp-server/graphics.c:693-701 | the enlargement is the smallest one on four-pixel columns and stays inside the scan line |
| BitmapUpdates.FragmentSize | rdp-server/graphics.c:703-718 | both shrink loops end with w >= 4 and h >= 1 within the limit, and shrink only what is too large, and no further than needed |
| BitmapUpdates.FragmentsAreLarge | rdp-server/graphics.c:679-718 | a fragment is only smaller than 64 x 64 and its rectangle because one of twice its width or height would exceed the request size |
| BitmapUpdates.RowsCover | rdp-server/graphics.c:720-732 | the rows of fragments are pairwise disjoint, of bounded size, and exactly cover the rectangle down to where they reach |
| BitmapUpdates.FragmentsCover | rdp-server/graphics.c:686-732 | for every rectangle on the desktop the fragments are disjoint, within 64 x 64 and the request size, and exactly cover the aligned rectangle |
| BitmapUpdates.AllFragmentsCover | rdp-server/graphics.c:686-732 | so for any list of rectangles |
| BitmapUpdates.CountPieces | rdp-server/graphics.c:722-723 | the rounded-up division is the number of pieces |
| BitmapUpdates.Pack | rdp-server/graphics.c:833-863 | sends every bitmap once and in order, fails exactly when a single bitmap is too large |
| BitmapUpdates.PackedMeans | rdp-server/graphics.c:833-863 | packed PDUs are consecutive, fit, and each but the last was closed because the next bitmap did not fit |
| BitmapUpdates.GreedyIsOptimal | rdp-server/graphics.c:833-863 | no order-preserving packing uses fewer PDUs |
| BitmapUpdates.BitmapsFit | rdp-server/graphics.c:679-681 | with the encoder's bound no bitmap exceeds a PDU |
| BitmapUpdates.PdusWithinRequest | rdp-server/graphics.c:672-673 | two bytes, and 26 for each bitmap before its data, are at most the client's request size in every PDU |
| PbRpc.CallbackRunsOnce | rdp-server/icp/pbrpc/pbrpc.c:172-188 | in every interleaving of callers, responses, timeouts and reconnects each callback is started at most once |
| PbRpc.HeldCallerIsAlive | rdp-server/icp/pbrpc/pbrpc.c:620-691 | the RPC thread never runs the callback of a synchronous call that has returned |
| PbRpc.ReturnedIsFrozen | rdp-server/icp/pbrpc/pbrpc.c:620-691 | once a synchronous call has returned, no later step changes its stack context or runs its callback |
| PbRpc.CallOutcome | rdp-server/icp/pbrpc/pbrpc.c:628-726 | a returned call has its complete context from exactly one callback, or took its transaction back and none ever ran |
| PbRpc.AnswerIsTheirs | rdp-server/icp/pbrpc/pbrpc.c:172-188 | what a returned synchronous call got: the payload and status of a response that came for it while it was in the table, or a transport error because it was drained or refused, or a timeout because it took its transaction back |
| PbRpc.CallbackGetsTheirs | rdp-server/icp/pbrpc/pbrpc.c:172-188 | so for what the callback of an asynchronous call was handed |
| PbRpc.RefusedIsTold | rdp-server/icp/pbrpc/pbrpc.c:743-746 | an asynchronous call without a connection is told so, once |
| PbRpc.AnswerIsFinal | rdp-server/icp/pbrpc/pbrpc.c:172-188 | once its callback has run an asynchronous call gets no other answer |
| PbRpc.RequestsInOrder | rdp-server/icp/pbrpc/pbrpc.c:574-591 | while a connection is served, the requests sent, being written and queued are exactly those made, in order |
| PbRpc.EndlessWaitEnds | rdp-server/icp/pbrpc/pbrpc.c:668-691 | a caller that lost its transaction and waits without a limit has its event set, or its callback under way |
| PbRpc.ApplyKeepsOk | rdp-server/icp/pbrpc/pbrpc.c:510-591 | every step of every thread keeps the transaction invariant |
| PbRpc.RunKeepsOk | rdp-server/icp/pbrpc/pbrpc.c:510-591 | so does every run |
| PbRpc.NoCallIsOrphaned | rdp-server/icp/pbrpc/pbrpc.c:489-500 | while a connection is up, every transaction in the table has its request with its caller, queued, being written, or sent on this connection |
| PbRpc.ApplyKeepsNoOrphans | rdp-server/icp/pbrpc/pbrpc.c:489-508 | every step keeps that |
| PbRpc.SwappedOrderOrphans | rdp-server/icp/pbrpc/pbrpc.c:489-500 | with the two clean-ups of a reconnect in the other order there is a run from the start after which a call is in the table of a live connection with its request gone |
| Murmur.HashChunks | rdp-server/PMurHash.c:178-281 | for every cutting of a string into Process calls, of either build and at any address, the result is the one-shot hash of the whole |
| Murmur.BuildsAgree | rdp-server/PMurHash.c:189-247 | both builds leave the same hash and live carry bytes for every address, carry and length |
| Murmur.ProcessUnaligned | rdp-server/PMurHash.c:189-203 | the build with unaligned access is byte-wise feeding |
| Murmur.ProcessAligned | rdp-server/PMurHash.c:205-247 | the aligned build with its four carry cases is byte-wise feeding |
| Murmur.DoSplicedWords | rdp-server/PMurHash.c:216-242 | words spliced behind the carried bytes |
| Murmur.DoBytes | rdp-server/PMurHash.c:163-172 | shifting bytes through the carry word is byte-wise feeding, stale bits included |
| Murmur.FeedIsBlocks | rdp-server/PMurHash.c:286-291 | byte-wise feeding is the block-wise reference hash |
| Murmur.BlocksCompose | rdp-server/PMurHash.c:286-291 | the reference hash of two parts carries the first part's tail into the second |
| Murmur.KnownValues | rdp-server/PMurHash.c:148-160 | the bit operations give the published values of the hash: no data under three seeds, one block under two, tails of three, two and one bytes |
| Murmur.BlockIs | rdp-server/PMurHash.c:148-160 | mixing a block is that bit operation on the 32-bit words |
| Murmur.TailIs | rdp-server/PMurHash.c:263-281 | so for a tail |
| Murmur.FinalIs | rdp-server/PMurHash.c:263-281 | so for the final mix |
| Murmur.OneBlock | rdp-server/PMurHash.c:178-203 | the reference of one block, by any mixing |
| Murmur.OneTail | rdp-server/PMurHash.c:263-281 | the reference of a tail alone, by any mixing |
| Murmur.WordValue | rdp-server/PMurHash.c:63-104 | a word is its bytes in little-endian order |
| Murmur.PackKeepsLive | rdp-server/PMurHash.c:250-258 | packing the count into the carry loses no live byte |
| Murmur.ResultReadsPending | rdp-server/PMurHash.c:263-281 | the final mix reads the live bytes only |
| Murmur.PointerHash | rdp-server/backend.c:475-487 | the up to eight Process calls of the cursor cache, each of either build at its own address, give the hash of the concatenated fields |
| DynamicChannel.MultiplexedRoundTrip | rdp-server/channels.c:577-650 | for every interleaving of the PDUs written for any messages on any channels the reader accepts all of them, and every channel gets its messages complete and in order, with its counter back at 0 |
| DynamicChannel.CounterAfterMessage | rdp-server/channels.c:502-553 | at every point of such an interleaving where a channel has got the last PDU of a message, its counter is at 0 and it has exactly its messages so far |
| DynamicChannel.ReadMessage | rdp-server/channels.c:502-553 | one message arrives whole and leaves the remaining-length counter at 0 |
| DynamicChannel.ReadMessages | rdp-server/channels.c:502-553 | so do any messages one after the other |
| DynamicChannel.ChannelsAreIndependent | rdp-server/channels.c:577-650 | on a shared transport every channel reads exactly its own PDUs |
| DynamicChannel.VarRoundTrip | rdp-server/channels.c:396-421 | reading a variable-length integer undoes writing it |
| DynamicChannel.WriteMessage | rdp-server/channels.c:1471-1499 | the fragment loop produces the announced first PDU and the data PDUs of a message |
| DynamicChannel.PdusFillChunks | rdp-server/channels.c:1471-1499 | no PDU of a message exceeds the chunk size, and all but the last use it up |
| DynamicChannel.WireLayout | rdp-server/channels.c:1471-1486 | command, length code and id code share the first byte; ids and lengths take one, two or four bytes |
| DynamicChannel.CounterAccounts | rdp-server/channels.c:502-553 | for every accepted PDU, written by whomever: what was received and what is missing add up to what was announced |
| DynamicChannel.ReceiveAnnounced | rdp-server/channels.c:502-534 | a first PDU sets the counter to what is still missing |
| DynamicChannel.Manager.HandlePdu | rdp-server/channels.c:577-650 | the channel table after one PDU, also when it is refused |
| DynamicChannel.Manager.HandleWire | rdp-server/channels.c:577-650 | reading stops exactly at the first refused PDU |
| GfxSegments.GraphicsRoundTrip | rdp-server/rdpgfx.c:575-741 | a graphics PDU whose stream fits the memory reserved for it is recovered byte for byte after segmentation, fragmentation on a dynamic channel and reassembly |
| GfxSegments.StreamRoundTrip | rdp-server/rdpgfx.c:575-661 | a reader of the specification recovers every PDU whose segment count fits its field |
| GfxSegments.StreamLayout | rdp-server/rdpgfx.c:575-661 | the bytes in front: descriptor, number of segments, length of the whole, length and type of the first segment |
| GfxSegments.WriteWireToSurface | rdp-server/rdpgfx.c:575-661 | the writer that splits header and bitmap across segments writes the same stream as segmenting the whole PDU, with the announced number of segments |
| GfxSegments.WireToSurface1 | rdp-server/rdpgfx.c:575-661 | any bitmap is written as its segmented PDU; if that fits the memory reserved for it, a reader of the specification recovers it whole, and reading it by the specification's offsets gives back surface, codec, pixel format, the four coordinates and the bitmap |
| GfxSegments.WireToSurface2 | rdp-server/rdpgfx.c:663-741 | the same with the header of the second command, codec context included |
| GfxSegments.CutJoined | rdp-server/rdpgfx.c:575-661 | the pieces add up to the PDU and their number is the announced ceiling |
| GfxSegments.Cut | rdp-server/rdpgfx.c:575-661 | no piece is longer than 65535 bytes |
| GfxSegments.AllocationSuffices | rdp-server/rdpgfx.c:611-614 | the allocated stream is large enough if and only if the PDU has at most 65532 full segments' length |
| GfxSegments.AllocationWraps | rdp-server/rdpgfx.c:611-614 | one byte more and 65531 bytes are allocated for more than 4 GB |
| GfxParser.ChunkingIsIrrelevant | rdp-server/rdpgfx.c:431-545 | however the input is cut, the same PDUs are dispatched in order, and the same bytes are left, as when it is parsed whole |
| GfxParser.ConsumeSplit | rdp-server/rdpgfx.c:431-545 | parsing a prefix and then the rest is parsing the whole, closing included |
| GfxParser.PdusRoundTrip | rdp-server/rdpgfx.c:431-545 | encoded PDUs reach their handlers with their own command and body up to the first that fails, and no byte is left over |
| GfxParser.ShortLengthCloses | rdp-server/rdpgfx.c:454-459 | a PDU that announces less than its header closes the channel, whatever follows |
| GfxParser.Parser.Receive | rdp-server/rdpgfx.c:431-545 | one chunk; the stream holds fewer bytes than required between calls, every turn takes at least one byte, the closing internal check never fails |
| GfxParser.Parser.ReceiveAll | rdp-server/rdpgfx.c:431-545 | any sequence of chunks is the whole input |
| GfxParser.Parser.constructor | rdp-server/rdpgfx.c:547-573 | an opened channel starts with an empty stream and eight required bytes |
| FlushLoops.Channel.Flush | rdp-server/channels.c:191-259 | bytes sent, less those repeated, and bytes left are the bytes there were; what is left waits for a write event; repetition is excluded by a limit of at least one peek and happens below it with every client that keeps reading |
| FlushLoops.RepeatingFlush | rdp-server/channels.c:246-251 | a client that reads everything is sent two bytes twice by two flushes with a limit of one |
| FlushLoops.Channel.Receive | rdp-server/channels.c:532-533 | with the limit in use the client is handed exactly a prefix of what was received, in every run |
| FlushLoops.Channel.Writable | rdp-server/channels.c:972-994 | a write event keeps that, and a client that keeps reading gets everything |
| FlushLoops.Drain | rdp-server/backend.c:65-107 | no byte is lost, repeated or reordered whatever the pipe answers; a pipe still ready means an empty ring |
| FlushLoops.Backend.DrainOutput | rdp-server/backend.c:1021-1042 | bytes still waiting have a write event coming |
| FlushLoops.Backend.WriteMessage | rdp-server/backend.c:109-146 | the content provider has been handed a prefix of all messages written |
| FlushLoops.Backend.Writable | rdp-server/backend.c:1108-1120 | a write event keeps that, and a provider that keeps reading gets everything |
| FlushLoops.FlushInternal | rdp-server/channels.c:197-212 | whatever the peeks are, an internal channel's parser goes through the waiting bytes as through one chunk |
| FlushLoops.GraphicsPdusReachHandlers | rdp-server/channels.c:197-212 | graphics PDUs cut into messages anywhere and sent over a dynamic channel in PDUs of any size reach their handlers one by one |
| Bandwidth.RateBound | rdp-server/bandwidth_mgmt.c:63-106 | in auto mode, over every run, bits sent less debt are at most the first bucket total plus all allotments plus one allotment per free grant, and free grants times fps + 1 are at most the ticks; over whole seconds of one bit rate that is at most the rate, written as numbers, and one fps-th of it |
| Bandwidth.TickAllots | rdp-server/bandwidth_mgmt.c:63-80 | a frame is allotted its share of the configured rate, of 1024 times the measured kilobits, or of ten megabit, rounded down |
| Bandwidth.AllotmentIsRate | rdp-server/bandwidth_mgmt.c:63-80 | over a run without a new measurement, allotted * fps <= ticks * rate, and ticks * rate + ticks <= (allotted + ticks) * fps |
| Bandwidth.ShareExactly | rdp-server/bandwidth_mgmt.c:63-80 | for every frame rate of 32 bits: a frame is allotted its share if and only if the measured rate does not wrap |
| Bandwidth.RateWraps | rdp-server/bandwidth_mgmt.c:73 | a measured four gigabit allots nothing |
| Bandwidth.NotStarved | rdp-server/bandwidth_mgmt.c:82-100 | of any fps + 1 ticks in a row, whatever the debt, one brings a budget |
| Bandwidth.RunBalances | rdp-server/bandwidth_mgmt.c:63-195 | the exact balance of a run: sent, owed, held and expired bits against held, allotted and granted ones |
| Bandwidth.GrantsAreRare | rdp-server/bandwidth_mgmt.c:82-92 | every free grant takes fps suppressed frames first |
| Bandwidth.ChargeConserves | rdp-server/bandwidth_mgmt.c:123-195 | bucket decreases plus new debt are the bits charged, and a new debt means a maximum frame size of 0 |
| Bandwidth.ChargeExact | rdp-server/bandwidth_mgmt.c:176-195 | the 32-bit charge is the exact one if and only if its bits fit 32 bits, and so does the debt with what the current bucket and the window cannot pay of them |
| Bandwidth.UsageExcess | rdp-server/bandwidth_mgmt.c:154-175 | the new debt is what the current bucket and the window cannot pay, or all buckets if the window is empty |
| Bandwidth.ChargeWraps | rdp-server/bandwidth_mgmt.c:176-195 | half a gigabyte written at once is charged as nothing |
| Bandwidth.RunExact | rdp-server/bandwidth_mgmt.c:63-195 | over a run in which every charge fits, the 32-bit manager is the one the rate bound speaks of |
| Bandwidth.DrainConserves | rdp-server/bandwidth_mgmt.c:123-151 | the recursive drain conserves bits for every index and depth, also for depth 0, which wraps |
| Bandwidth.DrainOldestFirst | rdp-server/bandwidth_mgmt.c:123-151 | the window pays oldest bucket first, each what it holds; the excess is exactly what the window could not pay |
| Bandwidth.ExcessEmptiesWindow | rdp-server/bandwidth_mgmt.c:123-220 | an excess leaves the buckets of the next frame budget empty, for every index and window of 1 to 15 buckets |
| Bandwidth.BandwidthManager.constructor | rdp-server/bandwidth_mgmt.c:48-61 | all buckets start with one frame's share |
| Bandwidth.BandwidthManager.UpdateBucket | rdp-server/bandwidth_mgmt.c:63-106 | one tick on the ring array |
| Bandwidth.BandwidthManager.UpdateUsageRec | rdp-server/bandwidth_mgmt.c:123-151 | the recursive drain on the ring array |
| Bandwidth.BandwidthManager.UpdateDataUsage | rdp-server/bandwidth_mgmt.c:154-195 | one charge on the ring array in 32-bit arithmetic, for any traffic |
| Bandwidth.BandwidthManager.MaxTargetFrameSize | rdp-server/bandwidth_mgmt.c:198-220 | the frame budget is the newest buckets of the window, summed in 32 bits |
| Bandwidth.WindowIsNewest | rdp-server/bandwidth_mgmt.c:198-220 | the budget is the current bucket and those just before it |
| Bandwidth.UsedBuckets | rdp-server/bandwidth_mgmt.c:109-120 | the window is the acknowledge window, or half a second of frames without one, and never exceeds the ring |
| EventLoop.Loop.Dispatch | rdp-server/eventloop.c:498-541 | whatever callbacks do, and however long they go on: every reported source is called unless removed, and no callback runs on a removed or freed source; once the turn ends, every rescheduled source has been called unless removed, all removed sources are freed and none is left listed; until then nothing is freed; whether it has ended after a number of rounds is stated exactly |
| EventLoop.TurnEnds | rdp-server/eventloop.c:149-163 | a turn whose callbacks make at most r reschedule calls ends, after at most the reported events, the listed sources and r more callbacks |
| EventLoop.TurnEndsExactly | rdp-server/eventloop.c:149-163 | a turn ends if and only if the callbacks it runs make finitely many reschedule calls |
| EventLoop.AskingForEver | rdp-server/eventloop.c:149-163 | a callback that always asks to be called again is the only one left and runs for ever |
| EventLoop.Loop.Callback | rdp-server/eventloop.c:149-163 | runs only on a source in memory that is not marked, directly behind its own event in the log, and any calls it makes keep the loop's invariant |
| EventLoop.MasksAreRight | rdp-server/eventloop.c:149-163 | in a safe log a callback on a report is handed exactly the reported interests its source is registered for, and a rescheduled one exactly those asked for since it was last called again |
| EventLoop.Loop.Report | rdp-server/eventloop.c:511-534 | one reported event: the callback runs with its mask unless the source is marked |
| EventLoop.Loop.RunHead | rdp-server/eventloop.c:152-160 | the head of the list runs with the interests asked for |
| EventLoop.Loop.TreatRescheduled | rdp-server/eventloop.c:149-163 | followed for any number of rounds: whoever was in the list was called, has been removed or is still listed, and the list is exactly what the callbacks left |
| EventLoop.Loop.TreatCleanups | rdp-server/eventloop.c:132-147 | frees exactly the sources marked for removal |
| EventLoop.Loop.Destroy | rdp-server/eventloop.c:166-187 | every source ever added has been freed |
| EventLoop.Loop.Live | rdp-server/eventloop.c:132-541 | over a loop's whole life, with any calls between and inside turns, the log is safe; if every turn ends, every source added has been freed |
| EventLoop.Loop.AddSource | rdp-server/eventloop.c:205-269 | a new source is listed and watched |
| EventLoop.Loop.RescheduleSource | rdp-server/eventloop.c:429-442 | a source is listed once however often it is rescheduled, also from its own callback |
| EventLoop.Loop.RemoveSource | rdp-server/eventloop.c:452-491 | a source is marked and put up for cleanup once however often it is removed |
| EventLoop.Loop.ChangeSource | rdp-server/eventloop.c:392-427 | only the mask changes |
| EventLoop.NoCallbackAfter | rdp-server/eventloop.c:498-541 | in a safe log no callback follows its source's removal or release |
| EventLoop.FreedOnce | rdp-server/eventloop.c:132-147 | in a safe log no source is freed twice |
| PointerConversion.Pointer.ToMono | rdp-server/backend.c:516-589 | the shared buffer holds the pixel-by-pixel conversion of the original image, the mask its transparent pixels, nothing else changes; other depths are refused unchanged |
| PointerConversion.MaskBit | rdp-server/backend.c:576-582 | the AND bit of a pixel is set if and only if its alpha is at most 127, and padding bits are 0, for either stride |
| PointerConversion.ColorsAt | rdp-server/backend.c:549-584 | each pixel becomes three equal bytes: white if its alpha is at least 128 and its luma 0.299 r + 0.587 g + 0.114 b at least 128, black otherwise |
| PointerConversion.ConvertedIs | rdp-server/backend.c:547-586 | converted pixels followed by the untouched image: nothing still to be read is overwritten |
| PointerConversion.GreyFits | rdp-server/backend.c:555-572 | the weighted sum fits 32 bits and its bit 31 is luma 128 or more |
| PointerConversion.GreyIsLuma | rdp-server/backend.c:555-572 | the rounded integer weights decide exactly as the luma does |
| PointerConversion.Stride | rdp-server/backend.c:529-539 | a mask row has room for every pixel under either stride, and is the shortest such row of whole bytes or words |

## Left out

- Handlers on values: the automaton of state.c and the per-viewer handlers are functions on records; the in-place loops over viewers, areas and buffers are the methods of FrontHandlers and TileDiff.
- Fronts.Spontaneous: which events other code raises in which phase is taken from its call sites; a resize is triggered only while waiting for the backend or the timer.
- Changes of the acknowledge window (suspension by queue depth, round-trip measurement) in the session model; the bandwidth model has them.
- BitmapUpdates.SendBitmapBits: the buffer size of a desktop of 4 GB and more is not wrapped to 32 bits, and an encoder that fails or exceeds its byte limit is not modelled.
- GfxSegments.GraphicsRoundTrip: PDUs for which the code's own buffer is too small are excluded, see GfxSegments.AllocationSuffices.
- Framebuffer information from a backend that is not active, or for a viewer that has no encoder yet.
- Fronts.WindowHolds: covers the graphics channel, where a frame takes one number; the surface frame marker path counts twice.
- Opening and closing the graphics channel, re-activation, and the shadowing rewire protocol; a source switch is a new framebuffer.
- PDUs and replies other than what the shown writers emit: truncated channel PDUs are refused by the modelled length checks, but bytes left in a buffer behind a short PDU are not modelled.
- Allocation, encoder, epoll and pipe set-up failures, and server shutdown.
- Codec choice, H.264, lossy quality, the debug overlay and the damage statistics.
- GfxParser.Parser.Receive: the handlers of single PDUs are a parameter, so the capability rules are not modelled.
- FlushLoops.RingBuffer.Peek: the ring buffer is its contract, the unread bytes in order, delivered in one or two pieces.
- FlushLoops.Channel.Flush: after a failed write the channel is closed and nothing is promised about its bytes.
- PbRpc: requests from the peer, protobuf bodies, and the reuse of a tag after 2^32 calls.
- Murmur.PointerHash: field bytes are those of a little-endian host; the search for a cache slot is not modelled.
- Bandwidth.RateBound: speaks of charges that fit 32 bits, see Bandwidth.RunExact; measuring bandwidth and round trips is not modelled.
- EventLoop.Loop.Dispatch: the code has no limit on a turn; following it for a number of rounds is how a turn that never ends is stated.
- EventLoop.Loop.Perform: a call that names a source already freed is a caller's error and skipped; the select() build is not modelled.
- PointerConversion.Pointer.ToMono: a mask byte is its eight bits, so the or and and operations on bytes are updates of one bit.
- Input events, static channels' own framing, session management, ICP stubs, authentication, command line and logging.
