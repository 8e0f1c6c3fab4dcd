/** The automaton that paces one front connection's frames (rdp-server/state.c). */
module FrameState {
  datatype Phase =
    | WaitingBackend | WaitingTimer | WaitingSyncReply | WaitingActiveOutput
    | WaitingFrameSent | WaitingAck | EventloopMove | WaitingResize

  datatype Event =
    | BackendAttached | SyncReplyReceived | SyncRequested | RewireOriginal | TriggerRewire | BackendSwitch
    | EnableOutput | DisableOutput | FrameAckSend | FrameAckReceived | FrameSent | ImmediateRequest
    | NewShadowing | RewireError | TriggerResize | Resized | FrameTimer | WaitingGfx | StopWaitingGfx
    | BandwidthFail | BandwidthGood

  datatype Machine = Machine(current: Phase, resizePending: bool, outputSuppressed: bool,
                             waitingForBandwidth: bool, waitingGraphicsPipeline: bool, handleFrame: bool)

  /** A pending resize keeps a machine that waits for the timer where it is. */
  function ToSyncReply(m: Machine): Machine {
    if m.resizePending && m.current == WaitingTimer then m else m.(current := WaitingSyncReply)
  }

  function ToTimer(m: Machine): Machine {
    m.(handleFrame := true, current := WaitingTimer)
  }

  /** ogon_state_set_event */
  function SetEvent(m: Machine, e: Event): Machine {
    match e
    case SyncReplyReceived =>
      m.(current := if m.outputSuppressed || m.waitingGraphicsPipeline then WaitingActiveOutput else WaitingFrameSent)
    case DisableOutput => m.(outputSuppressed := true)
    case EnableOutput =>
      (if !m.waitingGraphicsPipeline && m.current == WaitingActiveOutput then ToTimer(m) else m).(outputSuppressed := false)
    case WaitingGfx => m.(waitingGraphicsPipeline := true)
    case StopWaitingGfx =>
      (if !m.outputSuppressed && m.current == WaitingActiveOutput then ToTimer(m) else m).(waitingGraphicsPipeline := false)
    case BandwidthFail => m.(waitingForBandwidth := true)
    case BandwidthGood => m.(waitingForBandwidth := false)
    case FrameAckReceived => m.(current := WaitingTimer)
    case SyncRequested => ToSyncReply(m.(handleFrame := false))
    case FrameAckSend => m.(current := WaitingAck)
    case FrameSent => m.(current := WaitingTimer)
    case ImmediateRequest => ToSyncReply(m.(handleFrame := true))
    case TriggerRewire => m.(handleFrame := true, current := EventloopMove)
    case NewShadowing => ToTimer(m)
    case RewireOriginal => ToTimer(m)
    case RewireError => m.(current := WaitingTimer)
    case BackendSwitch => m.(handleFrame := true, current := WaitingBackend)
    case TriggerResize => m.(resizePending := true)
    case BackendAttached => ToTimer(m)
    case Resized => m.(resizePending := false)
    case FrameTimer => m.(handleFrame := true)
  }

  /** ogon_state_get */
  function Get(m: Machine): Phase {
    if m.resizePending then WaitingResize else m.current
  }

  /** ogon_state_should_create_frame */
  predicate ShouldCreateFrame(m: Machine) {
    && (m.current == WaitingTimer || m.current == WaitingSyncReply)
    && m.handleFrame && !m.resizePending && !m.outputSuppressed && !m.waitingForBandwidth
  }

  /** The phases that are only entered through the frame window, or past a forced request. */
  predicate Paced(m: Machine) {
    m.current == WaitingTimer || m.current == WaitingSyncReply || m.current == WaitingActiveOutput
  }
}
