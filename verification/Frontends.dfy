/** The input frontends, normalised markers and semantic aspects of the policy layer. */
module Frontends {
  import opened Options

  datatype Frontend = Auto | Reflex | VkNvLowLatency2 | XeLL | AntiLag2

  const FRONTENDS: nat := 4

  /** The state index of a frontend; Auto has none. */
  function IndexOf(f: Frontend): (i: Option<nat>)
    ensures i.Some? ==> i.value < FRONTENDS
    ensures i.None? <==> f == Auto
  {
    match f
    case Reflex => Some(0)
    case VkNvLowLatency2 => Some(1)
    case XeLL => Some(2)
    case AntiLag2 => Some(3)
    case Auto => None
  }

  datatype Marker =
    | SimulationStart | SimulationEnd | RenderSubmitStart | RenderSubmitEnd | PresentStart | PresentEnd
    | InputSample | TriggerFlash | PcLatencyPing
    | OutOfBandRenderSubmitStart | OutOfBandRenderSubmitEnd | OutOfBandPresentStart | OutOfBandPresentEnd

  datatype Aspect =
    | Pacing | Enabled | Boost | MinimumInterval | MarkerOptimization
    | SimulationLifecycle | RenderLifecycle | PresentLifecycle | InputSampling | TriggerFlashAspect
    | PcLatencyPingAspect | OutOfBandLifecycle | FrameGeneration

  function AspectForMarker(m: Marker): Aspect {
    match m
    case SimulationStart => SimulationLifecycle
    case SimulationEnd => SimulationLifecycle
    case RenderSubmitStart => RenderLifecycle
    case RenderSubmitEnd => RenderLifecycle
    case PresentStart => PresentLifecycle
    case PresentEnd => PresentLifecycle
    case InputSample => InputSampling
    case TriggerFlash => TriggerFlashAspect
    case PcLatencyPing => PcLatencyPingAspect
    case _ => OutOfBandLifecycle
  }
}
