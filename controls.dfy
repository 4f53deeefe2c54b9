/**
 * The state each surface (the inline view and the Android fullscreen modal)
 * keeps on its own, and the three things that happen to its control overlay:
 * it is displayed (cancel the pending hide, schedule a new one, show the
 * overlay), the scheduled hide fires, or the overlay is tapped away.
 *
 * Timers are not modelled as elapsed time. A surface records the handle its
 * ref holds (`hideHandle`) and the hides the runtime still has scheduled
 * (`pendingHides`); a hide fires only while it is scheduled.
 */
module Controls {
  import opened Wrappers

  /** What `setTimeout` returns. */
  type TimerId = nat

  datatype Surface = Inline | Fullscreen

  datatype SurfaceState = SurfaceState(
    position: nat,            // last `currentTime` reported by `onProgress`
    buffered: nat,            // last `playableDuration` reported by `onProgress`
    loaded: bool,             // the surface's video has fired `onLoad`
    controlsVisible: bool,    // `showControls` / `showFullscreenControls`
    hideHandle: Option<TimerId>,  // the surface's controls-timeout ref
    pendingHides: set<TimerId>,   // hides the runtime still has scheduled
    seekRequest: Option<int>) // last target handed to the native `seek`
  {
    /** The only hide scheduled for the surface, if any, is the one its handle names. */
    predicate AtMostOneHide()
    {
      pendingHides == HandleSet(hideHandle)
    }
  }

  function HandleSet(h: Option<TimerId>): set<TimerId>
  {
    if h.Some? then {h.value} else {}
  }

  /** A surface as the component mounts it: zero positions, nothing loaded or shown. */
  const InitialSurface := SurfaceState(0, 0, false, false, None, {}, None)

  /**
   * `displayInlineControls` / `displayFullScreenControls`: clear the pending
   * hide, schedule `timer`, show the overlay. Every hide scheduled before is
   * cancelled, so the countdown restarts from this call.
   */
  function Displayed(st: SurfaceState, timer: TimerId): (r: SurfaceState)
    ensures r.controlsVisible && r.hideHandle == Some(timer)
    ensures st.AtMostOneHide() ==> r.AtMostOneHide() && r.pendingHides == {timer}
    ensures r.position == st.position && r.buffered == st.buffered && r.loaded == st.loaded
    ensures r.seekRequest == st.seekRequest
  {
    st.(pendingHides := (st.pendingHides - HandleSet(st.hideHandle)) + {timer},
        hideHandle := Some(timer),
        controlsVisible := true)
  }

  /**
   * `hideInlineControls` / `hideFullScreenControls` when hide `t` fires: the
   * handle is cleared, and the overlay is hidden only if the player is still
   * playing at that moment.
   */
  function HideFired(st: SurfaceState, t: TimerId, playing: bool): (r: SurfaceState)
    requires t in st.pendingHides
    ensures t !in r.pendingHides && r.hideHandle == None
    ensures r.controlsVisible <==> st.controlsVisible && !playing
    ensures st.AtMostOneHide() ==> r.AtMostOneHide() && r.pendingHides == {}
    ensures r.position == st.position && r.buffered == st.buffered && r.loaded == st.loaded
    ensures r.seekRequest == st.seekRequest
  {
    st.(hideHandle := None,
        pendingHides := st.pendingHides - {t},
        controlsVisible := if playing then false else st.controlsVisible)
  }

  /** A tap on the visible overlay: cancel the pending hide, clear the handle, hide the overlay. */
  function OverlayTapped(st: SurfaceState): (r: SurfaceState)
    ensures !r.controlsVisible && r.hideHandle == None
    ensures st.AtMostOneHide() ==> r.AtMostOneHide() && r.pendingHides == {}
    ensures r.pendingHides <= st.pendingHides
    ensures r.position == st.position && r.buffered == st.buffered && r.loaded == st.loaded
    ensures r.seekRequest == st.seekRequest
  {
    var cleared := if st.hideHandle.Some? then st.pendingHides - {st.hideHandle.value} else st.pendingHides;
    st.(pendingHides := cleared, hideHandle := None, controlsVisible := false)
  }

  /**
   * `isLoading` / `fullscreenIsLoading`: playing, and the buffered duration
   * does not reach past the position.
   */
  function Loading(playing: bool, st: SurfaceState): (r: bool)
    ensures r <==> playing && st.buffered <= st.position
  {
    playing && st.buffered - st.position <= 0
  }
}
