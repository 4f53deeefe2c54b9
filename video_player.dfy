/**
 * The `VideoPlayer` component's state machine: its state cells and refs as
 * fields of a class, one method per event handler, and the values the render
 * derives from them (`isPlaying`, the loading spinners, the control
 * overlays).
 *
 * The shared slot is the provider's `PlaybackContext`, held by reference.
 * Calls into the native video element and the orientation locker are
 * recorded rather than performed: a surface's `seekRequest` is the last
 * target handed to its `seek`, and `orientation` the last lock requested.
 */
module Player {
  import opened Wrappers
  import opened Coordination
  import opened VideoProps
  import opened Controls

  datatype Platform = Android | IOS

  datatype OrientationLock = Unlocked | Portrait | Landscape

  /** Every mutable field of a player at one moment, for stating what a handler changes. */
  datatype PlayerView = PlayerView(
    fullscreen: bool,
    duration: nat,
    muted: bool,
    started: bool,
    returnFromFullscreen: bool,
    orientation: OrientationLock,
    nextTimer: TimerId,
    inline: SurfaceState,
    full: SurfaceState)
  {
    function With(s: Surface, st: SurfaceState): PlayerView
    {
      if s == Inline then this.(inline := st) else this.(full := st)
    }
  }

  class VideoPlayer {
    const ctx: PlaybackContext
    const props: PlayerProps
    const platform: Platform
    const iosNativeControls: bool
    const repeat: bool
    const skipInterval: int
    const showSkipButtons: bool

    var fullscreen: bool
    var duration: nat
    var muted: bool
    var started: bool                 // `inlineVideoStarted`: the poster has given way to the video
    var returnFromFullscreen: bool
    var orientation: OrientationLock
    var nextTimer: TimerId            // the id the next `setTimeout` returns
    var inline: SurfaceState
    var full: SurfaceState

    ghost function View(): PlayerView
      reads this
    {
      PlayerView(fullscreen, duration, muted, started, returnFromFullscreen, orientation, nextTimer, inline, full)
    }

    function Surf(s: Surface): SurfaceState
      reads this
    {
      if s == Inline then inline else full
    }

    /**
     * The invariant every handler keeps: one pending hide per surface at
     * most, timer ids not yet handed out are not scheduled, the inline video
     * loads only after it has started, and the fullscreen modal (with its
     * loaded flag and overlay) exists only on Android while in fullscreen.
     */
    ghost predicate Valid()
      reads this
    {
      Validate(props).Success? &&
      inline.AtMostOneHide() && full.AtMostOneHide() &&
      (forall t :: t in inline.pendingHides ==> t < nextTimer) &&
      (forall t :: t in full.pendingHides ==> t < nextTimer) &&
      (inline.loaded ==> started) &&
      (platform == IOS ==> !fullscreen) &&
      (full.loaded ==> fullscreen) &&
      (full.controlsVisible ==> fullscreen)
    }

    /** A player mounts with every state cell at its default; it renders only on valid props. */
    constructor (ctx: PlaybackContext, props: PlayerProps, platform: Platform, iosNativeControls: bool,
                 repeat: bool, skipInterval: int, showSkipButtons: bool)
      requires Validate(props).Success?
      ensures Valid()
      ensures this.ctx == ctx && this.props == props && this.platform == platform
      ensures this.iosNativeControls == iosNativeControls && this.repeat == repeat
      ensures this.skipInterval == skipInterval && this.showSkipButtons == showSkipButtons
      ensures View() == PlayerView(false, 0, false, false, false, Unlocked, 0, InitialSurface, InitialSurface)
    {
      this.ctx := ctx;
      this.props := props;
      this.platform := platform;
      this.iosNativeControls := iosNativeControls;
      this.repeat := repeat;
      this.skipInterval := skipInterval;
      this.showSkipButtons := showSkipButtons;
      fullscreen := false;
      duration := 0;
      muted := false;
      started := false;
      returnFromFullscreen := false;
      orientation := Unlocked;
      nextTimer := 0;
      inline := InitialSurface;
      full := InitialSurface;
    }

    /** `isPlaying`: the shared slot holds this player's identity. */
    function IsPlaying(): (r: bool)
      reads ctx
      ensures r <==> ctx.currentlyPlaying.Some? && ctx.currentlyPlaying == WatchIdentity(props)
    {
      IsPlayingAs(ctx.currentlyPlaying, WatchIdentity(props))
    }

    /**
     * Whether the surface's native video element is mounted (its ref is set):
     * the inline video once the poster has given way and outside fullscreen,
     * the modal's video only on Android in fullscreen. The two are never
     * mounted together.
     */
    predicate VideoMounted(s: Surface): (r: bool)
      reads this
      ensures r && s == Inline ==> started && !fullscreen
      ensures r && s == Fullscreen ==> platform == Android && fullscreen
      ensures r ==> (s == Inline <==> !fullscreen)
      ensures Valid() && s == Fullscreen ==> (r <==> fullscreen)
    {
      if s == Inline then started && !fullscreen else platform == Android && fullscreen
    }

    /** The loading spinner over a surface; a paused player never shows one. */
    function SpinnerVisible(s: Surface): (r: bool)
      reads this, ctx
      ensures r ==> IsPlaying() && !Surf(s).loaded && Surf(s).buffered <= Surf(s).position
      ensures r ==> if s == Inline then !fullscreen else fullscreen
    {
      var shown := if s == Inline then !fullscreen else platform == Android && fullscreen;
      shown && Loading(IsPlaying(), Surf(s)) && !Surf(s).loaded
    }

    /**
     * The control overlay over a surface: the surface is on screen, its video
     * has loaded and its controls are shown; on iOS the inline overlay is
     * replaced by the native controls when those are requested.
     */
    function OverlayVisible(s: Surface): (r: bool)
      reads this
      ensures r ==> Surf(s).loaded && Surf(s).controlsVisible
      ensures r && Valid() ==> VideoMounted(s)
      ensures s == Inline && platform == IOS && iosNativeControls ==> !r
    {
      if s == Inline then
        !fullscreen && inline.loaded && inline.controlsVisible &&
        (platform == Android || !iosNativeControls)
      else
        platform == Android && fullscreen && full.loaded && full.controlsVisible
    }

    method SetSurf(s: Surface, st: SurfaceState)
      modifies this
      ensures View() == old(View()).With(s, st)
    {
      if s == Inline {
        inline := st;
      } else {
        full := st;
      }
    }

    /** `ref.current?.seek(target)`: handed to the surface's video only while it is mounted. */
    method RequestSeek(s: Surface, target: int)
      modifies this
      ensures VideoMounted(s) ==> View() == old(View()).With(s, old(Surf(s)).(seekRequest := Some(target)))
      ensures !VideoMounted(s) ==> View() == old(View())
    {
      if VideoMounted(s) {
        SetSurf(s, Surf(s).(seekRequest := Some(target)));
      }
    }

    /**
     * `displayInlineControls` / `displayFullScreenControls`: clear the
     * pending hide, schedule a new one, show the overlay.
     */
    method DisplayControls(s: Surface)
      requires Valid()
      requires s == Fullscreen ==> fullscreen
      modifies this
      ensures Valid()
      ensures View() == old(View()).With(s, Displayed(old(Surf(s)), old(nextTimer))).(nextTimer := old(nextTimer) + 1)
      ensures Surf(s).controlsVisible && Surf(s).pendingHides == {old(nextTimer)}
      ensures old(nextTimer) !in old(Surf(s).pendingHides)
    {
      var st := Surf(s);
      if st.hideHandle.Some? {
        st := st.(pendingHides := st.pendingHides - {st.hideHandle.value});
      }
      var timer := nextTimer;
      nextTimer := nextTimer + 1;
      st := st.(pendingHides := st.pendingHides + {timer}, hideHandle := Some(timer));
      st := st.(controlsVisible := true);
      SetSurf(s, st);
    }

    /** The scheduled hide `t` of a surface fires. */
    method FireHide(s: Surface, t: TimerId)
      requires Valid() && t in Surf(s).pendingHides
      modifies this
      ensures Valid()
      ensures View() == old(View()).With(s, HideFired(old(Surf(s)), t, IsPlaying()))
      ensures Surf(s).hideHandle == None && Surf(s).pendingHides == {}
      ensures Surf(s).controlsVisible <==> old(Surf(s).controlsVisible) && !IsPlaying()
    {
      var st := Surf(s);
      st := st.(hideHandle := None, pendingHides := st.pendingHides - {t});
      if IsPlaying() {
        st := st.(controlsVisible := false);
      }
      SetSurf(s, st);
    }

    /** A tap on the visible overlay hides it and cancels its pending hide. */
    method TapOverlay(s: Surface)
      requires Valid() && OverlayVisible(s)
      modifies this
      ensures Valid()
      ensures View() == old(View()).With(s, OverlayTapped(old(Surf(s))))
      ensures !OverlayVisible(s) && Surf(s).pendingHides == {} && Surf(s).hideHandle == None
    {
      var st := Surf(s);
      if st.hideHandle.Some? {
        st := st.(pendingHides := st.pendingHides - {st.hideHandle.value}, hideHandle := None);
      }
      st := st.(controlsVisible := false);
      SetSurf(s, st);
    }

    /** A tap on a surface's video: `loaded && displayControls()`. */
    method TapVideo(s: Surface)
      requires Valid() && VideoMounted(s)
      modifies this
      ensures Valid()
      ensures old(Surf(s).loaded) ==> View() == old(View()).With(s, Displayed(old(Surf(s)), old(nextTimer))).(nextTimer := old(nextTimer) + 1)
      ensures !old(Surf(s).loaded) ==> View() == old(View())
    {
      if Surf(s).loaded {
        DisplayControls(s);
      }
    }

    /** The poster's play button: start the video and claim the slot. */
    method PressPoster()
      requires Valid() && ctx.Valid() && !fullscreen && !started
      modifies this, ctx
      ensures Valid() && ctx.Valid()
      ensures ctx.currentlyPlaying == if ctx.provided then PlayIdentity(props) else None
      ensures View() == old(View()).(started := true)
      ensures ctx.provided && WellTyped(props) ==> IsPlaying()
      ensures !ctx.provided ==> !IsPlaying()
    {
      started := true;
      ctx.SetCurrentlyPlaying(PlayIdentity(props));
      IdentitiesOfTypedProps();
    }

    /**
     * The play/pause button of a surface's overlay: a playing player clears
     * the slot; a paused one starts and claims it. Either way the overlay is
     * displayed again.
     */
    method PressPlayPause(s: Surface)
      requires Valid() && ctx.Valid() && OverlayVisible(s)
      modifies this, ctx
      ensures Valid() && ctx.Valid()
      ensures old(IsPlaying()) ==> ctx.currentlyPlaying == None && !IsPlaying()
      ensures old(IsPlaying()) ==>
        View() == old(View()).With(s, Displayed(old(Surf(s)), old(nextTimer))).(nextTimer := old(nextTimer) + 1)
      ensures !old(IsPlaying()) ==> ctx.currentlyPlaying == if ctx.provided then PlayIdentity(props) else None
      ensures !old(IsPlaying()) ==>
        View() == old(View()).(started := true).With(s, Displayed(old(Surf(s)), old(nextTimer))).(nextTimer := old(nextTimer) + 1)
      ensures !old(IsPlaying()) && ctx.provided && WellTyped(props) ==> IsPlaying()
      ensures !ctx.provided ==> !IsPlaying()
    {
      if IsPlaying() {
        ctx.SetCurrentlyPlaying(None);
      } else {
        started := true;
        ctx.SetCurrentlyPlaying(PlayIdentity(props));
        IdentitiesOfTypedProps();
      }
      DisplayControls(s);
    }

    /** The seek buttons: ask the native element for the position `skipInterval` away. */
    method PressSeek(s: Surface, forward: bool)
      requires Valid() && OverlayVisible(s) && showSkipButtons
      modifies this
      ensures Valid()
      ensures var target := if forward then old(Surf(s).position) + skipInterval else old(Surf(s).position) - skipInterval;
        View() == old(View()).With(s, Displayed(old(Surf(s)).(seekRequest := Some(target)), old(nextTimer))).(nextTimer := old(nextTimer) + 1)
    {
      var target := if forward then Surf(s).position + skipInterval else Surf(s).position - skipInterval;
      RequestSeek(s, target);
      DisplayControls(s);
    }

    /** The previous/next buttons: the host's callback runs, then the overlay is displayed again. */
    method PressPlaylistButton(s: Surface)
      requires Valid() && OverlayVisible(s)
      modifies this
      ensures Valid()
      ensures View() == old(View()).With(s, Displayed(old(Surf(s)), old(nextTimer))).(nextTimer := old(nextTimer) + 1)
    {
      DisplayControls(s);
    }

    /** The mute button flips `muted` (shared by both surfaces) and displays the overlay again. */
    method PressMute(s: Surface)
      requires Valid() && OverlayVisible(s)
      modifies this
      ensures Valid()
      ensures muted == !old(muted)
      ensures View() == old(View()).(muted := !old(muted)).With(s, Displayed(old(Surf(s)), old(nextTimer))).(nextTimer := old(nextTimer) + 1)
    {
      muted := !muted;
      DisplayControls(s);
    }

    /**
     * The inline overlay's fullscreen button: on iOS the native element
     * presents its own fullscreen player and nothing here changes; on Android
     * the modal opens in landscape with its overlay displayed.
     */
    method PressEnterFullscreen()
      requires Valid() && OverlayVisible(Inline)
      modifies this
      ensures Valid()
      ensures platform == IOS ==> View() == old(View())
      ensures platform == Android ==>
        View() == old(View()).(fullscreen := true, orientation := Landscape,
                               full := Displayed(old(full), old(nextTimer)), nextTimer := old(nextTimer) + 1)
    {
      if platform == IOS && VideoMounted(Inline) {
        // presentFullscreenPlayer() on the native element
      } else {
        fullscreen := true;
        orientation := Landscape;
        DisplayControls(Fullscreen);
      }
    }

    /**
     * `exitFullScreen`: remember the return, close the modal (its video
     * unloads and its overlay hides), lock to portrait and display the
     * inline overlay. The fullscreen surface's pending hide is left to fire.
     */
    method ExitFullscreen()
      requires Valid() && fullscreen
      modifies this
      ensures Valid()
      ensures View() == old(View()).(returnFromFullscreen := true, fullscreen := false, orientation := Portrait,
                                     full := old(full).(loaded := false, controlsVisible := false),
                                     inline := Displayed(old(inline), old(nextTimer)),
                                     nextTimer := old(nextTimer) + 1)
    {
      returnFromFullscreen := true;
      fullscreen := false;
      full := full.(loaded := false, controlsVisible := false);
      orientation := Portrait;
      DisplayControls(Inline);
    }

    /**
     * The inline video's `onLoad`: record the duration and the load; after a
     * return from fullscreen, continue from where the fullscreen video was.
     */
    method InlineLoad(d: nat)
      requires Valid() && VideoMounted(Inline)
      modifies this
      ensures Valid()
      ensures returnFromFullscreen ==> inline.seekRequest == Some(full.position)
      ensures View() == old(View()).(duration := d,
                                     inline := old(inline).(loaded := true,
                                       seekRequest := if old(returnFromFullscreen) then Some(old(full.position)) else old(inline.seekRequest)))
    {
      duration := d;
      inline := inline.(loaded := true);
      if returnFromFullscreen {
        RequestSeek(Inline, full.position);
      }
    }

    /** The inline video's `onProgress`: the position and buffered duration it reports. */
    method InlineProgress(currentTime: nat, playableDuration: nat)
      requires Valid() && VideoMounted(Inline)
      modifies this
      ensures Valid()
      ensures View() == old(View()).(inline := old(inline).(position := currentTime, buffered := playableDuration))
    {
      inline := inline.(position := currentTime, buffered := playableDuration);
    }

    /**
     * The inline video's `onEnd`: show the inline controls (no hide is
     * scheduled); unless repeating, clear the slot and rewind. The fullscreen
     * video is not mounted, so only the inline one is rewound.
     */
    method InlineEnd()
      requires Valid() && ctx.Valid() && VideoMounted(Inline)
      modifies this, ctx
      ensures Valid() && ctx.Valid()
      ensures inline.controlsVisible
      ensures repeat ==> ctx.currentlyPlaying == old(ctx.currentlyPlaying)
      ensures repeat ==> View() == old(View()).(inline := old(inline).(controlsVisible := true))
      ensures !repeat ==> ctx.currentlyPlaying == None && !IsPlaying()
      ensures !repeat ==> View() == old(View()).(inline := old(inline).(controlsVisible := true, seekRequest := Some(0)))
    {
      inline := inline.(controlsVisible := true);
      if !repeat {
        ctx.SetCurrentlyPlaying(None);
        RequestSeek(Fullscreen, 0);
        RequestSeek(Inline, 0);
      }
    }

    /**
     * The fullscreen video's `onLoad`: record the duration and the load, and
     * continue from where the inline video was.
     */
    method FullscreenLoad(d: nat)
      requires Valid() && VideoMounted(Fullscreen)
      modifies this
      ensures Valid()
      ensures full.seekRequest == Some(inline.position)
      ensures View() == old(View()).(duration := d,
                                     full := old(full).(loaded := true, seekRequest := Some(old(inline.position))))
    {
      duration := d;
      full := full.(loaded := true);
      RequestSeek(Fullscreen, inline.position);
    }

    /** The fullscreen video's `onProgress`. */
    method FullscreenProgress(currentTime: nat, playableDuration: nat)
      requires Valid() && VideoMounted(Fullscreen)
      modifies this
      ensures Valid()
      ensures View() == old(View()).(full := old(full).(position := currentTime, buffered := playableDuration))
    {
      full := full.(position := currentTime, buffered := playableDuration);
    }

    /**
     * The fullscreen video's `onEnd`: clear the slot, show the inline
     * controls, reset both positions to 0, rewind the fullscreen video and
     * leave fullscreen. The inline video is not mounted, so it is not
     * rewound here; it seeks to the (now zero) fullscreen position when it
     * loads again.
     */
    method FullscreenEnd()
      requires Valid() && ctx.Valid() && VideoMounted(Fullscreen)
      modifies this, ctx
      ensures Valid() && ctx.Valid()
      ensures ctx.currentlyPlaying == None && !IsPlaying()
      ensures View() == old(View()).(returnFromFullscreen := true, fullscreen := false, orientation := Portrait,
                                     full := old(full).(position := 0, seekRequest := Some(0), loaded := false, controlsVisible := false),
                                     inline := Displayed(old(inline).(position := 0), old(nextTimer)),
                                     nextTimer := old(nextTimer) + 1)
    {
      ctx.SetCurrentlyPlaying(None);
      inline := inline.(controlsVisible := true);
      full := full.(position := 0);
      inline := inline.(position := 0);
      RequestSeek(Fullscreen, 0);
      RequestSeek(Inline, 0);
      ExitFullscreen();
    }

    lemma IdentitiesOfTypedProps()
      requires Validate(props).Success?
      ensures WellTyped(props) ==> PlayIdentity(props) == WatchIdentity(props)
    {
      if WellTyped(props) {
        IdentitiesAgree(props);
      }
    }
  }

  /**
   * Two players under one provider with different identities are never
   * playing together.
   */
  lemma SinglePlayback(a: VideoPlayer, b: VideoPlayer)
    requires a.ctx == b.ctx && WatchIdentity(a.props) != WatchIdentity(b.props)
    ensures !(a.IsPlaying() && b.IsPlaying())
  {
  }

  /**
   * Pressing play on a paused player pauses the one that was playing under
   * the same provider, within that one update.
   */
  method PlayPausesOther(a: VideoPlayer, b: VideoPlayer)
    requires a.ctx == b.ctx && WatchIdentity(a.props) != WatchIdentity(b.props)
    requires a.IsPlaying() && b.Valid() && b.ctx.Valid() && b.OverlayVisible(Inline) && WellTyped(b.props)
    modifies b, b.ctx
    ensures b.IsPlaying() && !a.IsPlaying()
  {
    b.PressPlayPause(Inline);
  }

  /**
   * The Android fullscreen round trip: the fullscreen video starts where the
   * inline one was, and after leaving fullscreen the inline video, loading
   * again, continues from the fullscreen video's last reported position.
   */
  method FullscreenRoundTrip(p: VideoPlayer, d: nat, t: nat, b: nat)
    requires p.Valid() && p.platform == Android && p.OverlayVisible(Inline)
    modifies p
    ensures p.Valid() && !p.fullscreen
    ensures p.full.seekRequest == Some(old(p.inline.position))
    ensures p.inline.seekRequest == Some(t)
  {
    p.PressEnterFullscreen();
    p.FullscreenLoad(d);
    p.FullscreenProgress(t, b);
    p.ExitFullscreen();
    p.InlineLoad(d);
  }
}
