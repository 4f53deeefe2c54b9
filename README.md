# React Native video player: playback state machine in Dafny

This project models the logic inside `VideoPlayer` and `VideoPlayerProvider` of
`react-native-modern-video-player`, a React Native component that wraps a
native video element and adds play/pause, seek, mute, fullscreen and
auto-hiding controls. The model leaves out the rendering. It keeps the parts
that decide behaviour:

- **`TimeFormat`** models `formatSecondsTime`, the `mm:ss` label, over whole
  seconds. `ParseClock` is its inverse reading. The module proves that every
  label reads back as its duration, that the minutes field is `floor(d/60)`
  with at least two digits and never truncated, and that the seconds field
  is exactly two digits holding `d mod 60`.
- **`Coordination`** models the provider's shared "currently playing" slot
  (`PlaybackContext`, passed by reference), and the context's default value
  that a player outside any provider reads: a `null` slot whose setter does
  nothing, so such a player never plays. It also models `isPlaying` as
  "the slot holds my identity". Over any list of players with distinct
  identities, it proves three facts:
  - at most one player plays;
  - clearing the slot pauses all of them;
  - writing an identity into the slot makes its owner the only player.
- **`VideoProps`** models the `src`/`source` props. Its parts are:
  - the two validation failures under which the component renders nothing;
  - the source handed to the native element;
  - the two identity expressions in the code. `isPlaying` prefers `src`; the
    play buttons write `source` first.

  The two identities agree on every props shape the TypeScript type admits.
  When a JavaScript caller passes both a non-empty `src` and a `source`, the
  play buttons write the serialised `source` but `isPlaying` compares with
  `src`. The player then stays paused after play is pressed
  (`IdentitiesDisagreeWithBoth`).
- **`Controls`** models the per-surface state of the inline view and of the
  Android fullscreen modal: position, buffered duration, loaded flag,
  overlay flag, hide-timer handle, and the hides still scheduled. It defines
  three spec functions:
  - showing the controls, which cancels the pending hide and schedules a new
    one;
  - a scheduled hide firing, which hides the controls only while playing;
  - tapping the overlay away.

  Each spec function preserves "at most one pending hide per surface".
- **`Player`** models the component itself. `VideoPlayer` is a class whose
  fields are the component's state cells and refs, with one method per event
  handler. `Valid()` is the invariant every handler keeps:
  - one pending hide per surface at most;
  - the inline video loads only after it has started;
  - the fullscreen modal, with its loaded flag and overlay, exists only on
    Android while in fullscreen.

  Each method states the player's whole new state through `View()`, so
  "nothing else changes" is part of every contract. Client methods show
  three scenarios:
  - play on one player pauses the other;
  - the fullscreen position hand-off works in both directions;
  - two players with different identities are never playing together.

Calls into the native video element and the orientation locker are
recorded, not performed. A surface's `seekRequest` is the last target passed
to its `seek`, and only while that surface's video is mounted, as with
`ref.current?.seek(...)`. `orientation` is the last lock requested. Timers
are not time. A `setTimeout` adds a fresh id to the surface's
`pendingHides`, `clearTimeout` removes it, and `FireHide` is the runtime
calling the hide callback of a hide that is still scheduled.

Three behaviours of the code a reader might expect otherwise:

- The auto-hide timer is not disarmed while paused. A hide is still
  scheduled, and when it fires it only clears its handle and keeps the
  controls visible (`HideFired`, `FireHide`).
- `formatSecondsTime` does not clamp negative values. Positions shown are
  the ones the native element reports, which are non-negative here (`nat`).
  A seek target below zero (`PressSeek` backward near 0) is passed to the
  native element unchanged.
- The inline `onEnd` shows the inline controls without scheduling a hide.

## Model

| member | source | states |
|---|---|---|
| `TimeFormat.NatToString` | src/index.tsx:54 | `toString` of a whole number: non-empty, all digits, a leading zero only for 0, one digit below 10, at most two below 100 |
| `TimeFormat.PadStart` | src/index.tsx:54 | `padStart(2, '0')`: the result has length max(len, width), ends with the input and is filled with the pad character in front |
| `TimeFormat.Field` | src/index.tsx:54 | one padded field is all digits, reads back as its number, has at least two characters and exactly two below 100 |
| `TimeFormat.FormatSecondsTime` | src/index.tsx:51-55 | the label is the minutes field of floor(d/60), a colon three characters from the end, then the field of d mod 60 |
| `TimeFormat.ParseNatToString` | src/index.tsx:54 | reading back the decimal text of n gives n |
| `TimeFormat.ParseIgnoresLeadingZeros` | src/index.tsx:54 | zero padding on the left does not change the value a digit string denotes |
| `TimeFormat.FormatFields` | src/index.tsx:52-54 | the minutes field denotes floor(d/60) and has at least two digits, never truncated; the seconds field is exactly two digits denoting d mod 60 |
| `TimeFormat.FormatRoundTrip` | src/index.tsx:51-55 | every label reads back as the duration it was made from |
| `TimeFormat.FormatExamples` | src/index.tsx:51-55 | 65 s gives "01:05", 5 s gives "00:05", 6000 s gives "100:00" |
| `Coordination.PlaybackContext.constructor` | src/index.tsx:65-66 | a provider starts with the slot empty |
| `Coordination.PlaybackContext.Default` | src/index.tsx:57-63 | outside any provider the context is a `null` slot with a setter that does nothing |
| `Coordination.PlaybackContext.SetCurrentlyPlaying` | src/index.tsx:57-73 | under a provider the setter replaces the shared slot (last write wins); outside one the slot stays `null` |
| `Coordination.IsPlayingAs` | src/index.tsx:139-145 | a player plays exactly when the slot is non-null and equals its identity; a player without identity never plays |
| `Coordination.NoMatchNonePlaying` | src/index.tsx:139-145 | when no identity equals the slot, no player is playing |
| `Coordination.AtMostOnePlaying` | src/index.tsx:139-145 | among players with distinct identities at most one is playing, whatever the slot holds |
| `Coordination.ClearedSlotPausesAll` | src/index.tsx:361 | with the slot set to null no player is playing |
| `Coordination.OwnerIsSolePlayer` | src/index.tsx:364-370 | writing a player's identity makes it play and every other player (distinct identity) paused; exactly one plays |
| `VideoProps.Validate` | src/index.tsx:188-213 | renders nothing exactly when neither a truthy `src` nor `source` is given, or `src` is truthy and not a string; otherwise the native source is `source`, or `{uri: src}` when `source` is absent |
| `VideoProps.WatchIdentity` | src/index.tsx:139-145 | `isPlaying`'s identity exists exactly for props that render; it is `src` whenever `src` is a non-empty string, and the serialised `source` when `src` is falsy |
| `VideoProps.PlayIdentity` | src/index.tsx:274-276 | the identity the play buttons write exists for every rendered player; it is the serialised `source` when one is given, and `src` otherwise |
| `VideoProps.IdentitiesAgree` | src/index.tsx:85-94 | on props the TypeScript type admits, the identity written by play is the one `isPlaying` compares with |
| `VideoProps.IdentitiesDisagreeWithBoth` | src/index.tsx:364-370 | with both a non-empty `src` and a `source`, the props render but the written and the compared identities agree only if the two texts are equal |
| `Controls.Displayed` | src/index.tsx:169-186 | showing controls leaves them visible with the handle on the new timer; with at most one hide before, exactly the new hide is pending and every earlier one is cancelled; position, buffer, loaded flag and seek are unchanged |
| `Controls.HideFired` | src/index.tsx:155-167 | the fired hide is no longer pending and the handle is cleared; the controls stay visible exactly when they were and the player is paused; at most one pending hide is kept |
| `Controls.OverlayTapped` | src/index.tsx:306-312 | a tap on the overlay hides it, clears the handle and cancels the pending hide, leaving none |
| `Controls.Loading` | src/index.tsx:151-153 | a surface is loading exactly when playing and its buffered duration does not exceed its position |
| `Player.VideoPlayer.constructor` | src/index.tsx:116-137 | a player mounts with every state cell at its default and satisfies the invariant; it exists only for props that render |
| `Player.VideoPlayer.IsPlaying` | src/index.tsx:139-145 | the player is playing exactly when the shared slot is non-null and holds its identity |
| `Player.VideoPlayer.VideoMounted` | src/index.tsx:217-219 | the inline video is mounted only after the poster has given way and outside fullscreen; the modal's video only on Android in fullscreen, and on a valid player exactly then; never both at once |
| `Player.VideoPlayer.RequestSeek` | src/index.tsx:256-257 | `ref.current?.seek(target)`: the seek is recorded on a mounted surface and nothing changes on an unmounted one |
| `Player.VideoPlayer.SpinnerVisible` | src/index.tsx:288 | a spinner is shown only while playing, before the surface's video has loaded, with nothing buffered past the position, and only on the surface on screen |
| `Player.VideoPlayer.OverlayVisible` | src/index.tsx:300-304 | the overlay needs the surface loaded and its controls shown, implies that surface's video is mounted, and is never shown inline on iOS with native controls |
| `Player.VideoPlayer.DisplayControls` | src/index.tsx:169-186 | cancel-then-reschedule on the named surface: the controls are visible, exactly the new hide is pending, the fresh timer was not pending before, nothing else changes |
| `Player.VideoPlayer.FireHide` | src/index.tsx:155-167 | a scheduled hide firing clears the handle and leaves no hide pending; the controls are hidden only if the player is still playing |
| `Player.VideoPlayer.TapOverlay` | src/index.tsx:306-312 | tapping the visible overlay hides it, clears the handle and leaves no hide pending |
| `Player.VideoPlayer.TapVideo` | src/index.tsx:221 | a tap on the video displays the controls when it has loaded and changes nothing otherwise |
| `Player.VideoPlayer.PressPoster` | src/index.tsx:271-276 | the poster's play button starts the video and writes the player's identity; under a provider, on well-typed props, the player is then playing; outside a provider the slot stays `null` and it is not; nothing else changes |
| `Player.VideoPlayer.PressPlayPause` | src/index.tsx:358-373 | if playing, the slot becomes null and the player is paused; otherwise started is set and, under a provider, the slot holds the player's identity (outside one it stays `null` and the player stays paused); the controls are redisplayed and no other field changes |
| `Player.VideoPlayer.PressSeek` | src/index.tsx:334-338 | the surface's video is asked to seek to its position minus (or plus) `skipInterval`, and the controls are redisplayed |
| `Player.VideoPlayer.PressPlaylistButton` | src/index.tsx:346-355 | after the host's previous/next callback only the controls are redisplayed |
| `Player.VideoPlayer.PressMute` | src/index.tsx:427-445 | `muted` flips and the controls of the surface pressed are redisplayed |
| `Player.VideoPlayer.PressEnterFullscreen` | src/index.tsx:448-460 | on iOS nothing in the model changes (native presentation); on Android fullscreen is entered, landscape requested and the fullscreen controls displayed |
| `Player.VideoPlayer.ExitFullscreen` | src/index.tsx:204-211 | sets `returnFromFullscreen`, clears fullscreen, fullscreen-loaded and fullscreen controls, requests portrait and redisplays the inline controls |
| `Player.VideoPlayer.InlineLoad` | src/index.tsx:241-247 | records duration and load; after a return from fullscreen the inline video seeks to the fullscreen position |
| `Player.VideoPlayer.InlineProgress` | src/index.tsx:235-238 | the inline position and buffered duration become the reported ones |
| `Player.VideoPlayer.InlineEnd` | src/index.tsx:252-260 | shows the inline controls; with `repeat` the slot is unchanged, otherwise it becomes null and the inline video seeks to 0 |
| `Player.VideoPlayer.FullscreenLoad` | src/index.tsx:536-542 | records duration and load; the fullscreen video seeks to the inline position |
| `Player.VideoPlayer.FullscreenProgress` | src/index.tsx:545-548 | the fullscreen position and buffered duration become the reported ones |
| `Player.VideoPlayer.FullscreenEnd` | src/index.tsx:552-559 | the slot becomes null, both positions reset to 0, the fullscreen video seeks to 0, and fullscreen is left with the inline controls displayed |
| `Player.SinglePlayback` | src/index.tsx:139-145 | two players under one provider with different identities are never both playing |
| `Player.PlayPausesOther` | src/index.tsx:358-373 | pressing play on a paused player makes it play and pauses the one that was playing |
| `Player.FullscreenRoundTrip` | src/index.tsx:536-542 | entering fullscreen seeks the fullscreen video to the inline position; exiting and reloading seeks the inline video to the last fullscreen position |

## Left out

- Rendering: the JSX layout, styles, icons, `Modal`/`StatusBar`/`ActivityIndicator` presentation and the seek-bar widths. The widths use floating-point division and divide by zero while the duration is 0.
- The native video element and the orientation locker are foreign code. Seeks and lock requests are recorded as the last request; their effects are not modelled. `presentFullscreenPlayer` on iOS leaves no trace in the model.
- Timer durations (`hideControlsTimeout`, default 4000 ms). A hide fires when `FireHide` is called, so "hidden after about 4000 ms, not before" is not modelled. The model assumes that a timer handle is truthy, as the non-zero ids of React Native's timers are.
- Floating point. Positions, durations and buffered durations are whole seconds (`nat`). So `Math.round` of a fractional remainder, which can print "00:60" for 59.6 s, is not modelled.
- `JSON.stringify` of `source`. The model holds `source` as its serialised text and treats that text as opaque.
- React's render cycle and batching. Each handler runs its state updates in order against the values of the render it was created in. No handler here reads a cell after writing it, so sequential assignment gives the same result.
- The host callbacks and other native props passed through. `onProgress`, `onLoad` and `onEnd` are invoked after the player's own updates; `onPreviousVideo` and `onNextVideo` are invoked before the controls are displayed again. What a callback does is the host's code; the model records no call.
- Props are fixed for a player's lifetime (`props` is a constant). In the code a host may re-render with another `src` or `source`: the identity `isPlaying` compares with changes at once, and the new `src` remounts the videos (`key={src}`), while `inlineVideoStarted`, `videoLoaded`, the positions, the timer handles and `returnFromFullscreen` carry over. Neither effect is modelled.
- Unmounting: pending hides are not cleared when a player unmounts, and the model has no unmount.
- `__DEV__` console diagnostics on invalid props. Only the "render nothing" outcome is modelled (`Validate`).
- `Player.VideoPlayer.PressPlaylistButton`: the previous/next buttons appear only when the host passes the callback. The model does not track which callbacks were passed, and allows the press whenever the overlay is visible.
- The icon components, `example/src/App.tsx` and `prettier.config.js`, which hold no logic.
