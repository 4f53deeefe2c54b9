/**
 * The props that decide whether a player renders and which identity it
 * plays under: `src` (a URI string) or `source` (a descriptor object that the
 * component serialises to text), and the two validation failures under which
 * the component renders nothing.
 */
module VideoProps {
  import opened Wrappers
  import opened Coordination

  /**
   * The `src` prop at run time. A falsy value that is not a string (`0`,
   * `false`, `null`) behaves exactly like an absent one, so it is `NoSrc`;
   * `SrcNonString` is a truthy value that is not a string.
   */
  datatype SrcProp = NoSrc | SrcString(uri: string) | SrcNonString

  /** `source` is given as its serialised text, which is all the component uses of it. */
  datatype PlayerProps = PlayerProps(src: SrcProp, source: Option<Identity>)

  /** What the native element is handed: the descriptor itself, or `{uri: src}`. */
  datatype VideoSource = Descriptor(serialised: Identity) | UriSource(uri: string)

  datatype PropsError =
    | MissingSource   // neither `src` nor `source`
    | SrcNotString    // `src` present but not a string

  /** JavaScript truthiness of `src` (the empty string is falsy). */
  predicate SrcTruthy(src: SrcProp)
  {
    src.SrcNonString? || (src.SrcString? && src.uri != "")
  }

  /**
   * The two props shapes the TypeScript type admits: with `src` and without
   * `source`, or without `src`.
   */
  predicate WellTyped(p: PlayerProps)
  {
    p.src.NoSrc? || p.source.None?
  }

  /** The render-time checks and the source handed to the native element. */
  function Validate(p: PlayerProps): (r: Result<VideoSource, PropsError>)
    ensures r == Failure(MissingSource) <==> !SrcTruthy(p.src) && p.source.None?
    ensures r == Failure(SrcNotString) <==> p.src.SrcNonString?
    ensures r.Success? && p.source.Some? ==> r.value == Descriptor(p.source.value)
    ensures r.Success? && p.source.None? ==> p.src.SrcString? && p.src.uri != "" && r.value == UriSource(p.src.uri)
  {
    if !SrcTruthy(p.src) && p.source.None? then
      Failure(MissingSource)
    else if SrcTruthy(p.src) && !p.src.SrcString? then
      Failure(SrcNotString)
    else if p.source.Some? then
      Success(Descriptor(p.source.value))
    else
      Success(UriSource(p.src.uri))
  }

  /**
   * The identity `isPlaying` compares the slot with: `src` when it is truthy,
   * otherwise the serialised `source`. A truthy non-string `src` is compared
   * as it is and can never equal the slot, so it has no identity.
   */
  function WatchIdentity(p: PlayerProps): (id: Option<Identity>)
    ensures id.Some? <==> Validate(p).Success?
    ensures p.src.SrcString? && p.src.uri != "" ==> id == Some(p.src.uri)
    ensures !SrcTruthy(p.src) ==> id == p.source
  {
    if p.src.SrcNonString? then None
    else if p.src.SrcString? && p.src.uri != "" then Some(p.src.uri)
    else p.source
  }

  /**
   * The identity the poster and play buttons write into the slot
   * (`source ? JSON.stringify(source) : src ? src : null`); these buttons
   * exist only on a player that rendered.
   */
  function PlayIdentity(p: PlayerProps): (id: Option<Identity>)
    requires Validate(p).Success?
    ensures id.Some?
    ensures p.source.Some? ==> id == p.source
    ensures p.source.None? ==> id == Some(p.src.uri)
  {
    if p.source.Some? then p.source else Some(p.src.uri)
  }

  /** On props the TypeScript type admits, a player plays under the identity it writes. */
  lemma IdentitiesAgree(p: PlayerProps)
    requires Validate(p).Success? && WellTyped(p)
    ensures PlayIdentity(p) == WatchIdentity(p)
  {
  }

  /**
   * With both a non-empty `src` and a `source`, the buttons write the
   * serialised `source` while `isPlaying` compares with `src`: pressing play
   * leaves the player paused unless the two texts happen to be equal.
   */
  lemma IdentitiesDisagreeWithBoth(p: PlayerProps)
    requires p.src.SrcString? && p.src.uri != "" && p.source.Some?
    ensures Validate(p).Success?
    ensures PlayIdentity(p) == WatchIdentity(p) <==> p.source.value == p.src.uri
  {
  }
}
