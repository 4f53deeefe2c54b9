/**
 * The playback coordination context (`VideoPlayerContext` and
 * `VideoPlayerProvider`): one shared "currently playing" slot per provider
 * tree. A player is playing exactly when the slot holds its own identity, so
 * at most one identity plays at any time and clearing the slot pauses every
 * player. Nothing enforces this at run time; it follows from how `isPlaying`
 * is derived, which is what the lemmas below prove.
 */
module Coordination {
  import opened Wrappers

  /** `src`, or the serialised `source` descriptor, treated as opaque text. */
  type Identity = string

  /**
   * The context a player reads: the provider's state cell, shared by
   * reference with every player under it, or the default value a player
   * outside any provider sees, whose setter does nothing.
   */
  class PlaybackContext {
    const provided: bool
    var currentlyPlaying: Option<Identity>

    /** Outside a provider the slot is `null` and stays so. */
    ghost predicate Valid()
      reads this
    {
      !provided ==> currentlyPlaying == None
    }

    /** A provider mounts with nothing playing. */
    constructor ()
      ensures provided && currentlyPlaying == None
      ensures Valid()
    {
      provided := true;
      currentlyPlaying := None;
    }

    /** The context's default value: `null`, with a setter that ignores its argument. */
    constructor Default()
      ensures !provided && currentlyPlaying == None
      ensures Valid()
    {
      provided := false;
      currentlyPlaying := None;
    }

    /** `setCurrentlyPlaying`: under a provider the last write wins; otherwise nothing happens. */
    method SetCurrentlyPlaying(id: Option<Identity>)
      requires Valid()
      modifies this
      ensures Valid()
      ensures provided ==> currentlyPlaying == id
      ensures !provided ==> currentlyPlaying == old(currentlyPlaying) == None
    {
      if provided {
        currentlyPlaying := id;
      }
    }
  }

  /**
   * `isPlaying` of a player whose identity is `id` (`None` when the player
   * has neither a usable `src` nor a `source`, in which case it never plays).
   */
  function IsPlayingAs(slot: Option<Identity>, id: Option<Identity>): (r: bool)
    ensures r ==> slot.Some? && slot == id
    ensures slot.Some? && slot == id ==> r
  {
    id.Some? && slot == id
  }

  /** Identities of players that are pairwise different (absent ones aside). */
  predicate DistinctIdentities(ids: seq<Option<Identity>>)
  {
    forall i, j :: 0 <= i < j < |ids| && ids[i].Some? ==> ids[i] != ids[j]
  }

  /** How many of the players with identities `ids` are playing. */
  function PlayingCount(slot: Option<Identity>, ids: seq<Option<Identity>>): nat
  {
    if ids == [] then 0
    else (if IsPlayingAs(slot, ids[0]) then 1 else 0) + PlayingCount(slot, ids[1..])
  }

  /** When no player matches the slot, none is playing. */
  lemma {:induction false} NoMatchNonePlaying(slot: Option<Identity>, ids: seq<Option<Identity>>)
    requires forall j :: 0 <= j < |ids| ==> !IsPlayingAs(slot, ids[j])
    ensures PlayingCount(slot, ids) == 0
  {
    if ids != [] {
      NoMatchNonePlaying(slot, ids[1..]);
    }
  }

  /** Single playback: among players with different identities at most one plays. */
  lemma {:induction false} AtMostOnePlaying(slot: Option<Identity>, ids: seq<Option<Identity>>)
    requires DistinctIdentities(ids)
    ensures PlayingCount(slot, ids) <= 1
  {
    if ids != [] {
      var rest := ids[1..];
      if IsPlayingAs(slot, ids[0]) {
        forall j | 0 <= j < |rest|
          ensures !IsPlayingAs(slot, rest[j])
        {
          assert rest[j] == ids[j + 1];
        }
        NoMatchNonePlaying(slot, rest);
      } else {
        AtMostOnePlaying(slot, rest);
      }
    }
  }

  /** `setCurrentlyPlaying(null)` pauses every player. */
  lemma {:induction false} ClearedSlotPausesAll(ids: seq<Option<Identity>>)
    ensures PlayingCount(None, ids) == 0
  {
    if ids != [] {
      ClearedSlotPausesAll(ids[1..]);
    }
  }

  /**
   * Writing a player's identity into the slot makes it the one player that
   * plays: every other player is paused by the same write.
   */
  lemma {:induction false} OwnerIsSolePlayer(ids: seq<Option<Identity>>, k: nat)
    requires DistinctIdentities(ids)
    requires k < |ids| && ids[k].Some?
    ensures IsPlayingAs(ids[k], ids[k])
    ensures forall j :: 0 <= j < |ids| && j != k ==> !IsPlayingAs(ids[k], ids[j])
    ensures PlayingCount(ids[k], ids) == 1
  {
    if k == 0 {
      var rest := ids[1..];
      forall j | 0 <= j < |rest|
        ensures !IsPlayingAs(ids[0], rest[j])
      {
        assert rest[j] == ids[j + 1];
      }
      NoMatchNonePlaying(ids[0], rest);
    } else {
      var rest := ids[1..];
      assert rest[k - 1] == ids[k];
      assert DistinctIdentities(rest) by {
        forall i, j | 0 <= i < j < |rest| && rest[i].Some?
          ensures rest[i] != rest[j]
        {
          assert rest[i] == ids[i + 1] && rest[j] == ids[j + 1];
        }
      }
      OwnerIsSolePlayer(rest, k - 1);
      assert !IsPlayingAs(ids[k], ids[0]);
    }
  }
}
