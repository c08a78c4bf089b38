/** Giving every track of an asset its loop duration, and what that guarantees. */
module LoopDuration {
  import opened Arith
  import opened Timeline
  import opened Tracks

  /** Loop duration in milliseconds, from the first track of the first group (32-bit product). */
  function LoopMS(duration: nat, timeScale: nat): nat
    requires 0 < timeScale
  {
    FloorGalois(U32(duration * 1000), timeScale, 0);
    U32(duration * 1000) / timeScale
  }

  /** Without wrap-around it is the duration in milliseconds, rounded down. */
  lemma LoopMSMeaning(duration: nat, timeScale: nat)
    requires 0 < timeScale && duration * 1000 < TWO32
    ensures LoopMS(duration, timeScale) * timeScale <= duration * 1000 < (LoopMS(duration, timeScale) + 1) * timeScale
    ensures LoopMS(duration, timeScale) * timeScale == duration * 1000 <==> duration * 1000 % timeScale == 0
  {
    DivSplit(duration * 1000, timeScale);
    Distribute(LoopMS(duration, timeScale), 1, timeScale);
  }

  /** Whether a track can loop every loopDurMS; only an audio track after the first group may be longer. */
  predicate Compatible(lateAudio: bool, duration: nat, timeScale: nat, loopDurMS: nat) {
    if lateAudio then U32(loopDurMS * timeScale) <= U32(duration * 1000)
    else U32(duration * 1000) == U32(loopDurMS * timeScale)
  }

  /** The loop duration a compatible track gets, in its own time scale. */
  function AssignedLoop(lateAudio: bool, duration: nat, timeScale: nat, loopDurMS: nat): nat {
    if lateAudio then U32(loopDurMS * timeScale) / 1000 else duration
  }

  datatype TrackGroup = TrackGroup(altGroupID: nat, tracks: seq<ContentTrack>)

  class Asset {
    var groups: seq<TrackGroup>
    var loopDurMS: nat

    ghost predicate HasTrack(g: int, i: int)
      reads this`groups
    {
      0 <= g < |groups| && 0 <= i < |groups[g].tracks|
    }

    ghost function Track(g: int, i: int): ContentTrack
      requires HasTrack(g, i)
      reads this`groups
    {
      groups[g].tracks[i]
    }

    ghost function AllTracks(): set<ContentTrack>
      reads this`groups
    {
      set g, i | 0 <= g < |groups| && 0 <= i < |groups[g].tracks| :: groups[g].tracks[i]
    }

    /** Each slot holds its own track. */
    ghost predicate Unshared()
      reads this`groups
    {
      forall g, i, h, j :: HasTrack(g, i) && HasTrack(h, j) && Track(g, i) == Track(h, j) ==> g == h && i == j
    }

    ghost predicate Fits(g: int, i: int, ms: nat)
      requires HasTrack(g, i)
      reads this`groups, Track(g, i)`contentType, Track(g, i)`duration, Track(g, i)`timeScale
    {
      Compatible(g > 0 && Track(g, i).contentType.Audio?, Track(g, i).duration, Track(g, i).timeScale, ms)
    }

    ghost function Wanted(g: int, i: int, ms: nat): nat
      requires HasTrack(g, i)
      reads this`groups, Track(g, i)`contentType, Track(g, i)`duration, Track(g, i)`timeScale
    {
      AssignedLoop(g > 0 && Track(g, i).contentType.Audio?, Track(g, i).duration, Track(g, i).timeScale, ms)
    }

    ghost function FirstLoopMS(): nat
      requires HasTrack(0, 0) && 0 < Track(0, 0).timeScale
      reads this`groups, if HasTrack(0, 0) then {Track(0, 0)} else {}
    {
      LoopMS(Track(0, 0).duration, Track(0, 0).timeScale)
    }

    /** The asset has one track only. */
    ghost predicate OneTrack()
      reads this`groups
    {
      |groups| == 1 && |groups[0].tracks| == 1
    }

    /**
     * Succeeds exactly when every track is compatible; then every track has its loop duration. A single track is
     * compatible when it lasts a whole number of milliseconds, and loops over its own length.
     * The first group must not be empty and its first track must have a time scale.
     */
    method SetLoopDuration() returns (ok: bool)
      requires Unshared()
      requires groups != [] ==> HasTrack(0, 0) && 0 < Track(0, 0).timeScale
      modifies this`loopDurMS, AllTracks()`loopDur
      ensures ok <==> groups != [] && forall g, i :: HasTrack(g, i) ==> Fits(g, i, FirstLoopMS())
      ensures ok ==> loopDurMS == FirstLoopMS()
      ensures ok ==> forall g, i :: HasTrack(g, i) ==> Track(g, i).loopDur == Wanted(g, i, loopDurMS)
      ensures !ok ==> loopDurMS == old(loopDurMS)
      ensures OneTrack() && Track(0, 0).duration * 1000 < TWO32 ==>
                var t := Track(0, 0);
                && (ok <==> t.duration * 1000 % t.timeScale == 0)
                && (ok ==> loopDurMS * t.timeScale == t.duration * 1000 && t.loopDur == t.duration)
    {
      if |groups| == 0 {
        return false;
      }
      var ms := LoopMS(groups[0].tracks[0].duration, groups[0].tracks[0].timeScale);
      OneTrackFits(this);
      for gNr := 0 to |groups|
        invariant forall g, i :: HasTrack(g, i) && g < gNr ==> Fits(g, i, ms) && Track(g, i).loopDur == Wanted(g, i, ms)
        invariant loopDurMS == old(loopDurMS)
      {
        var group := groups[gNr];
        for tNr := 0 to |group.tracks|
          invariant forall g, i :: HasTrack(g, i) && (g < gNr || (g == gNr && i < tNr))
                      ==> Fits(g, i, ms) && Track(g, i).loopDur == Wanted(g, i, ms)
          invariant loopDurMS == old(loopDurMS)
        {
          var track := group.tracks[tNr];
          assert HasTrack(gNr, tNr) && track == Track(gNr, tNr);
          var lateAudio := gNr > 0 && track.contentType.Audio?;
          if !Compatible(lateAudio, track.duration, track.timeScale, ms) {
            assert !Fits(gNr, tNr, ms);
            return false;
          }
          track.loopDur := AssignedLoop(lateAudio, track.duration, track.timeScale, ms);
        }
      }
      loopDurMS := ms;
      ok := true;
    }
  }

  /** A single track fits its own loop time exactly when that is a whole number of milliseconds. */
  lemma OneTrackFits(a: Asset)
    requires a.HasTrack(0, 0) && 0 < a.Track(0, 0).timeScale
    ensures a.OneTrack() && a.Track(0, 0).duration * 1000 < TWO32 ==>
              var t := a.Track(0, 0);
              && (a.Fits(0, 0, a.FirstLoopMS()) <==> t.duration * 1000 % t.timeScale == 0)
              && (t.duration * 1000 % t.timeScale == 0 ==> a.FirstLoopMS() * t.timeScale == t.duration * 1000)
              && a.Wanted(0, 0, a.FirstLoopMS()) == t.duration
  {
    if a.Track(0, 0).duration * 1000 < TWO32 {
      LoopMSMeaning(a.Track(0, 0).duration, a.Track(0, 0).timeScale);
    }
  }

  /**
   * Without wrap-around, in wall-clock time: M is the duration of the first track in whole milliseconds. A track
   * passes exactly when it lasts M milliseconds, or at least that if it is audio behind the first group. It then
   * loops over its own length, or, for that audio, over as many whole units as fit into M milliseconds.
   */
  lemma FitsInTime(a: Asset, g: int, i: int, M: nat)
    requires a.HasTrack(0, 0) && a.HasTrack(g, i) && 0 < a.Track(0, 0).timeScale
    requires var t := a.Track(0, 0);
             t.duration * 1000 < TWO32 && M * t.timeScale <= t.duration * 1000 < (M + 1) * t.timeScale
    requires a.Track(g, i).duration * 1000 < TWO32 && M * a.Track(g, i).timeScale < TWO32
    ensures a.FirstLoopMS() == M
    ensures var t := a.Track(g, i);
            var late, w := g > 0 && t.contentType.Audio?, a.Wanted(g, i, M);
            && (a.Fits(g, i, M) <==>
                  if late then M * t.timeScale <= t.duration * 1000 else M * t.timeScale == t.duration * 1000)
            && if late then w * 1000 <= M * t.timeScale < (w + 1) * 1000 else w == t.duration
  {
    Distribute(M, 1, a.Track(0, 0).timeScale);
    DivUnique(a.Track(0, 0).duration * 1000, a.Track(0, 0).timeScale, M);
    DivSplit(M * a.Track(g, i).timeScale, 1000);
  }

  /**
   * A compatible track never gets a loop longer than its clip of N samples, even when the 32-bit
   * products wrap, so every source index of the looped timeline is in bounds.
   */
  lemma LoopNeverExceedsClip(lateAudio: bool, N: nat, d: nat, timeScale: nat, ms: nat, n: nat)
    requires 0 < d
    requires Compatible(lateAudio, U32(N * d), timeScale, ms)
    requires 0 < AssignedLoop(lateAudio, U32(N * d), timeScale, ms)
    ensures Orig(n, d, AssignedLoop(lateAudio, U32(N * d), timeScale, ms)) < N
  {
    IndexSafety(N, d, AssignedLoop(lateAudio, U32(N * d), timeScale, ms));
  }

  /** Without wrap-around the assigned loop is loopDurMS of wall-clock time rounded down to a whole track unit. */
  lemma AssignedLoopMeaning(lateAudio: bool, duration: nat, T: nat, ms: nat)
    requires duration * 1000 < TWO32 && ms * T < TWO32
    requires Compatible(lateAudio, duration, T, ms)
    ensures AssignedLoop(lateAudio, duration, T, ms) == ms * T / 1000
    ensures AssignedLoop(lateAudio, duration, T, ms) * 1000 == ms * T <==> (!lateAudio || ms * T % 1000 == 0)
    ensures ms * T <= duration * 1000
  {
  }

  /**
   * A track whose loop is exactly M milliseconds starts sample n in the wall-clock loop that contains
   * its start time, for every n; a track whose loop is off by any fraction of a unit does not.
   */
  lemma LoopsFollowWallClock(d: nat, L: nat, T: nat, M: nat)
    requires 0 < d && 0 < L && 0 < M * T
    ensures (forall n: nat :: LoopOf(n, d, L) == n * d * 1000 / (M * T)) <==> L * 1000 == M * T
  {
    if L * 1000 == M * T {
      forall n: nat
        ensures LoopOf(n, d, L) == n * d * 1000 / (M * T)
      {
        ScaleDiv(n * d, L);
      }
    } else if forall n: nat :: LoopOf(n, d, L) == n * d * 1000 / (M * T) {
      var B := M * T;
      var n: nat := (L * 1000) * B;
      assert n * d == (1000 * B * d) * L;
      DivUnique(n * d, L, 1000 * B * d);
      assert n * d * 1000 == (1000 * L * d * 1000) * B;
      DivUnique(n * d * 1000, B, 1000 * L * d * 1000);
      assert LoopOf(n, d, L) == n * d * 1000 / B;
      assert (1000 * d) * B == (1000 * d) * (L * 1000);
      CancelFactor(1000 * d, B, L * 1000);
    }
  }

  lemma ScaleDiv(a: nat, L: nat)
    requires 0 < L
    ensures a * 1000 / (L * 1000) == a / L
  {
    DivSplit(a, L);
    var q := a / L;
    assert q * (L * 1000) == (q * L) * 1000;
    DivUnique(a * 1000, L * 1000, q);
  }

  lemma CancelFactor(f: nat, a: nat, b: nat)
    requires 0 < f
    requires f * a == f * b
    ensures a == b
  {
    if a < b { MulMono(a + 1, b, f); }
    if b < a { MulMono(b + 1, a, f); }
  }

  /**
   * Two tracks that share the wall-clock loop are in the same loop whenever their samples start in
   * the same M milliseconds, and their lags behind the loop position, compared in seconds, differ by
   * less than one sample of the lagging track. This holds for all sample numbers.
   */
  lemma TracksStayInSync(a: Clip, n: nat, b: Clip, m: nat, M: nat)
    requires a.Ready() && b.Ready() && 0 < M
    requires a.loopDur * 1000 == M * a.timeScale && b.loopDur * 1000 == M * b.timeScale
    ensures 0 < M * a.timeScale && 0 < M * b.timeScale
    ensures n * a.sampleDur * 1000 / (M * a.timeScale) == m * b.sampleDur * 1000 / (M * b.timeScale)
            <==> LoopOf(n, a.sampleDur, a.loopDur) == LoopOf(m, b.sampleDur, b.loopDur)
    ensures var lagA := n * a.sampleDur % a.loopDur - Orig(n, a.sampleDur, a.loopDur) * a.sampleDur;
            var lagB := m * b.sampleDur % b.loopDur - Orig(m, b.sampleDur, b.loopDur) * b.sampleDur;
            -(b.sampleDur * a.timeScale) < lagA * b.timeScale - lagB * a.timeScale < a.sampleDur * b.timeScale
  {
    LoopsFollowWallClock(a.sampleDur, a.loopDur, a.timeScale, M);
    LoopsFollowWallClock(b.sampleDur, b.loopDur, b.timeScale, M);
    Lag(n, a.sampleDur, a.loopDur);
    Lag(m, b.sampleDur, b.loopDur);
    LagOrder(n * a.sampleDur % a.loopDur - Orig(n, a.sampleDur, a.loopDur) * a.sampleDur, a.sampleDur, b.timeScale);
    LagOrder(m * b.sampleDur % b.loopDur - Orig(m, b.sampleDur, b.loopDur) * b.sampleDur, b.sampleDur, a.timeScale);
  }

  lemma LagOrder(lag: nat, d: nat, T: nat)
    requires lag < d && 0 < T
    ensures 0 <= lag * T < d * T
  {
    MulMono(lag + 1, d, T);
    Distribute(lag, 1, T);
  }
}
