/** What loading a track establishes: one sample duration, no edit list, a GOP length and a duration. */
module Loading {
  import opened Arith
  import opened Options
  import opened Timeline
  import opened Tracks
  import Gop
  import LoopDuration

  /** The first sample duration that is not zero. */
  function SampleDurOf(samples: seq<FullSample>): nat {
    if samples == [] then 0
    else
      var n := |samples| - 1;
      if SampleDurOf(samples[..n]) != 0 then SampleDurOf(samples[..n]) else samples[n].dur
  }

  /** No sample up to number i has a duration. */
  ghost predicate NoneLasts(samples: seq<FullSample>, i: nat)
    requires i < |samples|
  {
    SampleDurOf(samples[..i + 1]) == 0
  }

  /** Every sample but the last has the sample duration, or comes before the first one that lasts. */
  ghost predicate Consistent(samples: seq<FullSample>) {
    forall i :: 0 <= i < |samples| - 1 ==>
      samples[i].dur == SampleDurOf(samples) || NoneLasts(samples, i)
  }

  lemma SampleDurNext(samples: seq<FullSample>, i: nat)
    requires i < |samples|
    ensures SampleDurOf(samples[..i + 1])
            == if SampleDurOf(samples[..i]) != 0 then SampleDurOf(samples[..i]) else samples[i].dur
  {
    assert samples[..i + 1][..i] == samples[..i];
  }

  lemma {:induction false} SampleDurStays(samples: seq<FullSample>, i: nat)
    requires i <= |samples| && SampleDurOf(samples[..i]) != 0
    ensures SampleDurOf(samples) == SampleDurOf(samples[..i])
    decreases |samples|
  {
    if i < |samples| {
      var n := |samples| - 1;
      assert samples[..n][..i] == samples[..i];
      SampleDurStays(samples[..n], i);
    } else {
      assert samples[..i] == samples;
    }
  }

  /** The sample duration is that of the first sample that lasts. */
  lemma FirstDuration(samples: seq<FullSample>, i: nat)
    requires i < |samples| && samples[i].dur != 0 && forall j :: 0 <= j < i ==> samples[j].dur == 0
    ensures SampleDurOf(samples) == samples[i].dur
    ensures Consistent(samples) <==> forall j :: i < j < |samples| - 1 ==> samples[j].dur == samples[i].dur
  {
    NoDuration(samples[..i]);
    SampleDurNext(samples, i);
    SampleDurStays(samples, i + 1);
    forall j | 0 <= j < |samples|
      ensures NoneLasts(samples, j) <==> j < i
    {
      if j < i {
        assert forall k :: 0 <= k <= j ==> samples[..j + 1][k] == samples[k];
        NoDuration(samples[..j + 1]);
      } else {
        assert samples[..j + 1][..i + 1] == samples[..i + 1];
        SampleDurStays(samples[..j + 1], i + 1);
      }
    }
  }

  lemma {:induction false} NoDuration(samples: seq<FullSample>)
    requires forall j :: 0 <= j < |samples| ==> samples[j].dur == 0
    ensures SampleDurOf(samples) == 0
  {
    if samples != [] {
      NoDuration(samples[..|samples| - 1]);
    }
  }

  /** The duration check. */
  method CheckDurations(samples: seq<FullSample>) returns (ok: bool, sampleDur: nat)
    ensures ok <==> Consistent(samples)
    ensures ok ==> sampleDur == SampleDurOf(samples)
  {
    sampleDur := 0;
    for i := 0 to |samples|
      invariant sampleDur == SampleDurOf(samples[..i])
      invariant forall j :: 0 <= j < i && j != |samples| - 1 ==>
                  samples[j].dur == SampleDurOf(samples) || NoneLasts(samples, j)
    {
      assert samples[..i + 1][..i] == samples[..i];
      if sampleDur == 0 {
        sampleDur := samples[i].dur;
        if sampleDur != 0 {
          SampleDurStays(samples, i + 1);
        }
      } else {
        SampleDurStays(samples, i);
        SampleDurStays(samples, i + 1);
        if samples[i].dur != sampleDur && i != |samples| - 1 {
          return false, sampleDur;
        }
      }
    }
    assert samples[..|samples|] == samples;
    ok := true;
  }

  /** For a clip whose first sample lasts, the check means that all samples but the last last as long as it. */
  lemma ConsistentMeans(samples: seq<FullSample>)
    requires samples != [] && samples[0].dur != 0
    ensures SampleDurOf(samples) == samples[0].dur
    ensures Consistent(samples) <==> forall i :: 0 <= i < |samples| - 1 ==> samples[i].dur == samples[0].dur
  {
    assert samples[..1][..0] == [];
    SampleDurStays(samples, 1);
    forall i | 0 <= i < |samples|
      ensures !NoneLasts(samples, i)
    {
      assert samples[..i + 1][..1] == samples[..1];
      SampleDurStays(samples[..i + 1], 1);
    }
  }

  /** All samples but the last have the same duration, as the check is meant to ensure. */
  ghost predicate UniformButLast(samples: seq<FullSample>, d: nat) {
    forall i :: 0 <= i < |samples| - 1 ==> samples[i].dur == d
  }

  /**
   * An accepted clip is uniform but for its last sample if and only if its first sample lasts, or it has one
   * sample only, or no sample lasts.
   */
  lemma AcceptedIsUniform(samples: seq<FullSample>)
    requires samples != [] && Consistent(samples)
    ensures UniformButLast(samples, SampleDurOf(samples))
            <==> |samples| == 1 || samples[0].dur != 0 || SampleDurOf(samples) == 0
  {
    if samples[0].dur != 0 {
      ConsistentMeans(samples);
    } else if SampleDurOf(samples) == 0 {
      forall i | 0 <= i < |samples| - 1
        ensures samples[i].dur == 0
      {
        if !NoneLasts(samples, i) {
          SampleDurStays(samples, i + 1);
        } else {
          SampleDurNext(samples, i);
        }
      }
    }
  }

  /** A clip the check accepts although its durations are not the same: the first sample has none. */
  lemma LeadingZeroAccepted(samples: seq<FullSample>, x: FullSample)
    requires samples == [x.(dur := 0), x.(dur := 1024), x.(dur := 1024)]
    ensures Consistent(samples) && SampleDurOf(samples) == 1024 && !UniformButLast(samples, 1024)
  {
    assert SampleDurOf(samples[..0]) == 0;
    SampleDurNext(samples, 0);
    SampleDurNext(samples, 1);
    SampleDurStays(samples, 2);
    assert NoneLasts(samples, 0);
  }

  /** out is what is left from the first sample at or after the offset on, with the offset taken off. */
  ghost predicate Shifted(out: seq<FullSample>, samples: seq<FullSample>, offset: nat, k: int) {
    && 0 <= k <= |samples| && |out| == |samples| - k
    && (forall i :: 0 <= i < k ==> samples[i].decodeTime < offset)
    && (k < |samples| ==> offset <= samples[k].decodeTime)
    && (forall i :: 0 <= i < |out| ==>
          out[i] == samples[k + i].(decodeTime := U64(samples[k + i].decodeTime - offset)))
  }

  /** Takes the offset off every decode time. */
  method ShiftTimes(samples: seq<FullSample>, timeOffset: nat) returns (out: seq<FullSample>)
    ensures |out| == |samples|
    ensures forall i :: 0 <= i < |out| ==>
              out[i] == samples[i].(decodeTime := U64(samples[i].decodeTime - timeOffset))
  {
    out := samples;
    for i := 0 to |samples|
      invariant |out| == |samples|
      invariant forall j :: 0 <= j < i ==>
                  out[j] == samples[j].(decodeTime := U64(samples[j].decodeTime - timeOffset))
      invariant forall j :: i <= j < |samples| ==> out[j] == samples[j]
    {
      out := out[i := out[i].(decodeTime := U64(out[i].decodeTime - timeOffset))];
    }
  }

  /** Applies the edit list by dropping and shifting samples. */
  method ShiftByEditList(samples: seq<FullSample>, timeOffset: nat) returns (out: seq<FullSample>)
    ensures Shifted(out, samples, timeOffset, |samples| - |out|)
  {
    var firstIdx := 0;
    while firstIdx < |samples| && samples[firstIdx].decodeTime < timeOffset
      invariant firstIdx <= |samples|
      invariant forall i :: 0 <= i < firstIdx ==> samples[i].decodeTime < timeOffset
    {
      firstIdx := firstIdx + 1;
    }
    out := ShiftTimes(samples[firstIdx..], timeOffset);
  }

  /**
   * On a clip whose samples start at 0, d, 2d, ..., the shift drops exactly the ceil(offset/d) samples that
   * start before the offset, and no shifted time is negative: the first one is less than one sample from 0.
   */
  lemma ShiftOfUniformClip(out: seq<FullSample>, samples: seq<FullSample>, offset: nat, k: nat, d: nat)
    requires 0 < d && Shifted(out, samples, offset, k)
    requires forall i :: 0 <= i < |samples| ==> samples[i].decodeTime == i * d
    requires |samples| * d < TWO64
    ensures k == if CeilDiv(offset, d) <= |samples| then CeilDiv(offset, d) else |samples|
    ensures forall i :: 0 <= i < |out| ==> out[i].decodeTime == (k + i) * d - offset
    ensures out != [] ==> 0 <= out[0].decodeTime < d
  {
    CeilGalois(offset, d, k);
    CeilBounds(offset, d);
    if 0 < k {
      CeilGalois(offset, d, k - 1);
      assert samples[k - 1].decodeTime == (k - 1) * d;
    }
    forall i | 0 <= i < |out|
      ensures out[i].decodeTime == (k + i) * d - offset
    {
      assert samples[k].decodeTime == k * d;
      assert samples[k + i].decodeTime == (k + i) * d;
      MulMono(k, k + i, d);
      MulMono(k + i, |samples|, d);
    }
  }

  /** A loaded track, or a refusal. */
  datatype LoadResult =
    | Loaded(samples: seq<FullSample>, sampleDur: nat, gopLength: nat, duration: nat)
    | Refused

  /** An edit list box: the media times of its entries. */
  type EditList = seq<nat>

  /** The media time of an audio track's edit list, 0 without one; there must be one list with one entry. */
  function MediaTime(contentType: ContentType, edts: Option<seq<EditList>>): Option<nat> {
    if contentType.Video? || edts.None? then Some(0)
    else if |edts.value| == 1 && |edts.value[0]| == 1 then Some(edts.value[0][0])
    else None
  }

  /** The samples a track plays: all of them, or what an edit list with a media time leaves of them. */
  ghost predicate Played(out: seq<FullSample>, samples: seq<FullSample>, mediaTime: nat) {
    if 0 < mediaTime then Shifted(out, samples, mediaTime, |samples| - |out|) else out == samples
  }

  /** What loading makes of the samples, and when it refuses them. */
  ghost predicate LoadedAs(r: LoadResult, samples: seq<FullSample>, mediaTime: Option<nat>, codecOk: bool)
  {
    match r
    case Loaded(out, sampleDur, _, duration) =>
      && codecOk && Consistent(samples) && sampleDur == SampleDurOf(samples)
      && mediaTime.Some? && Played(out, samples, mediaTime.value) && out != [] && !Gop.Irregular(out)
      && duration == U32(|out| * sampleDur)
    case Refused =>
      || !codecOk || !Consistent(samples) || mediaTime.None?
      || exists out :: Played(out, samples, mediaTime.value) && Gop.Irregular(out)
  }

  /**
   * Loads the samples of a track; an audio track may have edit lists. codecOk says whether the codec's own data
   * can be initialised.
   */
  method Load(samples: seq<FullSample>, contentType: ContentType, edts: Option<seq<EditList>>, codecOk: bool)
    returns (r: LoadResult, ghost last: nat)
    requires |samples| < TWO32
    requires samples != []
    requires var t := MediaTime(contentType, edts);
             t.Some? ==> t.value == 0 || exists i :: 0 <= i < |samples| && t.value <= samples[i].decodeTime
    ensures LoadedAs(r, samples, MediaTime(contentType, edts), codecOk)
    ensures r.Loaded? && 0 < r.gopLength ==> Gop.Accepted(r.samples, r.gopLength, last)
    ensures r.Loaded? ==> forall G, l :: Gop.Accepted(r.samples, G, l) ==> r.gopLength == G
    ensures r.Loaded? && r.gopLength == 0 ==>
              !r.samples[0].sync || forall i :: 0 < i < |r.samples| ==> !r.samples[i].sync
  {
    last := 0;
    var ok, sampleDur := CheckDurations(samples);
    if !ok {
      return Refused, last;
    }
    var timeOffset := 0;
    if contentType.Audio? && edts.Some? {
      if |edts.value| != 1 || |edts.value[0]| != 1 {
        return Refused, last;
      }
      timeOffset := edts.value[0][0];
    }
    var loaded := samples;
    if 0 < timeOffset {
      loaded := ShiftByEditList(samples, timeOffset);
    }
    var gop;
    gop, last := Gop.ScanGops(loaded);
    match gop {
      case Inconsistent =>
        r := Refused;
        assert Played(loaded, samples, timeOffset) && Gop.Irregular(loaded);
      case GopLength(g) =>
        if !codecOk {
          return Refused, last;
        }
        r := Loaded(loaded, sampleDur, g, U32(U32(|loaded|) * sampleDur));
    }
  }

  /**
   * Only audio with an edit list is shifted, and by the media time of the list's one entry; it is not loaded with
   * more or fewer entries.
   */
  lemma EditListApplied(r: LoadResult, samples: seq<FullSample>, contentType: ContentType,
                        edts: Option<seq<EditList>>, codecOk: bool)
    requires r.Loaded? && LoadedAs(r, samples, MediaTime(contentType, edts), codecOk)
    ensures contentType.Video? || edts.None? ==> r.samples == samples
    ensures contentType.Audio? && edts.Some? ==>
              && |edts.value| == 1 && |edts.value[0]| == 1
              && var t := edts.value[0][0];
                 if t == 0 then r.samples == samples else Shifted(r.samples, samples, t, |samples| - |r.samples|)
  {
  }

  /**
   * From loading to playing: a loaded track that passes setLoopDuration has a source sample for every output
   * sample, for ever, whatever its kind and even when its 32-bit products wrap.
   */
  lemma LoadedTrackIsReady(t: LoadResult, lateAudio: bool, timeScale: nat, ms: nat, sampleBatch: nat)
    requires t.Loaded? && |t.samples| < TWO32 && 0 < t.sampleDur < TWO32 && 0 < timeScale < TWO32
    requires t.duration == U32(|t.samples| * t.sampleDur)
    requires LoopDuration.Compatible(lateAudio, t.duration, timeScale, ms)
    requires 0 < LoopDuration.AssignedLoop(lateAudio, t.duration, timeScale, ms)
    ensures Clip(t.samples, t.sampleDur, LoopDuration.AssignedLoop(lateAudio, t.duration, timeScale, ms),
                 timeScale, sampleBatch).Ready()
  {
    var L := LoopDuration.AssignedLoop(lateAudio, t.duration, timeScale, ms);
    forall n: nat
      ensures Orig(n, t.sampleDur, L) < |t.samples|
    {
      LoopDuration.LoopNeverExceedsClip(lateAudio, |t.samples|, t.sampleDur, timeScale, ms, n);
    }
  }

  /** A track object that holds what loading returned. */
  ghost predicate HoldsLoaded(t: ContentTrack)
    reads t
  {
    && |t.samples| < TWO32 && 0 < t.sampleDur < TWO32 && 0 < t.timeScale < TWO32
    && t.duration == U32(|t.samples| * t.sampleDur)
  }

  /**
   * Once setLoopDuration has succeeded on an asset of loaded tracks, every track is ready to be played for ever,
   * if and only if its loop is not empty.
   */
  lemma AssetIsReady(a: LoopDuration.Asset, g: int, i: int)
    requires a.HasTrack(0, 0) && 0 < a.Track(0, 0).timeScale && a.loopDurMS == a.FirstLoopMS()
    requires a.HasTrack(g, i) && HoldsLoaded(a.Track(g, i)) && a.Fits(g, i, a.FirstLoopMS())
    requires a.Track(g, i).loopDur == a.Wanted(g, i, a.loopDurMS)
    ensures a.Track(g, i).AsClip().Ready() <==> 0 < a.Track(g, i).loopDur
  {
    var t := a.Track(g, i);
    var lateAudio := g > 0 && t.contentType.Audio?;
    if 0 < t.loopDur {
      LoadedTrackIsReady(Loaded(t.samples, t.sampleDur, t.gopLength, t.duration), lateAudio, t.timeScale,
                         a.loopDurMS, t.sampleBatch);
    }
  }

  /** The last step of loading an asset: its loop durations. */
  method FinishAsset(a: LoopDuration.Asset) returns (ok: bool)
    requires a.Unshared()
    requires a.groups != [] ==> a.HasTrack(0, 0) && 0 < a.Track(0, 0).timeScale
    requires forall g, i :: a.HasTrack(g, i) ==> HoldsLoaded(a.Track(g, i))
    modifies a`loopDurMS, a.AllTracks()`loopDur
    ensures ok <==> a.groups != [] && forall g, i :: a.HasTrack(g, i) ==> a.Fits(g, i, a.FirstLoopMS())
    ensures ok ==> forall g, i :: a.HasTrack(g, i) ==>
              (a.Track(g, i).AsClip().Ready() <==> 0 < a.Track(g, i).loopDur)
  {
    ok := a.SetLoopDuration();
    if ok {
      forall g, i | a.HasTrack(g, i)
        ensures a.Track(g, i).AsClip().Ready() <==> 0 < a.Track(g, i).loopDur
      {
        AssetIsReady(a, g, i);
      }
    }
  }
}
