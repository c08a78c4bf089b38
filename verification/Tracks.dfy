/** Bytes as the media payloads carry them. */
module Bytes {
  type byte = x: int | 0 <= x < 256
}

/** The looped content track and what it emits for a sample number. */
module Tracks {
  import opened Arith
  import opened Bytes
  import opened Timeline

  datatype FullSample = FullSample(decodeTime: nat, dur: nat, sync: bool, data: seq<byte>)

  /** One CMAF or LOCMAF chunk: its sequence number and its samples. */
  datatype Chunk = Chunk(seqNr: nat, samples: seq<FullSample>)

  datatype ContentType = Video | Audio

  /** The immutable part of a loaded track that determines everything it emits. */
  datatype Clip = Clip(samples: seq<FullSample>, sampleDur: nat, loopDur: nat, timeScale: nat, sampleBatch: nat) {
    /** What loading a track and setLoopDuration establish; IndexSafety says when every position is in bounds. */
    ghost predicate Ready() {
      && 0 < sampleDur < TWO32
      && 0 < loopDur < TWO32
      && 0 < timeScale < TWO32
      && forall n: nat :: Orig(n, sampleDur, loopDur) < |samples|
    }

    /** The source sample played as sample n, stamped with its own start time. */
    ghost function Emitted(n: nat): FullSample
      requires Ready()
    {
      samples[Orig(n, sampleDur, loopDur)].(decodeTime := n * sampleDur)
    }

    /** Samples a, a+1, ..., b-1. */
    ghost function Render(a: nat, b: nat): (r: seq<FullSample>)
      requires Ready()
      ensures |r| == if a <= b then b - a else 0
      decreases b
    {
      if a < b then Render(a, b - 1) + [Emitted(b - 1)] else []
    }
  }

  lemma {:induction false} RenderSplit(c: Clip, a: nat, m: nat, b: nat)
    requires c.Ready()
    requires a <= m <= b
    ensures c.Render(a, m) + c.Render(m, b) == c.Render(a, b)
    decreases b
  {
    if m < b {
      RenderSplit(c, a, m, b - 1);
    }
  }

  lemma {:induction false} RenderAt(c: Clip, a: nat, b: nat, i: nat)
    requires c.Ready()
    requires a + i < b
    ensures c.Render(a, b)[i] == c.Emitted(a + i)
    decreases b
  {
    if a + i < b - 1 {
      RenderAt(c, a, b - 1, i);
    }
  }

  /** Each output sample ends where the next one starts. */
  ghost predicate Gapless(c: Clip)
    requires c.Ready()
  {
    forall n: nat :: Adjoins(c, n)
  }

  ghost predicate Adjoins(c: Clip, n: nat)
    requires c.Ready()
  {
    c.Emitted(n).decodeTime + c.Emitted(n).dur == c.Emitted(n + 1).decodeTime
  }

  lemma AdjoinsIff(c: Clip, n: nat)
    requires c.Ready()
    ensures Adjoins(c, n) <==> c.samples[Orig(n, c.sampleDur, c.loopDur)].dur == c.sampleDur
  {
    Distribute(n, 1, c.sampleDur);
  }

  /**
   * A clip that is uniform but for its last sample plays without gap or overlap, for ever, if and only if the
   * last sample is as long as the others or the loop is short enough never to reach it.
   */
  lemma ShortLastSample(c: Clip)
    requires c.Ready() && c.samples != []
    requires forall i :: 0 <= i < |c.samples| - 1 ==> c.samples[i].dur == c.sampleDur
    ensures Gapless(c) <==>
              c.samples[|c.samples| - 1].dur == c.sampleDur || c.loopDur <= (|c.samples| - 1) * c.sampleDur
  {
    var N, d, L := |c.samples|, c.sampleDur, c.loopDur;
    IndexSafety(N - 1, d, L);
    if c.samples[N - 1].dur == d || L <= (N - 1) * d {
      forall n: nat
        ensures Adjoins(c, n)
      {
        AdjoinsIff(c, n);
        assert Orig(n, d, L) < N;
      }
    } else {
      var n: nat :| N - 1 <= Orig(n, d, L);
      AdjoinsIff(c, n);
      assert !Adjoins(c, n);
    }
  }

  /** A wrap time moved up to the next sample boundary. */
  function SnapUp(wrapTime: nat, sampleDur: nat): nat
    requires 0 < sampleDur
  {
    var lacking := wrapTime % sampleDur;
    if lacking > 0 then U64(wrapTime + (sampleDur - lacking)) else wrapTime
  }

  /** CalcSample in the 64-bit arithmetic of the source. */
  function CalcSampleAt(nr: nat, sampleDur: nat, loopDur: nat): (nat, nat)
    requires 0 < sampleDur && 0 < loopDur
  {
    var startTime := U64(nr * sampleDur);
    FloorGalois(startTime, loopDur, 0);
    var nrWraps: nat := startTime / loopDur;
    var wrapTime := U64(nrWraps * loopDur);
    var deltaTime := U64(startTime - SnapUp(wrapTime, sampleDur));
    FloorGalois(deltaTime, sampleDur, 0);
    (startTime, deltaTime / sampleDur)
  }

  lemma SnapUpMeaning(wrapTime: nat, m: nat, d: nat)
    requires 0 < d
    requires wrapTime <= m * d < TWO64
    ensures SnapUp(wrapTime, d) == CeilDiv(wrapTime, d) * d <= m * d
  {
    DivSplit(wrapTime, d);
    assert (wrapTime / d + 1) * d == (wrapTime / d) * d + d;
    CeilGalois(wrapTime, d, m);
    MulMono(CeilDiv(wrapTime, d), m, d);
  }

  /**
   * CalcSample computes the ideal looped timeline for exactly the samples whose start time fits in
   * 64 bits: there neither the snapped wrap time nor the difference wraps around.
   */
  lemma CalcSampleMeaning(nr: nat, d: nat, L: nat)
    requires 0 < d && 0 < L
    ensures CalcSampleAt(nr, d, L) == (nr * d, Orig(nr, d, L)) <==> nr * d < TWO64
  {
    if nr * d < TWO64 {
      var k := LoopOf(nr, d, L);
      DivSplit(nr * d, L);
      SnapUpMeaning(k * L, nr, d);
      assert nr * d - First(k, d, L) * d == Orig(nr, d, L) * d;
      DivUnique(Orig(nr, d, L) * d, d, Orig(nr, d, L));
    }
  }

  class ContentTrack {
    var contentType: ContentType
    var timeScale: nat
    var duration: nat
    var gopLength: nat
    var sampleDur: nat
    var nrSamples: nat
    var loopDur: nat
    var sampleBatch: nat
    var samples: seq<FullSample>

    ghost function AsClip(): Clip
      reads this
    {
      Clip(samples, sampleDur, loopDur, timeScale, sampleBatch)
    }

    /** Start time and source index of output sample nr. */
    function CalcSample(nr: nat): (nat, nat)
      requires 0 < sampleDur && 0 < loopDur
      reads this
    {
      CalcSampleAt(nr, sampleDur, loopDur)
    }

    /** Collects the samples startNr, ..., endNr-1 of the looped track into one fragment. */
    method CreateFragment(chunkNr: nat, startNr: nat, endNr: nat) returns (f: Chunk)
      requires AsClip().Ready()
      requires endNr * sampleDur < TWO64
      ensures f == Chunk(chunkNr, AsClip().Render(startNr, endNr))
    {
      var samplesOut := [];
      var sampleNr := startNr;
      while sampleNr < endNr
        invariant sampleNr == startNr || startNr < sampleNr <= endNr
        invariant samplesOut == AsClip().Render(startNr, sampleNr)
      {
        MulMono(sampleNr, endNr, sampleDur);
        EmittedBy(this, sampleNr);
        var (startTime, origNr) := CalcSample(sampleNr);
        var orig := samples[origNr];
        samplesOut := samplesOut + [FullSample(startTime, orig.dur, orig.sync, orig.data)];
        sampleNr := sampleNr + 1;
      }
      f := Chunk(chunkNr, samplesOut);
    }
  }

  /** Looking up the index CalcSample returns is in bounds and yields the sample of the ideal timeline. */
  lemma EmittedBy(t: ContentTrack, n: nat)
    requires t.AsClip().Ready()
    requires n * t.sampleDur < TWO64
    ensures var (startTime, origNr) := t.CalcSample(n);
            && origNr < |t.samples|
            && t.samples[origNr].(decodeTime := startTime) == t.AsClip().Emitted(n)
  {
    CalcSampleMeaning(n, t.sampleDur, t.loopDur);
  }
}
