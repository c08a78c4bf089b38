/** Finding the GOP length of a clip, and which emitted samples can be decoded on their own. */
module Gop {
  import opened Arith
  import opened Timeline
  import opened Tracks
  import opened Groups

  datatype GopResult = GopLength(length: nat) | Inconsistent

  predicate SyncAt(samples: seq<FullSample>, i: nat) {
    i < |samples| && samples[i].sync
  }

  /** Among the first n samples, the sync samples are exactly 0, G, 2G, ..., last. */
  ghost predicate RegularPrefix(samples: seq<FullSample>, n: nat, G: nat, last: nat) {
    && 0 < G
    && last < n <= |samples|
    && last % G == 0
    && forall i: nat :: i < n ==> (SyncAt(samples, i) <==> i % G == 0 && i <= last)
  }

  ghost predicate RegularGops(samples: seq<FullSample>, G: nat, last: nat) {
    RegularPrefix(samples, |samples|, G, last)
  }

  /** The scan reports the length G for these samples, whose last sync sample is number last. */
  ghost predicate Accepted(samples: seq<FullSample>, G: nat, last: nat) {
    0 < last && RegularGops(samples, G, last)
  }

  /** The clip starts with a sync sample, but its sync samples have no common distance. */
  ghost predicate Irregular(samples: seq<FullSample>) {
    SyncAt(samples, 0) && forall G: nat, last: nat :: !RegularGops(samples, G, last)
  }

  lemma NextMultiple(a: nat, b: nat, G: nat)
    requires 0 < G
    requires a % G == 0 && b % G == 0 && a < b
    ensures a + G <= b && (a + G) % G == 0
  {
    DivSplit(a, G);
    DivSplit(b, G);
    if b / G <= a / G { MulMono(b / G, a / G, G); }
    MulMono(a / G + 1, b / G, G);
    Distribute(a / G, 1, G);
    DivUnique(a + G, G, a / G + 1);
  }

  lemma NextMultiplePlus(a: nat, G: nat)
    requires 0 < G && a % G == 0
    ensures (a + G) % G == 0
  {
    DivSplit(a, G);
    Distribute(a / G, 1, G);
    DivUnique(a + G, G, a / G + 1);
  }

  /** A sync sample one GOP after the last one continues the prefix. */
  lemma ContinuePrefix(samples: seq<FullSample>, G: nat, last: nat, i: nat)
    requires RegularPrefix(samples, i, G, last)
    requires i < |samples| && samples[i].sync && i == last + G
    ensures RegularPrefix(samples, i + 1, G, i)
  {
    NextMultiplePlus(last, G);
    forall j: nat | last < j < i
      ensures j % G != 0
    {
      if j % G == 0 { NextMultiple(last, j, G); }
    }
  }

  /** A second sync sample at distance i from the first starts a prefix with G = i. */
  lemma StartPrefix(samples: seq<FullSample>, i: nat)
    requires 0 < i < |samples| && samples[0].sync && samples[i].sync
    requires forall j :: 0 < j < i ==> !samples[j].sync
    ensures RegularPrefix(samples, i + 1, i, i)
  {
    DivUnique(i, i, 1);
    forall j: nat | 0 < j < i
      ensures j % i != 0
    {
      DivUnique(j, i, 0);
    }
  }

  /** The second sync sample fixes the GOP length. */
  lemma SameLength(samples: seq<FullSample>, n: nat, G: nat, last: nat, G': nat, last': nat)
    requires RegularPrefix(samples, n, G, last) && 0 < last
    requires RegularGops(samples, G', last')
    ensures G == G'
  {
    DivUnique(G, G, 1);
    DivUnique(G', G', 1);
    DivUnique(0, G, 0);
    DivUnique(0, G', 0);
    NextMultiple(0, last, G);
    assert SyncAt(samples, G);
    NextMultiple(0, G, G');
    assert SyncAt(samples, G');
    NextMultiple(0, G', G);
  }

  /** A sync sample anywhere else rules out every GOP length. */
  lemma NoOtherLength(samples: seq<FullSample>, G: nat, last: nat, i: nat, G': nat, last': nat)
    requires RegularPrefix(samples, i, G, last) && 0 < last
    requires SyncAt(samples, i) && i != last + G
    ensures !RegularGops(samples, G', last')
  {
    if RegularGops(samples, G', last') {
      SameLength(samples, i, G, last, G', last');
      var here, next := SyncAt(samples, i), SyncAt(samples, last + G);
      NextMultiple(last, i, G);
    }
  }

  /**
   * The GOP scan. It reports a positive length exactly when the sync samples are evenly spaced from the first
   * sample on, an inconsistency exactly when no spacing fits a leading sync sample, and otherwise 0: there is no
   * second sync sample, or the clip does not start with one. It never looks at what follows the last one.
   */
  method ScanGops(samples: seq<FullSample>) returns (r: GopResult, ghost last: nat)
    requires 0 < |samples| < TWO32
    ensures !samples[0].sync ==> r == GopLength(0)
    ensures samples[0].sync && r == GopLength(0) ==> forall i :: 0 < i < |samples| ==> !samples[i].sync
    ensures r.GopLength? && 0 < r.length ==> Accepted(samples, r.length, last)
    ensures forall G, l :: Accepted(samples, G, l) ==> r == GopLength(G)
    ensures r == Inconsistent <==> Irregular(samples)
  {
    var gopLength := 0;
    last := 0;
    if samples[0].sync {
      var lastSync := 0;
      for i := 1 to |samples|
        invariant lastSync == last && (gopLength == 0 ==> lastSync == 0)
        invariant gopLength == 0 ==> forall j :: 0 < j < i ==> !samples[j].sync
        invariant 0 < gopLength ==> 0 < lastSync && RegularPrefix(samples, i, gopLength, lastSync)
      {
        if samples[i].sync {
          var gopLen := i - lastSync;
          if gopLength == 0 {
            gopLength := U32(gopLen);
            StartPrefix(samples, i);
          } else {
            if gopLength != U32(gopLen) {
              forall G: nat, l: nat
                ensures !RegularGops(samples, G, l)
              {
                NoOtherLength(samples, gopLength, lastSync, i, G, l);
              }
              assert SyncAt(samples, 0);
              return Inconsistent, last;
            }
            ContinuePrefix(samples, gopLength, lastSync, i);
          }
          lastSync := i;
          last := i;
        }
      }
    }
    r := GopLength(gopLength);
    OnlyLength(samples, gopLength, last);
  }

  /** What the scan has found out at its end is the only length there is. */
  lemma OnlyLength(samples: seq<FullSample>, g: nat, last: nat)
    requires samples != []
    requires if g == 0 then samples[0].sync ==> forall i :: 0 < i < |samples| ==> !samples[i].sync
             else Accepted(samples, g, last)
    ensures forall G, l :: Accepted(samples, G, l) ==> G == g
    ensures !Irregular(samples)
  {
    if g == 0 {
      if samples[0].sync {
        OneSyncIsRegular(samples);
      }
    } else {
      assert RegularGops(samples, g, last);
    }
    forall G: nat, l: nat | Accepted(samples, G, l)
      ensures G == g
    {
      LeadsRegular(samples, G, l);
      if 0 < g {
        SameLength(samples, |samples|, g, last, G, l);
      }
    }
  }

  lemma OneSyncIsRegular(samples: seq<FullSample>)
    requires samples != [] && samples[0].sync && forall i :: 0 < i < |samples| ==> !samples[i].sync
    ensures RegularGops(samples, |samples|, 0)
  {
    forall i: nat | i < |samples|
      ensures i % |samples| == i
    {
      DivUnique(i, |samples|, 0);
    }
  }

  lemma LeadsRegular(samples: seq<FullSample>, G: nat, last: nat)
    requires RegularGops(samples, G, last)
    ensures samples[0].sync && samples[last].sync
  {
    DivUnique(0, G, 0);
    assert SyncAt(samples, 0) && SyncAt(samples, last);
  }

  lemma ModOfMultiple(n: nat, N: nat, G: nat)
    requires 0 < G && 0 < N && N % G == 0
    ensures (n % N) % G == n % G
  {
    DivSplit(n, N);
    DivSplit(N, G);
    DivSplit(n % N, G);
    FloorGalois(n, N, 0);
    var q := (n / N) * (N / G);
    assert (n / N) * ((N / G) * G) == q * G;
    Distribute(q, (n % N) / G, G);
    DivUnique(n, G, q + (n % N) / G);
  }

  /** Every Gth sample the clip plays is a sync sample, and no other is. */
  ghost predicate SyncEvery(c: Clip, G: nat)
    requires c.Ready() && 0 < G
  {
    forall n: nat :: c.Emitted(n).sync <==> n % G == 0
  }

  lemma EmittedSync(c: Clip, n: nat)
    requires c.Ready() && c.loopDur == |c.samples| * c.sampleDur
    ensures c.samples != [] && c.Emitted(n).sync == SyncAt(c.samples, n % |c.samples|)
  {
    WholeLoop(n, |c.samples|, c.sampleDur);
  }

  /**
   * Random access. For a clip the scan accepts that loops over its own length, the emitted sync samples are
   * exactly those with a number divisible by G, for every sample number, if and only if the clip's last GOP
   * is as long as the others. The scan excludes neither a longer nor a shorter one.
   */
  lemma RandomAccess(c: Clip, G: nat, last: nat)
    requires c.Ready() && RegularGops(c.samples, G, last)
    requires c.loopDur == |c.samples| * c.sampleDur
    ensures SyncEvery(c, G) <==> |c.samples| == last + G
  {
    var N := |c.samples|;
    NextMultiplePlus(last, G);
    if N == last + G {
      forall n: nat
        ensures c.Emitted(n).sync <==> n % G == 0
      {
        EmittedSync(c, n);
        ModOfMultiple(n, N, G);
        DivSplit(n, N);
        if (n % N) % G == 0 && last < n % N { NextMultiple(last, n % N, G); }
      }
    } else if last + G < N {
      EmittedSync(c, last + G);
      DivUnique(last + G, N, 0);
      assert !c.Emitted(last + G).sync;
    } else {
      // The loop ends early: its first sample plays again as number N.
      EmittedSync(c, N);
      LeadsRegular(c.samples, G, last);
      DivUnique(N, N, 1);
      if N % G == 0 { NextMultiple(last, N, G); }
      assert c.Emitted(N).sync && N % G != 0;
    }
  }

  /**
   * A six-sample clip with sync samples 0 and 2 only: the scan accepts it with G = 2, G divides the number of
   * samples, and yet the clip does not play a sync sample every second sample.
   */
  lemma LongLastGopAccepted(c: Clip, x: FullSample)
    requires var s, u := x.(sync := true), x.(sync := false); c.samples == [s, u, s, u, u, u]
    requires c.Ready() && c.loopDur == 6 * c.sampleDur
    ensures Accepted(c.samples, 2, 2) && |c.samples| % 2 == 0
    ensures !c.Emitted(4).sync && !SyncEvery(c, 2)
  {
    RandomAccess(c, 2, 2);
    EmittedSync(c, 4);
  }

  /** A five-sample clip with sync samples 0 and 3: accepted with G = 3, but sample 5 is a sync sample. */
  lemma ShortLastGopAccepted(c: Clip, x: FullSample)
    requires var s, u := x.(sync := true), x.(sync := false); c.samples == [s, u, u, s, u]
    requires c.Ready() && c.loopDur == 5 * c.sampleDur
    ensures Accepted(c.samples, 3, 3)
    ensures c.Emitted(5).sync && !SyncEvery(c, 3)
  {
    RandomAccess(c, 3, 3);
    EmittedSync(c, 5);
  }

  /** One-second groups of exactly one GOP each start on multiples of G, as moq-mi groups do. */
  lemma SecondGroupsStartGops(g: nat, G: nat, d: nat)
    requires 0 < d && 0 < G
    ensures GroupStart(g, MOQ_GROUP_DUR_MS, G * d, d) == g * G
    ensures (g * G) % G == 0
  {
    SecondBoundary(g, G * d);
    FirstOfWholeLoop(g, G, d);
    DivUnique(g * G, G, g);
  }
}
