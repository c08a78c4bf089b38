/** Cutting the sample numbers of a track into MoQ groups of a constant average duration. */
module Groups {
  import opened Arith
  import opened Tracks

  const MOQ_GROUP_DUR_MS := 1000

  /** First sample of group g for groups of D ms on a track with time scale T and sample duration d. */
  function GroupStart(g: nat, D: nat, T: nat, d: nat): nat
    requires 0 < d
  {
    CeilDiv(g * (D * T) / 1000, d)
  }

  /** The same boundary in the 64-bit arithmetic of the source. */
  function GroupBoundary(g: nat, D: nat, T: nat, d: nat): nat
    requires 0 < d
  {
    CeilDiv(U64(U64(g * D) * T) / 1000, d)
  }

  /** The sample range [startNr, endNr) of group nr. */
  function CalcMoQGroup(track: ContentTrack, nr: nat, constantDurMS: nat): (nat, nat)
    requires 0 < track.sampleDur
    reads track
  {
    (GroupBoundary(nr, constantDurMS, track.timeScale, track.sampleDur),
     GroupBoundary(U64(nr + 1), constantDurMS, track.timeScale, track.sampleDur))
  }

  function CurrMoQGroupNr(nowMS: nat, constantDurMS: nat): nat
    requires 0 < constantDurMS
  {
    nowMS / constantDurMS
  }

  /** The wrapped boundary differs from the ideal one as soon as the product no longer fits. */
  lemma WrappedBoundary(p: nat, d: nat)
    requires 0 < d < TWO32
    ensures CeilDiv(U64(p) / 1000, d) == CeilDiv(p / 1000, d) <==> p < TWO64
  {
    if TWO64 <= p {
      var k := p / TWO64;
      var hi, lo := p / 1000, U64(p) / 1000;
      assert 1 <= k;
      assert p == k * TWO64 + U64(p);
      assert hi >= lo + 18446744073709551;
      CeilBounds(hi, d);
      CeilBounds(lo, d);
      if CeilDiv(hi, d) == CeilDiv(lo, d) {
        assert false;
      }
    }
  }

  lemma GroupBoundaryMeaning(g: nat, D: nat, T: nat, d: nat)
    requires 0 < d < TWO32
    ensures GroupBoundary(g, D, T, d) == GroupStart(g, D, T, d) <==> g * (D * T) < TWO64
  {
    WrapProduct(g * D, T);
    assert (g * D) * T == g * (D * T);
    WrappedBoundary(g * (D * T), d);
  }

  /** calcMoQGroup returns the ideal range exactly as long as the end boundary product fits in 64 bits. */
  lemma CalcMoQGroupMeaning(track: ContentTrack, nr: nat, D: nat)
    requires 0 < track.sampleDur < TWO32
    requires nr + 1 < TWO64
    ensures CalcMoQGroup(track, nr, D) == (GroupStart(nr, D, track.timeScale, track.sampleDur),
                                           GroupStart(nr + 1, D, track.timeScale, track.sampleDur))
            <==> (nr + 1) * (D * track.timeScale) < TWO64
  {
    MulMono(nr, nr + 1, D * track.timeScale);
    GroupBoundaryMeaning(nr, D, track.timeScale, track.sampleDur);
    GroupBoundaryMeaning(nr + 1, D, track.timeScale, track.sampleDur);
  }

  /** The group that contains sample n. */
  function GroupOf(n: nat, D: nat, T: nat, d: nat): nat
    requires 0 < D * T
  {
    (1000 * (n * d) + 999) / (D * T)
  }

  /** The groups partition the samples: sample n lies in the range of group GroupOf(n) and of no other. */
  lemma GroupsPartitionSamples(n: nat, g: nat, D: nat, T: nat, d: nat)
    requires 0 < d && 0 < D * T
    ensures GroupStart(g, D, T, d) <= n < GroupStart(g + 1, D, T, d) <==> g == GroupOf(n, D, T, d)
  {
    var P := D * T;
    StartsBy(n, g, D, T, d);
    StartsBy(n, g + 1, D, T, d);
  }

  /** Group g starts at or before sample n exactly when n's group is g or later. */
  lemma StartsBy(n: nat, g: nat, D: nat, T: nat, d: nat)
    requires 0 < d && 0 < D * T
    ensures GroupStart(g, D, T, d) <= n <==> g <= GroupOf(n, D, T, d)
  {
    var a := g * (D * T);
    CeilGalois(a / 1000, d, n);
    FloorGalois(a, 1000, n * d + 1);
    FloorGalois(1000 * (n * d) + 999, D * T, g);
  }

  lemma GroupStartMono(g: nat, h: nat, D: nat, T: nat, d: nat)
    requires 0 < d
    requires g <= h
    ensures GroupStart(g, D, T, d) <= GroupStart(h, D, T, d)
  {
    MulMono(g, h, D * T);
    FloorMono(g * (D * T), h * (D * T), 1000);
    CeilMono(g * (D * T) / 1000, h * (D * T) / 1000, d);
  }

  /**
   * One-second groups: sample n lies in the group of the second in which it starts, every group
   * holds floor(T/d) or ceil(T/d) samples, and its first sample starts less than one sample after
   * the second boundary, for every group number.
   */
  lemma OneSecondGroups(g: nat, n: nat, T: nat, d: nat)
    requires 0 < d && 0 < T
    ensures GroupOf(n, MOQ_GROUP_DUR_MS, T, d) == n * d / T
    ensures g * T <= GroupStart(g, MOQ_GROUP_DUR_MS, T, d) * d < g * T + d
    ensures GroupStart(g + 1, MOQ_GROUP_DUR_MS, T, d) - GroupStart(g, MOQ_GROUP_DUR_MS, T, d) in {T / d, CeilDiv(T, d)}
  {
    SecondBoundary(g, T);
    SecondBoundary(g + 1, T);
    CeilBounds(g * T, d);
    assert (g + 1) * T == g * T + T;
    CeilStep(g * T, T, d);
    GroupIsSecond(n, T, d);
  }

  lemma GroupIsSecond(n: nat, T: nat, d: nat)
    requires 0 < T
    ensures GroupOf(n, MOQ_GROUP_DUR_MS, T, d) == n * d / T
  {
    var q := n * d / T;
    DivSplit(n * d, T);
    assert q * (1000 * T) == 1000 * (q * T);
    DivUnique(1000 * (n * d) + 999, 1000 * T, q);
  }

  lemma SecondBoundary(g: nat, T: nat)
    ensures g * (MOQ_GROUP_DUR_MS * T) / 1000 == g * T
  {
    assert g * (1000 * T) == (g * T) * 1000;
    DivUnique(g * (1000 * T), 1000, g * T);
  }

  /**
   * A run that starts with the group after the current one starts after now and less than a second and one
   * sample later, at the first sample of that second.
   */
  lemma NextGroupStart(now: nat, T: nat, d: nat)
    requires 0 < d && 0 < T
    ensures var s := GroupStart(CurrMoQGroupNr(now, MOQ_GROUP_DUR_MS) + 1, MOQ_GROUP_DUR_MS, T, d);
            now * T < s * d * 1000 < (now + 1000) * T + d * 1000
  {
    var g := CurrMoQGroupNr(now, MOQ_GROUP_DUR_MS) + 1;
    OneSecondGroups(g, 0, T, d);
    DivSplit(now, 1000);
    MulMono(now + 1, g * 1000, T);
    MulMono(g * 1000, now + 1000, T);
    Distribute(now, 1, T);
    assert g * 1000 * T == g * T * 1000;
  }
}
