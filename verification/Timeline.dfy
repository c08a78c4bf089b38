/**
 * The looped timeline as plain arithmetic, independent of how the code computes it.
 *
 * d is the sample duration and L the loop duration, both in track units. Sample n starts at n*d;
 * loop k occupies [k*L, (k+1)*L). All statements hold for every n, k and every d, L > 0 unless a
 * relation between d and L is written out.
 */
module Timeline {
  import opened Arith

  /** Number of the first sample that starts at or after the beginning of loop k. */
  function First(k: nat, d: nat, L: nat): nat
    requires 0 < d
  {
    CeilDiv(k * L, d)
  }

  /** The loop in which sample n starts. */
  function LoopOf(n: nat, d: nat, L: nat): nat
    requires 0 < L
  {
    n * d / L
  }

  /** Position of sample n counted from the first sample of its loop. */
  function Orig(n: nat, d: nat, L: nat): nat
    requires 0 < d && 0 < L
  {
    Membership(n, LoopOf(n, d, L), d, L);
    n - First(LoopOf(n, d, L), d, L)
  }

  /** The loops cut the sample numbers into consecutive intervals. */
  lemma Membership(n: nat, k: nat, d: nat, L: nat)
    requires 0 < d && 0 < L
    ensures LoopOf(n, d, L) == k <==> First(k, d, L) <= n < First(k + 1, d, L)
  {
    FloorGalois(n * d, L, k);
    FloorGalois(n * d, L, k + 1);
    CeilGalois(k * L, d, n);
    CeilGalois((k + 1) * L, d, n);
  }

  lemma FirstMono(j: nat, k: nat, d: nat, L: nat)
    requires 0 < d
    requires j <= k
    ensures First(j, d, L) <= First(k, d, L)
  {
    MulMono(j, k, L);
    CeilMono(j * L, k * L, d);
  }

  /** When a loop is at least one sample long, it has a first sample, and that one reads source position 0. */
  lemma LoopStarts(k: nat, d: nat, L: nat)
    requires 0 < d <= L
    ensures First(k, d, L) < First(k + 1, d, L)
    ensures LoopOf(First(k, d, L), d, L) == k
    ensures Orig(First(k, d, L), d, L) == 0
  {
    assert (k + 1) * L == k * L + L;
    FloorGalois(L, d, 1);
    CeilStep(k * L, L, d);
    Membership(First(k, d, L), k, d, L);
  }

  /**
   * No accumulated drift. For every k: the first sample at or after the loop boundary k*L starts
   * less than one sample late, the loop holds floor(L/d) or ceil(L/d) samples, and the samples
   * before it number exactly ceil(kL/d).
   */
  lemma NoAccumulatedDrift(k: nat, d: nat, L: nat)
    requires 0 < d && 0 < L
    ensures k * L <= First(k, d, L) * d < k * L + d
    ensures First(k + 1, d, L) - First(k, d, L) in {L / d, CeilDiv(L, d)}
    ensures forall n: nat :: LoopOf(n, d, L) < k <==> n < First(k, d, L)
    ensures d <= L ==> LoopOf(First(k, d, L), d, L) == k && Orig(First(k, d, L), d, L) == 0
  {
    CeilBounds(k * L, d);
    assert (k + 1) * L == k * L + L;
    CeilStep(k * L, L, d);
    forall n: nat
      ensures LoopOf(n, d, L) < k <==> n < First(k, d, L)
    {
      FloorGalois(n * d, L, k);
      CeilGalois(k * L, d, n);
    }
    if d <= L {
      LoopStarts(k, d, L);
    }
  }

  /** Consecutive samples read consecutive source positions, or start the clip again. */
  lemma Successor(n: nat, d: nat, L: nat)
    requires 0 < d && 0 < L
    ensures Orig(n + 1, d, L) == if LoopOf(n + 1, d, L) == LoopOf(n, d, L) then Orig(n, d, L) + 1 else 0
  {
    var k, k' := LoopOf(n, d, L), LoopOf(n + 1, d, L);
    Membership(n, k, d, L);
    Membership(n + 1, k', d, L);
    assert (n + 1) * d == n * d + d;
    FloorMono(n * d, (n + 1) * d, L);
    if k < k' {
      FirstMono(k + 1, k', d, L);
      assert First(k', d, L) == n + 1;
    }
  }

  /** The source position lags the loop position by at least 0 and less than one sample. */
  lemma Lag(n: nat, d: nat, L: nat)
    requires 0 < d && 0 < L
    ensures 0 <= n * d % L - Orig(n, d, L) * d < d
  {
    var k := LoopOf(n, d, L);
    DivSplit(n * d, L);
    CeilBounds(k * L, d);
    assert n * d == Orig(n, d, L) * d + First(k, d, L) * d by {
      assert n == Orig(n, d, L) + First(k, d, L);
      assert (Orig(n, d, L) + First(k, d, L)) * d == Orig(n, d, L) * d + First(k, d, L) * d;
    }
  }

  /** Every source position stays inside a clip of N samples exactly when the loop is no longer than the clip. */
  lemma IndexSafety(N: nat, d: nat, L: nat)
    requires 0 < d && 0 < L
    ensures (forall n: nat :: Orig(n, d, L) < N) <==> L <= N * d
  {
    if L <= N * d {
      CeilGalois(L, d, N);
      forall n: nat
        ensures Orig(n, d, L) < N
      {
        var k := LoopOf(n, d, L);
        Membership(n, k, d, L);
        assert (k + 1) * L == k * L + L;
        CeilStep(k * L, L, d);
      }
    } else {
      Membership(N, 0, d, L);
      CeilGalois(1 * L, d, N);
      assert First(0, d, L) == 0;
      assert Orig(N, d, L) == N;
    }
  }

  lemma FirstOfWholeLoop(k: nat, N: nat, d: nat)
    requires 0 < d
    ensures First(k, d, N * d) == k * N
  {
    assert k * (N * d) == (k * N) * d;
    CeilUnique(k * (N * d), d, k * N);
  }

  /** A loop of a whole number of samples is plain modular indexing. */
  lemma WholeLoop(n: nat, N: nat, d: nat)
    requires 0 < d && 0 < N
    ensures 0 < N * d
    ensures Orig(n, d, N * d) == n % N
  {
    MulPos(N, d);
    FloorGalois(n, N, 0);
    var k: nat := n / N;
    DivSplit(n, N);
    FirstOfWholeLoop(k, N, d);
    FirstOfWholeLoop(k + 1, N, d);
    assert (k + 1) * N == k * N + N;
    Membership(n, k, d, N * d);
  }

  // ---- The exact periods of the emitted source positions ----

  ghost predicate Period(m: nat, d: nat, L: nat)
    requires 0 < d && 0 < L
  {
    forall n: nat :: Orig(n + m, d, L) == Orig(n, d, L)
  }

  lemma AlwaysFirst(n: nat, d: nat, L: nat)
    requires 0 < L <= d
    ensures Orig(n, d, L) == 0
  {
    var k := LoopOf(n, d, L);
    DivSplit(n * d, L);
    Membership(n, k, d, L);
    CeilGalois(k * L, d, n - 1);
    assert (n - 1) * d == n * d - d;
  }

  /** Position 0 occurs at the first sample of a loop and nowhere else. */
  lemma ZeroAt(n: nat, j: nat, d: nat, L: nat)
    requires 0 < d <= L
    requires Orig(n, d, L) == 0
    requires First(j, d, L) < n
    ensures First(j + 1, d, L) <= n
  {
    var k := LoopOf(n, d, L);
    Membership(n, k, d, L);
    if k <= j {
      FirstMono(k, j, d, L);
    } else {
      FirstMono(j + 1, k, d, L);
    }
  }

  /** If a period carries the start of loop i to that of loop j, the next loop starts no later than where it carries. */
  lemma NextStartsBy(m: nat, i: nat, j: nat, d: nat, L: nat)
    requires 0 < d <= L
    requires Period(m, d, L)
    requires First(j, d, L) == First(i, d, L) + m
    ensures First(j + 1, d, L) <= First(i + 1, d, L) + m
  {
    LoopStarts(i, d, L);
    LoopStarts(i + 1, d, L);
    var a := First(i + 1, d, L);
    assert Orig(a + m, d, L) == Orig(a, d, L);
    ZeroAt(a + m, j, d, L);
  }

  /** Nor does it start earlier. */
  lemma NextStartsNotBefore(m: nat, i: nat, j: nat, d: nat, L: nat)
    requires 0 < d <= L
    requires Period(m, d, L)
    requires First(j, d, L) == First(i, d, L) + m
    ensures First(i + 1, d, L) + m <= First(j + 1, d, L)
  {
    LoopStarts(j, d, L);
    LoopStarts(j + 1, d, L);
    var b := First(j + 1, d, L) - m;
    assert Orig(b + m, d, L) == Orig(b, d, L);
    ZeroAt(b, i, d, L);
  }

  /** A period carries the start of every loop to the start of the loop k0 later. */
  lemma {:induction false} PeriodShiftsLoops(m: nat, k0: nat, k: nat, d: nat, L: nat)
    requires 0 < d <= L
    requires Period(m, d, L)
    requires First(k0, d, L) == m
    ensures First(k + k0, d, L) == First(k, d, L) + m
  {
    if k != 0 {
      PeriodShiftsLoops(m, k0, k - 1, d, L);
      NextStartsBy(m, k - 1, k - 1 + k0, d, L);
      NextStartsNotBefore(m, k - 1, k - 1 + k0, d, L);
    }
  }

  lemma {:induction false} PeriodMultiples(m: nat, k0: nat, q: nat, d: nat, L: nat)
    requires 0 < d <= L
    requires Period(m, d, L)
    requires First(k0, d, L) == m
    ensures First(q * k0, d, L) == q * m
  {
    if q == 0 {
      assert 0 * k0 == 0 && 0 * m == 0;
    } else {
      PeriodMultiples(m, k0, q - 1, d, L);
      PeriodShiftsLoops(m, k0, (q - 1) * k0, d, L);
      assert (q - 1) * k0 + k0 == q * k0;
      assert (q - 1) * m + m == q * m;
    }
  }

  lemma PeriodDivides(m: nat, d: nat, L: nat)
    requires 0 < d <= L
    requires Period(m, d, L)
    ensures (m * d) % L == 0
  {
    var k0 := LoopOf(m, d, L);
    assert Orig(0, d, L) == 0;
    assert Orig(0 + m, d, L) == Orig(0, d, L);
    assert First(k0, d, L) == m;
    PeriodMultiples(m, k0, d, d, L);
    FirstAfterWholeSamples(k0, d, L);
    DivUnique(m * d, L, k0);
  }

  lemma FirstAfterWholeSamples(k0: nat, d: nat, L: nat)
    requires 0 < d
    ensures First(d * k0, d, L) == k0 * L
  {
    assert (d * k0) * L == (k0 * L) * d;
    CeilUnique((d * k0) * L, d, k0 * L);
  }

  /** Skipping j whole loops that span m samples leaves the source position unchanged. */
  lemma SkipWholeLoops(n: nat, m: nat, j: nat, d: nat, L: nat)
    requires 0 < d && 0 < L
    requires m * d == j * L
    ensures Orig(n + m, d, L) == Orig(n, d, L)
  {
    var k := LoopOf(n, d, L);
    Distribute(n, m, d);
    ShiftByMultiple(n * d, L, j);
    assert LoopOf(n + m, d, L) == k + j;
    Distribute(k, j, L);
    ShiftByMultiple(k * L, d, m);
    assert First(k + j, d, L) == First(k, d, L) + m;
  }

  lemma MultipleIsPeriod(m: nat, d: nat, L: nat)
    requires 0 < d && 0 < L
    requires (m * d) % L == 0
    ensures Period(m, d, L)
  {
    FloorGalois(m * d, L, 0);
    DivSplit(m * d, L);
    forall n: nat
      ensures Orig(n + m, d, L) == Orig(n, d, L)
    {
      SkipWholeLoops(n, m, m * d / L, d, L);
    }
  }

  /** m is a period of the source positions iff m samples span whole loops (or a loop is at most one sample). */
  lemma ExactPeriod(m: nat, d: nat, L: nat)
    requires 0 < d && 0 < L
    ensures Period(m, d, L) <==> (L <= d || (m * d) % L == 0)
  {
    if L <= d {
      forall n: nat
        ensures Orig(n + m, d, L) == Orig(n, d, L)
      {
        AlwaysFirst(n + m, d, L);
        AlwaysFirst(n, d, L);
      }
    } else {
      if Period(m, d, L) { PeriodDivides(m, d, L); }
      if (m * d) % L == 0 { MultipleIsPeriod(m, d, L); }
    }
  }

  /** AAC at 48 kHz over a 10 s loop repeats after 1875 samples (four loops), and at no other distance. */
  lemma AacCycle(m: nat)
    ensures Period(m, 1024, 480000) <==> m % 1875 == 0
  {
    ExactPeriod(m, 1024, 480000);
    AacDivides(m);
  }

  lemma AacDivides(m: nat)
    ensures (m * 1024) % 480000 == 0 <==> m % 1875 == 0
  {
    if (m * 1024) % 480000 == 0 {
      var j := m * 1024 / 480000;
      assert 4 * m == 1875 * j;
      assert m == 1875 * (j / 4);
    }
    if m % 1875 == 0 {
      assert m * 1024 == (4 * (m / 1875)) * 480000;
    }
  }
}
