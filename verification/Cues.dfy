/** Which subtitle cues a segment shows, and when. All times are in milliseconds. */
module Cues {
  import opened Arith

  /** A cue in media time and the wall-clock second it announces. */
  datatype CueItvl = CueItvl(startMS: int, endMS: int, utcS: int)

  /** A segment that starts at media time segStart and wall-clock time utcStart, with cues of length cueDur. */
  datatype CueClock = CueClock(segStart: int, segDur: int, utcStart: int, cueDur: int) {
    ghost predicate Valid() {
      0 <= utcStart && 0 <= segDur && 0 < cueDur
    }

    /** Whole seconds a cue takes up, rounded up: the distance between cues. */
    function FullS(): (k: int)
      requires 0 < cueDur
      ensures 1 <= k && 1000 * k - 1000 < cueDur <= 1000 * k
    {
      (cueDur + 999) / 1000
    }

    function UtcEnd(): int {
      utcStart + segDur
    }

    function SegEnd(): int {
      segStart + segDur
    }

    /** The second of the first cue considered. */
    function FirstS(): int
      requires 0 < cueDur
    {
      utcStart / (FullS() * 1000)
    }

    /** The second of cue number i. */
    function Second(i: nat): int
      requires 0 < cueDur
    {
      FirstS() + i * FullS()
    }

    /** Cue number i, clipped to the segment and moved to media time. */
    function Cue(i: nat): CueItvl
      requires 0 < cueDur
    {
      var s := Second(i) * 1000;
      CueItvl((if s < utcStart then utcStart else s) + (segStart - utcStart),
              (if UtcEnd() < s + cueDur then UtcEnd() else s + cueDur) + (segStart - utcStart),
              Second(i))
    }

    /** Cue number i is reached by the loop. */
    predicate Listed(i: nat)
      requires 0 < cueDur
    {
      Second(i) <= UtcEnd() / (FullS() * 1000) && Second(i) * 1000 != UtcEnd()
    }

    /** The first cue is still on when the segment starts. */
    predicate FirstCueReaches()
      requires 0 < cueDur
    {
      utcStart < FirstS() * 1000 + cueDur
    }
  }

  /** The list holds the cues in order, up to the first one that is not listed. */
  ghost predicate CuesOf(c: CueClock, itvls: seq<CueItvl>)
    requires c.Valid()
  {
    && (forall i :: 0 <= i < |itvls| ==> c.Listed(i) && itvls[i] == c.Cue(i))
    && !c.Listed(|itvls|)
  }

  lemma SecondStep(c: CueClock, i: nat)
    requires c.Valid()
    ensures c.Second(i + 1) == c.Second(i) + c.FullS()
  {
    Distribute(i, 1, c.FullS());
  }

  /** The cues of a segment. */
  method CalcCueItvls(segStart: int, segDur: int, utcStart: int, cueDur: int) returns (itvls: seq<CueItvl>)
    requires 0 <= utcStart && 0 <= segDur && 0 < cueDur
    ensures CuesOf(CueClock(segStart, segDur, utcStart, cueDur), itvls)
  {
    ghost var c := CueClock(segStart, segDur, utcStart, cueDur);
    itvls := [];
    var diff := segStart - utcStart;
    var utcEndMS := utcStart + segDur;
    var cueFullS := (cueDur + 999) / 1000;
    var cueFullMS := cueFullS * 1000;
    var utcS := utcStart / cueFullMS;
    while utcS <= (utcStart + segDur) / cueFullMS
      invariant utcS == c.Second(|itvls|)
      invariant forall i :: 0 <= i < |itvls| ==> c.Listed(i) && itvls[i] == c.Cue(i)
      decreases (utcStart + segDur) / cueFullMS - utcS
    {
      var cueStartMS := utcS * 1000;
      if cueStartMS == utcEndMS {
        break;
      }
      var ci := CueItvl(cueStartMS, cueStartMS + cueDur, utcS);
      if ci.startMS < utcStart {
        ci := ci.(startMS := utcStart);
      }
      if utcEndMS < ci.endMS {
        ci := ci.(endMS := utcEndMS);
      }
      ci := ci.(startMS := ci.startMS + diff, endMS := ci.endMS + diff);
      SecondStep(c, |itvls|);
      itvls := itvls + [ci];
      utcS := utcS + cueFullS;
    }
  }

  /** A second counted in steps of k seconds comes no later than its k-fold in ms. */
  lemma SecondWithin(s: nat, k: nat, t: int)
    requires 1 <= k && s <= t / (k * 1000) && 0 <= t
    ensures s * 1000 <= t
  {
    FloorGalois(t, k * 1000, s);
    assert s * (k * 1000) == s * 1000 * k;
    MulMono(1, k, s * 1000);
  }

  lemma SecondsGrow(c: CueClock, i: nat)
    requires c.Valid()
    ensures 0 <= c.FirstS() <= c.Second(i)
  {
    FloorGalois(c.utcStart, c.FullS() * 1000, 0);
    MulMono(0, i, c.FullS());
    assert 0 * c.FullS() == 0;
  }

  /** A listed cue starts before the segment ends, and the first one is always listed. */
  lemma ListedStartsInside(c: CueClock, i: nat)
    requires c.Valid() && 0 < c.segDur
    ensures 0 <= c.FirstS() <= c.Second(i)
    ensures c.Listed(i) ==> c.Second(i) * 1000 < c.UtcEnd()
    ensures c.Listed(0)
  {
    SecondsGrow(c, i);
    if c.Listed(i) {
      SecondWithin(c.Second(i), c.FullS(), c.UtcEnd());
    }
    assert c.Second(0) == c.FirstS();
    FloorMono(c.utcStart, c.UtcEnd(), c.FullS() * 1000);
    SecondWithin(c.FirstS(), c.FullS(), c.utcStart);
  }

  /** Cues are non-empty, follow each other without overlap, and stay inside the segment. */
  ghost predicate Proper(itvls: seq<CueItvl>, from: int, to: int) {
    && (forall i :: 0 <= i < |itvls| ==> from <= itvls[i].startMS < itvls[i].endMS <= to)
    && (forall i :: 0 <= i < |itvls| - 1 ==> itvls[i].endMS <= itvls[i + 1].startMS)
  }

  /** The cues of a segment are proper exactly when its first cue is still on at its start. */
  lemma CuesProper(c: CueClock, itvls: seq<CueItvl>)
    requires c.Valid() && 0 < c.segDur && CuesOf(c, itvls)
    ensures Proper(itvls, c.segStart, c.segStart + c.segDur) <==> c.FirstCueReaches()
  {
    ListedStartsInside(c, 0);
    assert c.Second(0) == c.FirstS();
    assert itvls[0] == c.Cue(0);
    forall i | 0 <= i < |itvls|
      ensures c.FirstS() <= c.Second(i) && c.Second(i) * 1000 < c.UtcEnd()
    {
      assert c.Listed(i);
      ListedStartsInside(c, i);
    }
    forall i | 0 <= i < |itvls| - 1
      ensures itvls[i].endMS <= itvls[i + 1].startMS
    {
      assert itvls[i] == c.Cue(i) && itvls[i + 1] == c.Cue(i + 1);
      SecondStep(c, i);
    }
    if c.FirstCueReaches() {
      forall i | 0 <= i < |itvls|
        ensures c.segStart <= itvls[i].startMS < itvls[i].endMS <= c.segStart + c.segDur
      {
        assert itvls[i] == c.Cue(i);
      }
    }
  }

  /** For cues of at most a second that is so when the segment starts less than a cue's length into a second. */
  lemma ShortCuesReach(c: CueClock)
    requires c.Valid() && c.cueDur <= 1000
    ensures c.FirstCueReaches() <==> c.utcStart % 1000 < c.cueDur
  {
    assert c.FullS() == 1;
    DivSplit(c.utcStart, 1000);
  }

  /**
   * For longer cues the seconds are divided by the cue distance but not multiplied by it again: no segment
   * from 2000 * FullS() on has a proper first cue.
   */
  lemma LongCuesFallShort(c: CueClock)
    requires c.Valid() && 1000 < c.cueDur && 2000 * c.FullS() <= c.utcStart
    ensures !c.FirstCueReaches()
  {
    var k := c.FullS();
    var s := c.FirstS();
    FloorGalois(c.utcStart, k * 1000, 2);
    FloorGalois(c.utcStart, k * 1000, s);
    assert s * (k * 1000) == s * 1000 * (k - 2) + s * 2000;
    MulMono(2, s, 1000 * (k - 2));
    assert 2 * (1000 * (k - 2)) == 2000 * k - 4000;
    assert s * (1000 * (k - 2)) == s * 1000 * (k - 2);
  }

  /**
   * Cues of k seconds, rounded up, for k of at least two: a segment no longer than that gets one cue only, and it
   * announces the second with the number of whole k seconds before the segment.
   */
  lemma LongCuesListOne(c: CueClock, itvls: seq<CueItvl>, k: int)
    requires c.Valid() && CuesOf(c, itvls) && 2 <= k && 1000 * (k - 1) < c.cueDur <= 1000 * k
    requires 0 < c.segDur <= 1000 * k
    ensures |itvls| == 1 && itvls[0].utcS == c.utcStart / (1000 * k)
  {
    assert c.FullS() == k;
    var q := c.utcStart / (k * 1000);
    FloorGalois(c.UtcEnd(), k * 1000, q);
    FloorGalois(c.UtcEnd(), k * 1000, q + 2);
    DivSplit(c.utcStart, k * 1000);
    assert (q + 2) * (k * 1000) == q * (k * 1000) + 2 * (k * 1000);
    FloorGalois(c.utcStart, k * 1000, 0);
    SecondWithin(q, k, c.utcStart);
    assert c.Second(0) == q && c.Second(1) == q + k;
    assert c.Listed(0) && !c.Listed(1);
    assert 0 < |itvls| && itvls[0] == c.Cue(0);
    assert forall i :: 0 <= i < |itvls| ==> c.Listed(i);
  }

  /** At wall-clock time t a cue shows exactly during the first cueDur milliseconds of each second, its own. */
  lemma CueShowsItsSecond(c: CueClock, itvls: seq<CueItvl>, t: int)
    requires c.Valid() && c.cueDur <= 1000 && CuesOf(c, itvls)
    requires c.utcStart <= t < c.UtcEnd()
    ensures var m := t + (c.segStart - c.utcStart);
            (exists i :: 0 <= i < |itvls| && itvls[i].startMS <= m < itvls[i].endMS) <==> t % 1000 < c.cueDur
    ensures var m := t + (c.segStart - c.utcStart);
            forall i :: 0 <= i < |itvls| && itvls[i].startMS <= m < itvls[i].endMS ==> itvls[i].utcS == t / 1000
  {
    assert c.FullS() == 1;
    var m := t + (c.segStart - c.utcStart);
    DivSplit(t, 1000);
    FloorMono(c.utcStart, t, 1000);
    forall i | 0 <= i < |itvls| && itvls[i].startMS <= m < itvls[i].endMS
      ensures itvls[i].utcS == t / 1000 && t % 1000 < c.cueDur
    {
      assert itvls[i] == c.Cue(i);
      DivUnique(t, 1000, c.Second(i));
    }
    if t % 1000 < c.cueDur {
      var i := t / 1000 - c.FirstS();
      AllUpTo(c, itvls, i, t);
      assert itvls[i] == c.Cue(i) && c.Second(i) == t / 1000;
    }
  }

  /** The cue of the second of t is in the list. */
  lemma AllUpTo(c: CueClock, itvls: seq<CueItvl>, i: nat, t: int)
    requires c.Valid() && c.cueDur <= 1000 && CuesOf(c, itvls)
    requires c.utcStart <= t < c.UtcEnd() && i == t / 1000 - c.FirstS()
    ensures i < |itvls|
  {
    assert c.FullS() == 1;
    var n := |itvls|;
    if n <= i {
      DivSplit(t, 1000);
      FloorMono(t, c.UtcEnd(), 1000);
      assert c.Second(n) == c.FirstS() + n;
      assert c.Listed(n);
    }
  }
}
