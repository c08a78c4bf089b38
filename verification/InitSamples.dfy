/** The rewrite of all samples of a track when it is loaded, in the buffer the media file was read into. */
module InitSamples {
  import opened Bytes
  import opened Nalu
  import opened Rewrite

  /** A sample's data: a slice of the buffer the media file was read into. */
  datatype Slice = Slice(lo: nat, hi: nat)

  /** Slices follow each other without overlap, as the samples of a media file do. */
  ghost predicate Apart(sl: seq<Slice>, size: nat) {
    && (forall i :: 0 <= i < |sl| ==> sl[i].lo <= sl[i].hi <= size)
    && (forall i, j :: 0 <= i < j < |sl| ==> sl[i].hi <= sl[j].lo)
  }

  /** The bytes of sample i. */
  ghost function DataOf(b: seq<byte>, sl: seq<Slice>, i: nat): seq<byte>
    requires Apart(sl, |b|) && i < |sl|
  {
    b[sl[i].lo..sl[i].hi]
  }

  /** The bytes of sample i once it has been rewritten. */
  ghost function RewrittenData(b: seq<byte>, sl: seq<Slice>, i: nat, kind: Kinds): seq<byte>
    requires Apart(sl, |b|) && i < |sl|
  {
    Encode(Kept(Split(DataOf(b, sl, i)).units, kind))
  }

  /** The first n samples have been rewritten, and nothing else: the slices now hold the kept units. */
  ghost predicate RewrittenUpTo(now: seq<byte>, cur: seq<Slice>, n: nat, b: seq<byte>, sl: seq<Slice>, kind: Kinds)
    requires Apart(sl, |b|) && n <= |sl|
  {
    && |now| == |b| && |cur| == |sl|
    && (forall i :: 0 <= i < n ==>
          && cur[i].lo == sl[i].lo <= cur[i].hi <= sl[i].hi
          && now[cur[i].lo..cur[i].hi] == RewrittenData(b, sl, i, kind))
    && (forall i :: n <= i < |sl| ==> cur[i] == sl[i])
    && (forall p :: 0 <= p < |b| && !Touched(p, cur, n) ==> now[p] == b[p])
  }

  /** Position p lies in one of the first n slices. */
  ghost predicate Touched(p: int, cur: seq<Slice>, n: nat)
    requires n <= |cur|
  {
    exists i :: 0 <= i < n && cur[i].lo <= p < cur[i].hi
  }

  /** The parameter sets after the first n samples; a sample's captures see what earlier rewrites have left. */
  ghost function StateAfter(b: seq<byte>, sl: seq<Slice>, n: nat, kind: Kinds, sets: ParamSets): (r: State)
    requires Apart(sl, |b|) && n <= |sl|
    ensures |r.now| == |b|
  {
    if n == 0 then State(b, 0, sets)
    else
      var s := StateAfter(b, sl, n - 1, kind, sets);
      RewriteMeaning(s.now, sl[n - 1].lo, sl[n - 1].hi, kind, s.sets);
      Rewritten(State(s.now, sl[n - 1].lo, s.sets), sl[n - 1].lo, sl[n - 1].hi, kind)
  }

  /** Sample n is still as it was before the rewrite of the first n. */
  lemma NextIsIntact(now: seq<byte>, cur: seq<Slice>, n: nat, b: seq<byte>, sl: seq<Slice>, kind: Kinds)
    requires Apart(sl, |b|) && n < |sl| && RewrittenUpTo(now, cur, n, b, sl, kind)
    ensures now[sl[n].lo..sl[n].hi] == DataOf(b, sl, n)
  {
    forall p | sl[n].lo <= p < sl[n].hi
      ensures now[p] == b[p]
    {
      assert !Touched(p, cur, n);
    }
  }

  /** Rewriting sample n, on top of the first n, leaves the others as they are. */
  lemma RewriteNext(now: seq<byte>, cur: seq<Slice>, n: nat, b: seq<byte>, sl: seq<Slice>, kind: Kinds,
                    now': seq<byte>, end: nat, cur': seq<Slice>)
    requires Apart(sl, |b|) && n < |sl| && RewrittenUpTo(now, cur, n, b, sl, kind)
    requires |now'| == |b| && sl[n].lo <= end <= sl[n].hi && cur' == cur[n := Slice(sl[n].lo, end)]
    requires now'[sl[n].lo..end] == RewrittenData(b, sl, n, kind)
    requires now'[..sl[n].lo] == now[..sl[n].lo] && now'[end..] == now[end..]
    ensures RewrittenUpTo(now', cur', n + 1, b, sl, kind)
  {
    var lo := sl[n].lo;
    forall i | 0 <= i < n
      ensures now'[cur'[i].lo..cur'[i].hi] == RewrittenData(b, sl, i, kind)
    {
      SameSlice(now', now, lo, end, cur[i].lo, cur[i].hi);
    }
    forall p | 0 <= p < |b| && !Touched(p, cur', n + 1)
      ensures now'[p] == b[p]
    {
      assert !(cur'[n].lo <= p < cur'[n].hi);
      SameSlice(now', now, lo, end, p, p + 1);
      assert now'[p] == now'[p..p + 1][0] == now[p];
      assert forall i :: 0 <= i < n ==> cur[i] == cur'[i];
      assert !Touched(p, cur, n);
    }
  }

  /** Between samples: the first n are rewritten, and the sets are those they have led to. */
  ghost predicate Between(now: seq<byte>, cur: seq<Slice>, sets: ParamSets, n: nat,
                          b: seq<byte>, sl: seq<Slice>, kind: Kinds, sets0: ParamSets)
    requires Apart(sl, |b|) && n <= |sl|
  {
    && RewrittenUpTo(now, cur, n, b, sl, kind)
    && StateAfter(b, sl, n, kind, sets0).now == now && StateAfter(b, sl, n, kind, sets0).sets == sets
  }

  lemma BetweenStep(now: seq<byte>, cur: seq<Slice>, sets: ParamSets, n: nat,
                    b: seq<byte>, sl: seq<Slice>, kind: Kinds, sets0: ParamSets,
                    f: State, cur': seq<Slice>, next: nat)
    requires Apart(sl, |b|) && n < |sl| && next == n + 1 && Between(now, cur, sets, n, b, sl, kind, sets0)
    requires f == Rewritten(State(now, sl[n].lo, sets), sl[n].lo, sl[n].hi, kind)
    requires cur' == cur[n := Slice(sl[n].lo, f.w)]
    ensures Between(f.now, cur', f.sets, next, b, sl, kind, sets0)
  {
    NextIsIntact(now, cur, n, b, sl, kind);
    RewriteMeaning(now, sl[n].lo, sl[n].hi, kind, sets);
    RewriteNext(now, cur, n, b, sl, kind, f.now, f.w, cur');
  }

  /** Every unit of every sample has a first byte. */
  ghost predicate AllNonEmpty(b: seq<byte>, sl: seq<Slice>)
    requires Apart(sl, |b|)
  {
    forall i :: 0 <= i < |sl| ==> NonEmpty(Split(DataOf(b, sl, i)).units)
  }

  ghost predicate AllSplit(b: seq<byte>, sl: seq<Slice>, n: nat)
    requires Apart(sl, |b|) && n <= |sl|
  {
    forall i :: 0 <= i < n ==> Split(DataOf(b, sl, i)).ok
  }

  /** Whether the codec's library makes a descriptor of the VPSs, SPSs and PPSs and can parse the first SPS. */
  type Descriptor = (seq<Unit>, seq<Unit>, seq<Unit>) -> bool

  /** The bytes the references stand for at this moment. */
  function Units(refs: seq<NaluRef>, b: seq<byte>): (r: seq<Unit>)
    ensures |r| == |refs|
    ensures forall i :: 0 <= i < |r| ==> r[i] == Deref(refs[i], b)
  {
    seq(|refs|, i requires 0 <= i < |refs| => Deref(refs[i], b))
  }

  /** The bytes handed to the library are those the captured slices hold after the rewrite. */
  predicate Described(descriptor: Descriptor, sets: ParamSets, b: seq<byte>) {
    descriptor(Units(sets.vps, b), Units(sets.sps, b), Units(sets.pps, b))
  }

  /** The library gets the VPSs, the SPSs and the PPSs, in this order, each list in its own order. */
  lemma SetsHandedOn(descriptor: Descriptor, sets: ParamSets, b: seq<byte>, vpss: seq<Unit>, spss: seq<Unit>,
                     ppss: seq<Unit>)
    requires |sets.vps| == |vpss| && forall i :: 0 <= i < |vpss| ==> Deref(sets.vps[i], b) == vpss[i]
    requires |sets.sps| == |spss| && forall i :: 0 <= i < |spss| ==> Deref(sets.sps[i], b) == spss[i]
    requires |sets.pps| == |ppss| && forall i :: 0 <= i < |ppss| ==> Deref(sets.pps[i], b) == ppss[i]
    ensures Described(descriptor, sets, b) <==> descriptor(vpss, spss, ppss)
  {
    assert Units(sets.vps, b) == vpss && Units(sets.sps, b) == spss && Units(sets.pps, b) == ppss;
  }

  /** Rewrites sample i of those in sl; the samples in front of it are done. */
  method InitSampleHEVC(buf: array<byte>, samples: array<Slice>, i: nat, kind: Kinds, sets: ParamSets,
                        ghost b: seq<byte>, ghost sl: seq<Slice>, ghost sets0: ParamSets)
    returns (ok: bool, sets': ParamSets, next: nat)
    requires Apart(sl, |b|) && AllNonEmpty(b, sl) && i < samples.Length == |sl|
    requires AllSplit(b, sl, i) && Between(buf[..], samples[..], sets, i, b, sl, kind, sets0)
    modifies buf, samples
    ensures next == i + 1
    ensures ok <==> AllSplit(b, sl, next)
    ensures ok ==> Between(buf[..], samples[..], sets', next, b, sl, kind, sets0)
  {
    var lo, hi := samples[i].lo, samples[i].hi;
    assert samples[i] == sl[i];
    ghost var now, cur := buf[..], samples[..];
    NextIsIntact(now, cur, i, b, sl, kind);
    next := i + 1;
    var end;
    ok, end, sets' := RewriteHEVC(buf, lo, hi, kind, sets);
    if ok {
      samples[i] := Slice(lo, end);
      BetweenStep(now, cur, sets, i, b, sl, kind, sets0, State(buf[..], end, sets'), samples[..], next);
    }
  }

  /**
   * initHEVCData: fails when the sample entry lacks an SPS or PPS, some sample is malformed or the sets are no
   * good; if all samples are well-formed, every one holds the encoding of its kept units.
   */
  method InitHEVC(buf: array<byte>, samples: array<Slice>, kind: Kinds, sets: ParamSets, descriptor: Descriptor)
    returns (ok: bool, sets': ParamSets)
    requires Apart(samples[..], buf.Length) && AllNonEmpty(buf[..], samples[..])
    modifies buf, samples
    ensures ok <==> sets.sps != [] && sets.pps != [] && AllSplit(old(buf[..]), old(samples[..]), samples.Length)
                    && Described(descriptor, sets', buf[..])
    ensures sets.sps != [] && sets.pps != [] && AllSplit(old(buf[..]), old(samples[..]), samples.Length) ==>
              Between(buf[..], samples[..], sets', samples.Length, old(buf[..]), old(samples[..]), kind, sets)
  {
    ghost var b, sl := buf[..], samples[..];
    sets' := sets;
    if |sets.sps| == 0 || |sets.pps| == 0 {
      return false, sets;
    }
    var i := 0;
    ok := true;
    while i < samples.Length
      invariant i <= samples.Length && AllSplit(b, sl, i)
      invariant Between(buf[..], samples[..], sets', i, b, sl, kind, sets)
    {
      ok, sets', i := InitSampleHEVC(buf, samples, i, kind, sets', b, sl, sets);
      if !ok {
        return;
      }
    }
    ok := Described(descriptor, sets', buf[..]);
  }

  /** Rewrites sample i of those in sl; the samples in front of it are done. */
  method InitSampleAVC(buf: array<byte>, samples: array<Slice>, i: nat, kind: Kinds, sets: ParamSets,
                        ghost b: seq<byte>, ghost sl: seq<Slice>, ghost sets0: ParamSets)
    returns (ok: bool, sets': ParamSets, next: nat)
    requires Apart(sl, |b|) && AllNonEmpty(b, sl) && i < samples.Length == |sl|
    requires AllSplit(b, sl, i) && Between(buf[..], samples[..], sets, i, b, sl, kind, sets0)
    modifies buf, samples
    ensures next == i + 1
    ensures ok <==> AllSplit(b, sl, next)
    ensures ok ==> Between(buf[..], samples[..], sets', next, b, sl, kind, sets0)
  {
    var lo, hi := samples[i].lo, samples[i].hi;
    assert samples[i] == sl[i];
    ghost var now, cur := buf[..], samples[..];
    NextIsIntact(now, cur, i, b, sl, kind);
    next := i + 1;
    var end;
    ok, end, sets' := RewriteAVC(buf, lo, hi, kind, sets);
    if ok {
      samples[i] := Slice(lo, end);
      BetweenStep(now, cur, sets, i, b, sl, kind, sets0, State(buf[..], end, sets'), samples[..], next);
    }
  }

  /**
   * initAVCData: fails when some sample is malformed, the sets do not end up with exactly one SPS and one PPS
   * or are no good; if all samples are well-formed, every one holds the encoding of its kept units.
   */
  method InitAVC(buf: array<byte>, samples: array<Slice>, kind: Kinds, sets: ParamSets, descriptor: Descriptor)
    returns (ok: bool, sets': ParamSets)
    requires Apart(samples[..], buf.Length) && AllNonEmpty(buf[..], samples[..])
    modifies buf, samples
    ensures ok <==> AllSplit(old(buf[..]), old(samples[..]), samples.Length) && |sets'.sps| == 1 && |sets'.pps| == 1
                    && Described(descriptor, sets', buf[..])
    ensures AllSplit(old(buf[..]), old(samples[..]), samples.Length) ==>
              Between(buf[..], samples[..], sets', samples.Length, old(buf[..]), old(samples[..]), kind, sets)
  {
    ghost var b, sl := buf[..], samples[..];
    sets', ok := sets, true;
    var i := 0;
    while i < samples.Length
      invariant i <= samples.Length && AllSplit(b, sl, i)
      invariant Between(buf[..], samples[..], sets', i, b, sl, kind, sets)
    {
      ok, sets', i := InitSampleAVC(buf, samples, i, kind, sets', b, sl, sets);
      if !ok {
        return;
      }
    }
    ok := |sets'.sps| == 1 && |sets'.pps| == 1 && Described(descriptor, sets', buf[..]);
  }
}
