/** The parameter sets known after all samples of a clip, and when a clip loads because of them. */
module ClipSets {
  import opened Bytes
  import opened Nalu
  import opened Rewrite
  import opened CapturedSets
  import opened InitSamples

  /** The list that units of a kind are captured in. */
  function ListOf(sets: ParamSets, k: Kind): seq<NaluRef> {
    match k
    case VPS => sets.vps
    case SPS => sets.sps
    case PPS => sets.pps
    case _ => []
  }

  predicate IsSet(k: Kind) {
    k.VPS? || k.SPS? || k.PPS?
  }

  /** No reference reaches to position w or behind it. */
  ghost predicate StableUpTo(refs: seq<NaluRef>, w: nat) {
    forall i :: 0 <= i < |refs| ==> refs[i].Given? || refs[i].off + refs[i].len <= w
  }

  /** Bytes in front of w are the same. */
  lemma StableDeref(refs: seq<NaluRef>, w: nat, now: seq<byte>, now': seq<byte>, u: Unit)
    requires StableUpTo(refs, w) && |now| == |now'| && w <= |now| && now[..w] == now'[..w]
    ensures Present(refs, u, now) <==> Present(refs, u, now')
  {
    forall i | 0 <= i < |refs|
      ensures Deref(refs[i], now) == Deref(refs[i], now')
    {
      if refs[i].InSample? {
        var off, end := refs[i].off, refs[i].off + refs[i].len;
        SameSlice(now, now', w, |now|, off, end);
        DerefSlice(now, off, refs[i].len, end);
        DerefSlice(now', off, refs[i].len, end);
      }
    }
  }

  /** What capturing one unit does to the list of a kind. */
  lemma TurnList(s: State, r: nat, u: Unit, kind: Kinds, k: Kind)
    requires s.w <= r && r + 4 + |u| <= |s.now| && u == s.now[r + 4..r + 4 + |u|] && IsSet(k)
    ensures ListOf(Turn(s, r, u, kind).sets, k) == ListOf(s.sets, k)
            <==> (Classify(kind, u) == k ==> Present(ListOf(s.sets, k), u, s.now))
    ensures ListOf(s.sets, k) <= ListOf(Turn(s, r, u, kind).sets, k)
  {
    var end := r + 4 + |u|;
    DerefSlice(s.now, r + 4, |u|, end);
    assert Deref(InSample(r + 4, |u|), s.now) == u;
  }

  /** All units of kind k among us are in the list already. */
  ghost predicate AllPresent(refs: seq<NaluRef>, us: seq<Unit>, kind: Kinds, k: Kind, b: seq<byte>) {
    forall i :: 0 <= i < |us| && Classify(kind, us[i]) == k ==> Present(refs, us[i], b)
  }

  lemma AllPresentCons(refs: seq<NaluRef>, u: Unit, us: seq<Unit>, kind: Kinds, k: Kind, b: seq<byte>)
    ensures AllPresent(refs, [u] + us, kind, k, b)
            <==> (Classify(kind, u) == k ==> Present(refs, u, b)) && AllPresent(refs, us, kind, k, b)
  {
    var all := [u] + us;
    assert all[0] == u;
    assert forall i :: 0 <= i < |us| ==> us[i] == all[i + 1];
  }

  /** Captured lists only grow, over the rest of a sample. */
  lemma ListGrows(s: State, r: nat, hi: nat, kind: Kinds, k: Kind)
    requires s.w <= r <= hi <= |s.now|
    ensures ListOf(s.sets, k) <= ListOf(Rewritten(s, r, hi, kind).sets, k)
  {
    EncodeSplit(s.now[r..hi]);
    SetsOnlyGrow(s, r, Unread(s.now, r, hi).units, kind);
  }

  lemma PresentAfterTurn(s: State, r: nat, u: Unit, kind: Kinds, k: Kind, us: seq<Unit>, refs: seq<NaluRef>)
    requires s.w <= r && r + 4 + |u| <= |s.now| && StableUpTo(refs, s.w)
    ensures AllPresent(refs, us, kind, k, s.now) <==> AllPresent(refs, us, kind, k, Turn(s, r, u, kind).now)
  {
    var t := Turn(s, r, u, kind);
    TurnFrame(s, r, u, kind, 0, s.w);
    assert s.now[..s.w] == s.now[0..s.w] == t.now[0..s.w] == t.now[..s.w];
    forall x: Unit
      ensures Present(refs, x, s.now) <==> Present(refs, x, t.now)
    {
      StableDeref(refs, s.w, s.now, t.now, x);
    }
  }

  /**
   * A sample adds nothing to the list of a kind if and only if all its units of that kind are in it already, for
   * entries that lie in front of what the sample overwrites.
   */
  lemma {:induction false} ListStays(s: State, r: nat, hi: nat, kind: Kinds, k: Kind)
    requires s.w <= r <= hi <= |s.now| && IsSet(k)
    requires StableUpTo(ListOf(s.sets, k), s.w)
    ensures ListOf(Rewritten(s, r, hi, kind).sets, k) == ListOf(s.sets, k)
            <==> AllPresent(ListOf(s.sets, k), Unread(s.now, r, hi).units, kind, k, s.now)
    decreases hi - r
  {
    var us := Unread(s.now, r, hi).units;
    if us != [] {
      var n := Uint32(s.now[r..hi]);
      var next := r + 4 + n;
      var u := s.now[r + 4..next];
      TurnKeepsGoal(s, r, hi, n, u, next, kind);
      var t := Turn(s, r, u, kind);
      var rest := Unread(t.now, next, hi).units;
      TurnList(s, r, u, kind, k);
      ListGrows(t, next, hi, kind, k);
      AllPresentCons(ListOf(s.sets, k), u, rest, kind, k, s.now);
      PresentAfterTurn(s, r, u, kind, k, rest, ListOf(s.sets, k));
      if ListOf(t.sets, k) == ListOf(s.sets, k) {
        ListStays(t, next, hi, kind, k);
      }
    }
  }

  // ---- Over a clip ----

  /** What rewriting sample n does to the buffer and to the sets. */
  lemma StateNext(b: seq<byte>, sl: seq<Slice>, n: nat, next: nat, kind: Kinds, sets: ParamSets, s: State, f: State)
    requires Apart(sl, |b|) && n < |sl| && next == n + 1
    requires s == StateAfter(b, sl, n, kind, sets) && f == StateAfter(b, sl, next, kind, sets)
    ensures f == Rewritten(State(s.now, sl[n].lo, s.sets), sl[n].lo, sl[n].hi, kind)
    ensures sl[n].lo <= f.w <= sl[n].hi && |f.now| == |s.now|
    ensures f.now[..sl[n].lo] == s.now[..sl[n].lo] && f.now[f.w..] == s.now[f.w..]
  {
    RewriteMeaning(s.now, sl[n].lo, sl[n].hi, kind, s.sets);
  }

  lemma UntouchedBy(b: seq<byte>, sl: seq<Slice>, n: nat, next: nat, kind: Kinds, sets: ParamSets,
                    from: nat, to: nat)
    requires Apart(sl, |b|) && n < |sl| && next == n + 1 && from <= to <= |b|
    requires to <= sl[n].lo || sl[n].hi <= from
    ensures StateAfter(b, sl, next, kind, sets).now[from..to] == StateAfter(b, sl, n, kind, sets).now[from..to]
  {
    var s, f := StateAfter(b, sl, n, kind, sets), StateAfter(b, sl, next, kind, sets);
    StateNext(b, sl, n, next, kind, sets, s, f);
    SameSlice(f.now, s.now, sl[n].lo, f.w, from, to);
  }

  ghost predicate Outside(sl: seq<Slice>, m: nat, n: nat, from: nat, to: nat)
    requires m <= n <= |sl|
  {
    forall i :: m <= i < n ==> to <= sl[i].lo || sl[i].hi <= from
  }

  /** A range outside the samples m, ..., n-1 is not touched by their rewrite. */
  lemma {:induction false} Untouched(b: seq<byte>, sl: seq<Slice>, m: nat, n: nat, kind: Kinds, sets: ParamSets,
                                     from: nat, to: nat)
    requires Apart(sl, |b|) && m <= n <= |sl| && from <= to <= |b|
    requires Outside(sl, m, n, from, to)
    ensures StateAfter(b, sl, n, kind, sets).now[from..to] == StateAfter(b, sl, m, kind, sets).now[from..to]
    decreases n
  {
    if m < n {
      var last := n - 1;
      Untouched(b, sl, m, last, kind, sets, from, to);
      UntouchedBy(b, sl, last, n, kind, sets, from, to);
    }
  }

  /** Before its turn a sample is as it was. */
  lemma NotYetRewritten(b: seq<byte>, sl: seq<Slice>, n: nat, kind: Kinds, sets: ParamSets)
    requires Apart(sl, |b|) && n < |sl|
    ensures StateAfter(b, sl, n, kind, sets).now[sl[n].lo..sl[n].hi] == DataOf(b, sl, n)
  {
    Untouched(b, sl, 0, n, kind, sets, sl[n].lo, sl[n].hi);
  }

  /** The list of a kind once the first n samples are done. */
  ghost function ListAfter(b: seq<byte>, sl: seq<Slice>, n: nat, kind: Kinds, sets: ParamSets, k: Kind): seq<NaluRef>
    requires Apart(sl, |b|) && n <= |sl|
  {
    ListOf(StateAfter(b, sl, n, kind, sets).sets, k)
  }

  lemma SliceStays(now: seq<byte>, lo: nat, hi: nat, kind: Kinds, sets: ParamSets, k: Kind, us: seq<Unit>)
    requires lo <= hi <= |now| && IsSet(k) && StableUpTo(ListOf(sets, k), lo) && us == Split(now[lo..hi]).units
    ensures ListOf(Rewritten(State(now, lo, sets), lo, hi, kind).sets, k) == ListOf(sets, k)
            <==> AllPresent(ListOf(sets, k), us, kind, k, now)
  {
    ListStays(State(now, lo, sets), lo, hi, kind, k);
  }

  /** Sample n adds nothing to the list if and only if all its units of that kind are in it already. */
  lemma SampleStays(b: seq<byte>, sl: seq<Slice>, n: nat, next: nat, kind: Kinds, sets: ParamSets, k: Kind)
    requires Apart(sl, |b|) && n < |sl| && next == n + 1 && IsSet(k)
    requires StableUpTo(ListAfter(b, sl, n, kind, sets, k), sl[n].lo)
    ensures ListAfter(b, sl, next, kind, sets, k) == ListAfter(b, sl, n, kind, sets, k)
            <==> AllPresent(ListAfter(b, sl, n, kind, sets, k), Split(DataOf(b, sl, n)).units, kind, k,
                            StateAfter(b, sl, n, kind, sets).now)
  {
    var s := StateAfter(b, sl, n, kind, sets);
    NotYetRewritten(b, sl, n, kind, sets);
    SliceStays(s.now, sl[n].lo, sl[n].hi, kind, s.sets, k, Split(DataOf(b, sl, n)).units);
  }

  lemma {:induction false} ListOnlyGrows(b: seq<byte>, sl: seq<Slice>, m: nat, n: nat, kind: Kinds, sets: ParamSets,
                                         k: Kind)
    requires Apart(sl, |b|) && m <= n <= |sl|
    ensures ListAfter(b, sl, m, kind, sets, k) <= ListAfter(b, sl, n, kind, sets, k)
    decreases n
  {
    if m < n {
      var last := n - 1;
      var s, f := StateAfter(b, sl, last, kind, sets), StateAfter(b, sl, n, kind, sets);
      ListOnlyGrows(b, sl, m, last, kind, sets, k);
      StateNext(b, sl, last, n, kind, sets, s, f);
      ListGrows(State(s.now, sl[last].lo, s.sets), sl[last].lo, sl[last].hi, kind, k);
    }
  }

  // ---- Sets given by the sample entry ----

  ghost predicate AllGiven(refs: seq<NaluRef>) {
    forall i :: 0 <= i < |refs| ==> refs[i].Given?
  }

  /** Every unit of kind k in the first n samples is among the given ones. */
  ghost predicate ClipCovered(refs: seq<NaluRef>, b: seq<byte>, sl: seq<Slice>, n: nat, kind: Kinds, k: Kind)
    requires Apart(sl, |b|) && n <= |sl|
  {
    forall i :: 0 <= i < n ==> UnitsGiven(refs, Split(DataOf(b, sl, i)).units, kind, k)
  }

  ghost predicate UnitsGiven(refs: seq<NaluRef>, us: seq<Unit>, kind: Kinds, k: Kind) {
    forall i :: 0 <= i < |us| && Classify(kind, us[i]) == k ==> Given(us[i]) in refs
  }

  lemma GivenPresent(refs: seq<NaluRef>, us: seq<Unit>, kind: Kinds, k: Kind, b: seq<byte>)
    requires AllGiven(refs)
    ensures AllPresent(refs, us, kind, k, b) <==> UnitsGiven(refs, us, kind, k)
  {
    forall u: Unit
      ensures Present(refs, u, b) <==> Given(u) in refs
    {
      if Given(u) in refs {
        var i :| 0 <= i < |refs| && refs[i] == Given(u);
        assert Deref(refs[i], b) == u;
      }
    }
  }

  lemma CoveredNext(refs: seq<NaluRef>, b: seq<byte>, sl: seq<Slice>, n: nat, next: nat, kind: Kinds, k: Kind)
    requires Apart(sl, |b|) && n < |sl| && next == n + 1
    ensures ClipCovered(refs, b, sl, next, kind, k)
            <==> ClipCovered(refs, b, sl, n, kind, k) && UnitsGiven(refs, Split(DataOf(b, sl, n)).units, kind, k)
  {
  }

  /** A sample adds nothing to given sets if and only if its own are among them. */
  lemma GivenSampleStays(b: seq<byte>, sl: seq<Slice>, n: nat, next: nat, kind: Kinds, sets: ParamSets, k: Kind)
    requires Apart(sl, |b|) && n < |sl| && next == n + 1 && IsSet(k) && AllGiven(ListOf(sets, k))
    requires ListAfter(b, sl, n, kind, sets, k) == ListOf(sets, k)
    ensures ListAfter(b, sl, next, kind, sets, k) == ListOf(sets, k)
            <==> UnitsGiven(ListOf(sets, k), Split(DataOf(b, sl, n)).units, kind, k)
  {
    SampleStays(b, sl, n, next, kind, sets, k);
    GivenPresent(ListOf(sets, k), Split(DataOf(b, sl, n)).units, kind, k, StateAfter(b, sl, n, kind, sets).now);
  }

  /**
   * When the sample entry gives the sets of a kind, the clip adds none if and only if every set of that kind that
   * occurs in it is given.
   */
  lemma {:induction false} GivenSetsStayInClip(b: seq<byte>, sl: seq<Slice>, n: nat, kind: Kinds, sets: ParamSets,
                                               k: Kind)
    requires Apart(sl, |b|) && n <= |sl| && IsSet(k) && AllGiven(ListOf(sets, k))
    ensures ListAfter(b, sl, n, kind, sets, k) == ListOf(sets, k)
            <==> ClipCovered(ListOf(sets, k), b, sl, n, kind, k)
    decreases n
  {
    if n != 0 {
      var last := n - 1;
      GivenSetsStayInClip(b, sl, last, kind, sets, k);
      ListOnlyGrows(b, sl, 0, last, kind, sets, k);
      ListOnlyGrows(b, sl, last, n, kind, sets, k);
      CoveredNext(ListOf(sets, k), b, sl, last, n, kind, k);
      if ListAfter(b, sl, last, kind, sets, k) == ListOf(sets, k) {
        GivenSampleStays(b, sl, last, n, kind, sets, k);
      }
    }
  }

  /** One set of a kind is left if and only if one is given and the clip has no other. */
  lemma OneSetLeft(b: seq<byte>, sl: seq<Slice>, kind: Kinds, sets: ParamSets, k: Kind)
    requires Apart(sl, |b|) && IsSet(k) && AllGiven(ListOf(sets, k)) && ListOf(sets, k) != []
    ensures |ListAfter(b, sl, |sl|, kind, sets, k)| == 1
            <==> |ListOf(sets, k)| == 1 && ClipCovered(ListOf(sets, k), b, sl, |sl|, kind, k)
  {
    ListOnlyGrows(b, sl, 0, |sl|, kind, sets, k);
    GivenSetsStayInClip(b, sl, |sl|, kind, sets, k);
  }

  lemma GivenUnits(refs: seq<NaluRef>, b: seq<byte>)
    requires AllGiven(refs)
    ensures Units(refs, b) == Units(refs, [])
  {
    forall i | 0 <= i < |refs|
      ensures Deref(refs[i], b) == Deref(refs[i], [])
    {
      assert refs[i].Given?;
    }
  }

  /**
   * avc1: a clip whose sample entry gives SPSs and PPSs loads if and only if every sample splits, the entry gives
   * exactly one of each, no sample holds another one, and the library can use those two.
   */
  method InitAvc1(buf: array<byte>, samples: array<Slice>, kind: Kinds, sets: ParamSets, descriptor: Descriptor)
    returns (ok: bool, sets': ParamSets)
    requires Apart(samples[..], buf.Length) && AllNonEmpty(buf[..], samples[..])
    requires AllGiven(sets.vps) && AllGiven(sets.sps) && AllGiven(sets.pps) && sets.sps != [] && sets.pps != []
    requires forall u: Unit :: Classify(kind, u) != VPS
    modifies buf, samples
    ensures var b, sl := old(buf[..]), old(samples[..]);
            ok <==> AllSplit(b, sl, |sl|) && |sets.sps| == 1 && |sets.pps| == 1
                    && ClipCovered(sets.sps, b, sl, |sl|, kind, SPS) && ClipCovered(sets.pps, b, sl, |sl|, kind, PPS)
                    && Described(descriptor, sets, [])
    ensures ok ==> sets' == sets
  {
    ghost var b, sl := buf[..], samples[..];
    ok, sets' := InitAVC(buf, samples, kind, sets, descriptor);
    if AllSplit(b, sl, |sl|) {
      OneSetLeft(b, sl, kind, sets, SPS);
      OneSetLeft(b, sl, kind, sets, PPS);
      if ClipCovered(sets.sps, b, sl, |sl|, kind, SPS) && ClipCovered(sets.pps, b, sl, |sl|, kind, PPS) {
        SetsUnchanged(b, sl, kind, sets);
        GivenDescribed(sets, descriptor, buf[..]);
      }
    }
  }

  lemma GivenDescribed(sets: ParamSets, descriptor: Descriptor, b: seq<byte>)
    requires AllGiven(sets.vps) && AllGiven(sets.sps) && AllGiven(sets.pps)
    ensures Described(descriptor, sets, b) <==> Described(descriptor, sets, [])
  {
    GivenUnits(sets.vps, b);
    GivenUnits(sets.sps, b);
    GivenUnits(sets.pps, b);
  }

  lemma NoneToCover(refs: seq<NaluRef>, b: seq<byte>, sl: seq<Slice>, kind: Kinds, k: Kind)
    requires Apart(sl, |b|) && forall u: Unit :: Classify(kind, u) != k
    ensures ClipCovered(refs, b, sl, |sl|, kind, k)
  {
    forall i | 0 <= i < |sl|
      ensures UnitsGiven(refs, Split(DataOf(b, sl, i)).units, kind, k)
    {
    }
  }

  /** Given sets that the clip covers are the ones handed on. */
  lemma SetsUnchanged(b: seq<byte>, sl: seq<Slice>, kind: Kinds, sets: ParamSets)
    requires Apart(sl, |b|) && forall u: Unit :: Classify(kind, u) != VPS
    requires AllGiven(sets.vps) && AllGiven(sets.sps) && AllGiven(sets.pps)
    requires ClipCovered(sets.sps, b, sl, |sl|, kind, SPS) && ClipCovered(sets.pps, b, sl, |sl|, kind, PPS)
    ensures StateAfter(b, sl, |sl|, kind, sets).sets == sets
  {
    NoneToCover(sets.vps, b, sl, kind, VPS);
    GivenSetsStayInClip(b, sl, |sl|, kind, sets, VPS);
    GivenSetsStayInClip(b, sl, |sl|, kind, sets, SPS);
    GivenSetsStayInClip(b, sl, |sl|, kind, sets, PPS);
    var s := StateAfter(b, sl, |sl|, kind, sets);
    assert ListOf(s.sets, VPS) == sets.vps && ListOf(s.sets, SPS) == sets.sps && ListOf(s.sets, PPS) == sets.pps;
  }

  // ---- Sets repeated in the clip ----

  /** No unit is of kind k. */
  ghost predicate NoneOf(us: seq<Unit>, kind: Kinds, k: Kind) {
    forall i :: 0 <= i < |us| ==> Classify(kind, us[i]) != k
  }

  lemma {:induction false} NoneAdded(s: State, r: nat, us: seq<Unit>, kind: Kinds, k: Kind)
    requires s.w <= r && r + |Encode(us)| <= |s.now| && NoneOf(us, kind, k) && IsSet(k)
    ensures ListOf(Final(s, r, us, kind).sets, k) == ListOf(s.sets, k)
    decreases us
  {
    if us != [] {
      assert Classify(kind, us[0]) != k;
      NoneAdded(Turn(s, r, us[0], kind), Behind(r, us[0]), us[1..], kind, k);
    }
  }

  /** A set at the start of the first sample is the first one captured, and the only one if no other follows. */
  lemma FirstCaptured(b: seq<byte>, lo: nat, hi: nat, kind: Kinds, k: Kind, u: Unit, post: seq<Unit>)
    requires lo <= hi <= |b| && Split(b[lo..hi]).units == [u] + post && IsSet(k) && Classify(kind, u) == k
    ensures lo + 4 + |u| <= hi
    ensures var list := ListOf(Rewritten(State(b, lo, ParamSets([], [], [])), lo, hi, kind).sets, k);
            [InSample(lo + 4, |u|)] <= list && (NoneOf(post, kind, k) ==> list == [InSample(lo + 4, |u|)])
  {
    var s := State(b, lo, ParamSets([], [], []));
    var next := Behind(lo, u);
    RewrittenIs(b, lo, hi, kind, s.sets, [u] + post);
    FinalStep(s, lo, u, post, next, kind);
    var t := Turn(s, lo, u, kind);
    assert [] + [InSample(lo + 4, |u|)] == ListOf(t.sets, k);
    SetsOnlyGrow(t, next, post, kind);
    if NoneOf(post, kind, k) {
      NoneAdded(t, next, post, kind, k);
    }
  }

  lemma NothingInFront(u: Unit, post: seq<Unit>)
    ensures [] + [u] + post == [u] + post && ([u] + post)[0] == u
  {
  }

  /** The slice of a set at the start of a sample reads as no set of its kind once a unit behind it is kept. */
  lemma ReadsAsNoSet(b: seq<byte>, lo: nat, hi: nat, kind: Kinds, k: Kind, u: Unit, post: seq<Unit>, x: Unit)
    requires lo <= hi <= |b| && Split(b[lo..hi]).units == [u] + post && IsSet(k) && Classify(kind, u) == k
    requires ByFirstByte(kind) && NonEmpty([u] + post) && Kept(post, kind) != []
    requires x != [] && Classify(kind, x) == k
    ensures Deref(InSample(lo + 4, |u|), Rewritten(State(b, lo, ParamSets([], [], [])), lo, hi, kind).now) != x
  {
    NothingInFront(u, post);
    var f := Rewritten(State(b, lo, ParamSets([], [], [])), lo, hi, kind);
    var off, end := lo + 4, lo + 4 + |u|;
    FirstCaptured(b, lo, hi, kind, k, u, post);
    RewriteMeaning(b, lo, hi, kind, ParamSets([], [], []));
    KeptBehindSet(u, post, kind);
    StartsUnlike(x, k, post, kind);
    assert f.now[off] == f.now[lo..f.w][4];
    DerefSlice(f.now, off, |u|, end);
    assert f.now[off..end][0] == f.now[off];
  }

  /** The first byte of the units kept is not that of a set. */
  lemma StartsUnlike(x: Unit, k: Kind, post: seq<Unit>, kind: Kinds)
    requires ByFirstByte(kind) && NonEmpty(post) && IsSet(k) && x != [] && Classify(kind, x) == k
    requires Kept(post, kind) != []
    ensures 4 < |Encode(Kept(post, kind))| && Encode(Kept(post, kind))[4] != x[0]
  {
    assert NonEmpty([x] + post);
    StartsDifferently(x, post, kind);
  }

  /** A set that the first sample starts with reads as no set of its kind by the time a later sample is read. */
  lemma FirstSetIsLost(b: seq<byte>, sl: seq<Slice>, kind: Kinds, k: Kind, j: nat, u: Unit, post: seq<Unit>,
                       ref: NaluRef, x: Unit)
    requires Apart(sl, |b|) && 0 < j < |sl| && IsSet(k) && Classify(kind, u) == k && ByFirstByte(kind)
    requires Split(DataOf(b, sl, 0)).units == [u] + post && NonEmpty([u] + post) && Kept(post, kind) != []
    requires ref == InSample(sl[0].lo + 4, |u|) && x != [] && Classify(kind, x) == k
    ensures sl[0].lo + 4 + |u| <= sl[j].lo
    ensures [ref] <= ListAfter(b, sl, j, kind, ParamSets([], [], []), k)
    ensures Deref(ref, StateAfter(b, sl, j, kind, ParamSets([], [], [])).now) != x
  {
    var none := ParamSets([], [], []);
    var off, end := sl[0].lo + 4, sl[0].lo + 4 + |u|;
    var s0, s1 := StateAfter(b, sl, 0, kind, none), StateAfter(b, sl, 1, kind, none);
    var sj := StateAfter(b, sl, j, kind, none);
    StateNext(b, sl, 0, 1, kind, none, s0, s1);
    FirstCaptured(b, sl[0].lo, sl[0].hi, kind, k, u, post);
    ReadsAsNoSet(b, sl[0].lo, sl[0].hi, kind, k, u, post, x);
    ListOnlyGrows(b, sl, 1, j, kind, none, k);
    Untouched(b, sl, 1, j, kind, none, off, end);
    DerefSlice(s1.now, off, |u|, end);
    DerefSlice(sj.now, off, |u|, end);
  }

  /**
   * Without sets in the sample entry: behind a first sample that starts with a set, in front of a kept unit, any
   * set of that kind in a later sample is captured as a second one, even if it is the same.
   */
  lemma LaterSetIsCaptured(b: seq<byte>, sl: seq<Slice>, kind: Kinds, k: Kind, j: nat, u: Unit, post: seq<Unit>,
                           x: Unit)
    requires Apart(sl, |b|) && 0 < j < |sl| && IsSet(k) && Classify(kind, u) == k && ByFirstByte(kind)
    requires Split(DataOf(b, sl, 0)).units == [u] + post && NonEmpty([u] + post) && Kept(post, kind) != []
    requires x in Split(DataOf(b, sl, j)).units && x != [] && Classify(kind, x) == k
    ensures 2 <= |ListAfter(b, sl, |sl|, kind, ParamSets([], [], []), k)|
  {
    var none, ref := ParamSets([], [], []), InSample(sl[0].lo + 4, |u|);
    var list, next := ListAfter(b, sl, j, kind, none, k), j + 1;
    FirstSetIsLost(b, sl, kind, k, j, u, post, ref, x);
    ListOnlyGrows(b, sl, j, next, kind, none, k);
    ListOnlyGrows(b, sl, next, |sl|, kind, none, k);
    if |list| == 1 {
      assert list == [ref];
      SampleStays(b, sl, j, next, kind, none, k);
      NotAmong(ref, Split(DataOf(b, sl, j)).units, x, kind, k, StateAfter(b, sl, j, kind, none).now);
    }
  }

  lemma NotAmong(ref: NaluRef, us: seq<Unit>, u: Unit, kind: Kinds, k: Kind, b: seq<byte>)
    requires u in us && Classify(kind, u) == k && Deref(ref, b) != u
    ensures !AllPresent([ref], us, kind, k, b)
  {
    var i :| 0 <= i < |us| && us[i] == u;
    assert !Present([ref], us[i], b);
  }

  /** No sample from m up to n holds a unit of kind k. */
  ghost predicate NoneIn(b: seq<byte>, sl: seq<Slice>, m: nat, n: nat, kind: Kinds, k: Kind)
    requires Apart(sl, |b|) && m <= n <= |sl|
  {
    forall i :: m <= i < n ==> NoneOf(Split(DataOf(b, sl, i)).units, kind, k)
  }

  lemma NoneAddedBySlice(now: seq<byte>, lo: nat, hi: nat, kind: Kinds, sets: ParamSets, k: Kind)
    requires lo <= hi <= |now| && IsSet(k) && NoneOf(Split(now[lo..hi]).units, kind, k)
    ensures ListOf(Rewritten(State(now, lo, sets), lo, hi, kind).sets, k) == ListOf(sets, k)
  {
    var us := Split(now[lo..hi]).units;
    RewrittenIs(now, lo, hi, kind, sets, us);
    NoneAdded(State(now, lo, sets), lo, us, kind, k);
  }

  lemma NoneAddedBySample(b: seq<byte>, sl: seq<Slice>, n: nat, next: nat, kind: Kinds, sets: ParamSets, k: Kind)
    requires Apart(sl, |b|) && n < |sl| && next == n + 1 && IsSet(k)
    requires NoneOf(Split(DataOf(b, sl, n)).units, kind, k)
    ensures ListAfter(b, sl, next, kind, sets, k) == ListAfter(b, sl, n, kind, sets, k)
  {
    var s := StateAfter(b, sl, n, kind, sets);
    NotYetRewritten(b, sl, n, kind, sets);
    NoneAddedBySlice(s.now, sl[n].lo, sl[n].hi, kind, s.sets, k);
  }

  lemma {:induction false} NoneAddedInClip(b: seq<byte>, sl: seq<Slice>, m: nat, n: nat, kind: Kinds,
                                           sets: ParamSets, k: Kind)
    requires Apart(sl, |b|) && m <= n <= |sl| && IsSet(k) && NoneIn(b, sl, m, n, kind, k)
    ensures ListAfter(b, sl, n, kind, sets, k) == ListAfter(b, sl, m, kind, sets, k)
    decreases n
  {
    if m < n {
      var last := n - 1;
      NoneAddedInClip(b, sl, m, last, kind, sets, k);
      NoneAddedBySample(b, sl, last, n, kind, sets, k);
    }
  }

  /**
   * avc3, with the first sample starting with its only SPS, in front of a coded slice: the clip ends up with
   * exactly one SPS if and only if no later sample has any, not even the same one again.
   */
  lemma OneSetInBand(b: seq<byte>, sl: seq<Slice>, kind: Kinds, k: Kind, u: Unit, post: seq<Unit>)
    requires Apart(sl, |b|) && AllNonEmpty(b, sl) && sl != [] && IsSet(k) && ByFirstByte(kind)
    requires Split(DataOf(b, sl, 0)).units == [u] + post && Classify(kind, u) == k && NoneOf(post, kind, k)
    requires Kept(post, kind) != []
    ensures |ListAfter(b, sl, |sl|, kind, ParamSets([], [], []), k)| == 1 <==> NoneIn(b, sl, 1, |sl|, kind, k)
  {
    var none := ParamSets([], [], []);
    if NoneIn(b, sl, 1, |sl|, kind, k) {
      NoneAddedInClip(b, sl, 1, |sl|, kind, none, k);
      FirstCaptured(b, sl[0].lo, sl[0].hi, kind, k, u, post);
      StateNext(b, sl, 0, 1, kind, none, StateAfter(b, sl, 0, kind, none), StateAfter(b, sl, 1, kind, none));
    } else {
      var j :| 1 <= j < |sl| && !NoneOf(Split(DataOf(b, sl, j)).units, kind, k);
      var i :| 0 <= i < |Split(DataOf(b, sl, j)).units| && Classify(kind, Split(DataOf(b, sl, j)).units[i]) == k;
      LaterSetIsCaptured(b, sl, kind, k, j, u, post, Split(DataOf(b, sl, j)).units[i]);
    }
  }

  /** Two samples of the same bytes, one behind the other. */
  lemma TwoSlices(one: seq<byte>, n: nat, b: seq<byte>, sl: seq<Slice>)
    requires n == |one| && b == one + one && sl == [Slice(0, n), Slice(n, n + n)]
    ensures Apart(sl, |b|) && DataOf(b, sl, 0) == one && DataOf(b, sl, 1) == one
    ensures AllSplit(b, sl, 2) <==> Split(one).ok
  {
    assert DataOf(b, sl, 0) == one && DataOf(b, sl, 1) == one;
  }

  /** An avc3 clip of two samples that both start with the same SPS, in front of a coded slice. */
  lemma RepeatedInTwo(b: seq<byte>, sl: seq<Slice>, one: seq<byte>, kind: Kinds, u: Unit, v: Unit, x: Unit)
    requires Apart(sl, |b|) && |sl| == 2 && DataOf(b, sl, 0) == one && DataOf(b, sl, 1) == one
    requires Split(one).units == [u, v, x] && u != [] && v != [] && x != [] && ByFirstByte(kind)
    requires Classify(kind, u) == SPS && Classify(kind, v) == PPS && Classify(kind, x) == Keep
    ensures 2 <= |ListAfter(b, sl, 2, kind, ParamSets([], [], []), SPS)|
  {
    var post := [v, x];
    assert [u] + post == [u, v, x] && [u, v, x][0] == u;
    assert post[1..][0] == x && Kept(post, kind) == Kept(post[1..], kind);
    assert u in Split(DataOf(b, sl, 1)).units;
    LaterSetIsCaptured(b, sl, kind, SPS, 1, u, post, u);
  }

  /** An avc3 clip that repeats its one SPS and PPS in front of every IDR picture: two SPSs are captured. */
  lemma Avc3ClipIsRefused() returns (b: seq<byte>, sl: seq<Slice>)
    ensures |sl| == 2 && Apart(sl, |b|) && AllSplit(b, sl, 2)
    ensures Split(DataOf(b, sl, 0)).units == [SPS_UNIT, PPS_UNIT, IDR_UNIT] == Split(DataOf(b, sl, 1)).units
    ensures 2 <= |ListAfter(b, sl, 2, AvcKind, ParamSets([], [], []), SPS)|
  {
    var one := Encode([SPS_UNIT, PPS_UNIT, IDR_UNIT]);
    var n := |one|;
    b, sl := one + one, [Slice(0, n), Slice(n, n + n)];
    SplitEncode([SPS_UNIT, PPS_UNIT, IDR_UNIT]);
    TwoSlices(one, n, b, sl);
    CodecsDecideByFirstByte();
    KindsOfUnits();
    RepeatedInTwo(b, sl, one, AvcKind, SPS_UNIT, PPS_UNIT, IDR_UNIT);
  }
}
