/** What becomes of the parameter sets that a rewrite captures from the sample it is overwriting. */
module CapturedSets {
  import opened Arith
  import opened Bytes
  import opened Nalu
  import opened Rewrite

  /** Every parameter set among the units is already given by the sample entry. */
  ghost predicate Covers(sets: ParamSets, us: seq<Unit>, kind: Kinds) {
    forall i :: 0 <= i < |us| ==> CoversUnit(sets, us[i], Classify(kind, us[i]))
  }

  ghost predicate CoversUnit(sets: ParamSets, u: Unit, k: Kind) {
    match k
    case VPS => Given(u) in sets.vps
    case SPS => Given(u) in sets.sps
    case PPS => Given(u) in sets.pps
    case _ => true
  }

  lemma GivenIsPresent(refs: seq<NaluRef>, r: NaluRef, b: seq<byte>)
    requires Given(Deref(r, b)) in refs
    ensures AppendNew(refs, r, b) == refs
  {
    var i :| 0 <= i < |refs| && refs[i] == Given(Deref(r, b));
    assert Deref(refs[i], b) == Deref(r, b);
  }

  /** When the sample entry already gives the sets that occur in the sample, rewriting adds none. */
  lemma {:induction false} GivenSetsStay(s: State, r: nat, hi: nat, kind: Kinds)
    requires s.w <= r <= hi <= |s.now|
    requires Covers(s.sets, Unread(s.now, r, hi).units, kind)
    ensures Rewritten(s, r, hi, kind).sets == s.sets
    decreases hi - r
  {
    var us := Unread(s.now, r, hi).units;
    if us != [] {
      var n := Uint32(s.now[r..hi]);
      var next := r + 4 + n;
      var u := s.now[r + 4..next];
      TurnKeepsGoal(s, r, hi, n, u, next, kind);
      var t := Turn(s, r, u, kind);
      var rest := Unread(t.now, next, hi).units;
      assert us == [u] + rest && us[0] == u;
      assert forall i :: 0 <= i < |rest| ==> rest[i] == us[i + 1];
      assert CoversUnit(s.sets, us[0], Classify(kind, us[0]));
      CoveredTurn(s, r, u, kind);
      GivenSetsStay(t, next, hi, kind);
    }
  }

  lemma CoveredTurn(s: State, r: nat, u: Unit, kind: Kinds)
    requires s.w <= r && r + 4 + |u| <= |s.now| && u == s.now[r + 4..r + 4 + |u|]
    requires CoversUnit(s.sets, u, Classify(kind, u))
    ensures Turn(s, r, u, kind).sets == s.sets
  {
    var ref := InSample(r + 4, |u|);
    match Classify(kind, u) {
      case VPS => GivenIsPresent(s.sets.vps, ref, s.now);
      case SPS => GivenIsPresent(s.sets.sps, ref, s.now);
      case PPS => GivenIsPresent(s.sets.pps, ref, s.now);
      case _ =>
    }
  }

  lemma {:induction false} KeptConcat(us: seq<Unit>, vs: seq<Unit>, kind: Kinds)
    ensures Kept(us + vs, kind) == Kept(us, kind) + Kept(vs, kind)
  {
    if us == [] {
      assert us + vs == vs;
    } else {
      assert (us + vs)[1..] == us[1..] + vs;
      KeptConcat(us[1..], vs, kind);
    }
  }

  lemma KeptAround(pre: seq<Unit>, u: Unit, post: seq<Unit>, kind: Kinds)
    requires Classify(kind, u) != Keep
    ensures |Encode(Kept(pre + [u] + post, kind))| == |Encode(Kept(pre, kind))| + |Encode(Kept(post, kind))|
  {
    KeptConcat(pre, [u], kind);
    KeptConcat(pre + [u], post, kind);
    assert Kept([u], kind) == [];
    assert Kept(pre, kind) + [] == Kept(pre, kind);
    EncodeConcat(Kept(pre, kind), Kept(post, kind));
  }

  lemma DataAround(data: seq<byte>, pre: seq<Unit>, u: Unit, post: seq<Unit>) returns (behind: seq<byte>)
    requires Split(data).units == pre + [u] + post
    ensures data == Encode(pre) + Prefixed(u) + behind
  {
    behind := Encode(post) + Tail(data);
    EncodeSplit(data);
    EncodeAround(pre, u, post);
    Regroup(Encode(pre) + Prefixed(u), Encode(post), Tail(data));
  }

  /** Where a unit of the sample lies in the buffer. */
  lemma UnitInBuffer(b: seq<byte>, lo: nat, hi: nat, pre: seq<Unit>, u: Unit, post: seq<Unit>,
                     off: nat, end: nat)
    requires lo <= hi <= |b| && Split(b[lo..hi]).units == pre + [u] + post
    requires off == lo + |Encode(pre)| + 4 && end == off + |u|
    ensures end <= hi && b[off..end] == u
  {
    var behind := DataAround(b[lo..hi], pre, u, post);
    UnitInData(b[lo..hi], Encode(pre), u, behind, off - lo, end - lo);
    SubSlice(b, lo, hi, off - lo, end - lo, off, end);
  }

  /** How many bytes of a slice of length n at i the first k bytes reach into. */
  function Overlap(k: nat, i: nat, n: nat): nat {
    if k <= i then 0 else Min(k - i, n)
  }

  /** A slice of a buffer whose bytes from lo to w have become out. */
  lemma SliceAfterWrite(now: seq<byte>, b: seq<byte>, out: seq<byte>, lo: nat, w: nat, off: nat, end: nat, u: Unit,
                        m: nat)
    requires |now| == |b| && w == lo + |out| <= |b| && lo <= off && end == off + |u| <= |b|
    requires now[lo..w] == out && now[w..] == b[w..] && b[off..end] == u
    requires m == Overlap(|out|, off - lo, |u|)
    ensures now[off..end] == u <==> m == 0 || out[off - lo..off - lo + m] == u[..m]
  {
    var i := off - lo;
    forall p | off <= p < end
      ensures now[p] == if p - off < m then out[i + (p - off)] else u[p - off]
    {
      assert u[p - off] == b[p];
      if p < w {
        assert now[p] == now[lo..w][p - lo];
      } else {
        assert now[p] == now[w..][p - w] && b[p] == b[w..][p - w];
      }
    }
    if now[off..end] == u {
      forall k | 0 <= k < m
        ensures out[i + k] == u[k]
      {
        assert now[off + k] == now[off..end][k];
      }
    } else if m != 0 && out[i..i + m] == u[..m] {
      forall k | 0 <= k < |u|
        ensures now[off..end][k] == u[k]
      {
        assert k < m ==> out[i..i + m][k] == u[..m][k];
        assert now[off..end][k] == now[off + k];
      }
    }
  }

  /**
   * A parameter set captured from the sample is a slice of the buffer the kept units are written to. It
   * survives the rewrite if and only if these end in front of it, or happen to write the set's own bytes
   * where they reach into it.
   */
  lemma CapturedSurvivesExactly(b: seq<byte>, lo: nat, hi: nat, kind: Kinds, sets: ParamSets,
                                pre: seq<Unit>, u: Unit, post: seq<Unit>, off: nat, out: seq<byte>, m: nat)
    requires lo <= hi <= |b| && Split(b[lo..hi]).units == pre + [u] + post
    requires off == lo + |Encode(pre)| + 4
    requires out == Encode(Kept(pre + [u] + post, kind)) && m == Overlap(|out|, off - lo, |u|)
    ensures Deref(InSample(off, |u|), b) == u
    ensures Deref(InSample(off, |u|), Rewritten(State(b, lo, sets), lo, hi, kind).now) == u
            <==> m == 0 || out[off - lo..off - lo + m] == u[..m]
  {
    var end := off + |u|;
    UnitInBuffer(b, lo, hi, pre, u, post, off, end);
    RewriteMeaning(b, lo, hi, kind, sets);
    var f := Rewritten(State(b, lo, sets), lo, hi, kind);
    SliceAfterWrite(f.now, b, out, lo, f.w, off, end, u, m);
    DerefSlice(f.now, off, |u|, end);
    DerefSlice(b, off, |u|, end);
  }

  /** It survives when the units kept behind it fit into its length field and what was dropped before it. */
  lemma CapturedSurvives(b: seq<byte>, lo: nat, hi: nat, kind: Kinds, sets: ParamSets,
                         pre: seq<Unit>, u: Unit, post: seq<Unit>, off: nat)
    requires lo <= hi <= |b| && Split(b[lo..hi]).units == pre + [u] + post && Classify(kind, u) != Keep
    requires off == lo + |Encode(pre)| + 4
    requires |Encode(Kept(pre, kind))| + |Encode(Kept(post, kind))| <= |Encode(pre)| + 4
    ensures Deref(InSample(off, |u|), b) == u
    ensures Deref(InSample(off, |u|), Rewritten(State(b, lo, sets), lo, hi, kind).now) == u
  {
    var out := Encode(Kept(pre + [u] + post, kind));
    KeptAround(pre, u, post, kind);
    CapturedSurvivesExactly(b, lo, hi, kind, sets, pre, u, post, off, out, 0);
  }

  lemma DerefSlice(b: seq<byte>, off: nat, len: nat, end: nat)
    requires end == off + len <= |b|
    ensures Deref(InSample(off, len), b) == b[off..end]
  {
  }

  lemma UnitInData(data: seq<byte>, front: seq<byte>, u: Unit, behind: seq<byte>, i: nat, j: nat)
    requires data == front + Prefixed(u) + behind
    requires i == |front| + 4 && j == i + |u|
    ensures j <= |data| && data[i..j] == u
  {
    assert data == (front + PutUint32(|u|)) + (u + behind);
  }

  /** The codecs read a unit's type from its first byte: units of different kinds differ there. */
  ghost predicate ByFirstByte(kind: Kinds) {
    forall u: Unit, v: Unit :: u != [] && v != [] && Classify(kind, u) != Classify(kind, v) ==> u[0] != v[0]
  }

  /** A rewritten sample that keeps a unit starts with the first unit kept. */
  lemma FirstKept(us: seq<Unit>, kind: Kinds)
    requires Kept(us, kind) != []
    ensures var out, v := Encode(Kept(us, kind)), Kept(us, kind)[0];
            v in us && Classify(kind, v) == Keep && 4 + |v| <= |out| && out[4..4 + |v|] == v
  {
    var kept := Kept(us, kind);
    KeptAreUnits(us, kind);
    assert kept[0] in kept;
    assert Encode(kept) == [] + Prefixed(kept[0]) + Encode(kept[1..]);
    UnitInData(Encode(kept), [], kept[0], Encode(kept[1..]), 4, 4 + |kept[0]|);
  }

  lemma KeptBehindSet(u: Unit, post: seq<Unit>, kind: Kinds)
    requires Classify(kind, u) != Keep
    ensures Kept([] + [u] + post, kind) == Kept(post, kind)
  {
    assert ([] + [u] + post)[1..] == post;
  }

  /**
   * A set at the start of a sample, where sets usually are, survives if and only if no unit behind it is kept:
   * otherwise its slice reads the first bytes of the first kept unit, which differ from its own.
   */
  lemma LeadingSetIsLost(b: seq<byte>, lo: nat, hi: nat, kind: Kinds, sets: ParamSets, u: Unit, post: seq<Unit>)
    requires lo <= hi <= |b| && Split(b[lo..hi]).units == [u] + post
    requires ByFirstByte(kind) && NonEmpty([u] + post) && Classify(kind, u) != Keep
    ensures Deref(InSample(lo + 4, |u|), b) == u
    ensures Deref(InSample(lo + 4, |u|), Rewritten(State(b, lo, sets), lo, hi, kind).now) == u
            <==> Kept(post, kind) == []
  {
    var out := Encode(Kept(post, kind));
    var m := Overlap(|out|, 4, |u|);
    assert [] + [u] + post == [u] + post;
    assert u == ([u] + post)[0];
    KeptBehindSet(u, post, kind);
    CapturedSurvivesExactly(b, lo, hi, kind, sets, [], u, post, lo + 4, out, m);
    if Kept(post, kind) != [] {
      StartsDifferently(u, post, kind);
      assert out[4..4 + m][0] == out[4] && u[..m][0] == u[0];
    }
  }

  /** The first byte kept behind a set is not the set's first byte. */
  lemma StartsDifferently(u: Unit, post: seq<Unit>, kind: Kinds)
    requires ByFirstByte(kind) && NonEmpty([u] + post) && Classify(kind, u) != Keep && Kept(post, kind) != []
    ensures u != [] && 4 < |Encode(Kept(post, kind))| && Encode(Kept(post, kind))[4] != u[0]
  {
    var out, v := Encode(Kept(post, kind)), Kept(post, kind)[0];
    FirstKept(post, kind);
    var k :| 0 <= k < |post| && post[k] == v;
    assert v == ([u] + post)[k + 1] && v != [];
    assert u == ([u] + post)[0] && u != [];
    assert out[4] == out[4..4 + |v|][0];
  }

  /** The first n bytes of a unit v that starts four bytes behind lo. */
  lemma FirstBytes(now: seq<byte>, lo: nat, w: nat, v: Unit, n: nat, off: nat, end: nat)
    requires lo + 4 + |v| <= w <= |now| && now[lo..w][4..4 + |v|] == v
    requires n <= |v| && off == lo + 4 && end == off + n
    ensures now[off..end] == v[..n]
  {
    forall p | off <= p < end
      ensures now[p] == v[p - off]
    {
      assert now[lo..w][4..4 + |v|][p - off] == now[lo..w][p - lo] == now[p];
    }
  }

  /** What exactly the slice of a leading set reads when the unit behind it is kept and at least as long. */
  lemma LeadingSetReads(b: seq<byte>, lo: nat, hi: nat, kind: Kinds, sets: ParamSets,
                        u: Unit, v: Unit, post: seq<Unit>)
    requires lo <= hi <= |b| && Split(b[lo..hi]).units == [u, v] + post
    requires Classify(kind, u) != Keep && Classify(kind, v) == Keep && |u| <= |v|
    ensures Deref(InSample(lo + 4, |u|), Rewritten(State(b, lo, sets), lo, hi, kind).now) == v[..|u|]
  {
    var off, end := lo + 4, lo + 4 + |u|;
    var us := [u, v] + post;
    assert us[1..] == [v] + post && us[1..][0] == v;
    assert Kept(us, kind) == Kept(us[1..], kind) && Kept(us, kind)[0] == v;
    FirstKept(us, kind);
    RewriteMeaning(b, lo, hi, kind, sets);
    var f := Rewritten(State(b, lo, sets), lo, hi, kind);
    FirstBytes(f.now, lo, f.w, v, |u|, off, end);
    DerefSlice(f.now, off, |u|, end);
  }

  /** Captured sets are never given up. */
  lemma {:induction false} SetsOnlyGrow(s: State, r: nat, us: seq<Unit>, kind: Kinds)
    requires s.w <= r && r + |Encode(us)| <= |s.now|
    ensures var t := Final(s, r, us, kind).sets;
            s.sets.vps <= t.vps && s.sets.sps <= t.sps && s.sets.pps <= t.pps
    decreases us
  {
    if us != [] {
      SetsOnlyGrow(Turn(s, r, us[0], kind), Behind(r, us[0]), us[1..], kind);
    }
  }

  /** An SPS at the start of a sample that is not known yet is among the captured ones, as the slice it lies in. */
  lemma LeadingSetIsCaptured(b: seq<byte>, lo: nat, hi: nat, kind: Kinds, sets: ParamSets, u: Unit, post: seq<Unit>)
    requires lo <= hi <= |b| && Split(b[lo..hi]).units == [u] + post
    requires Classify(kind, u) == SPS && !Present(sets.sps, u, b)
    ensures InSample(lo + 4, |u|) in Rewritten(State(b, lo, sets), lo, hi, kind).sets.sps
  {
    var off, end := lo + 4, lo + 4 + |u|;
    assert [] + [u] + post == [u] + post;
    UnitInBuffer(b, lo, hi, [], u, post, off, end);
    DerefSlice(b, off, |u|, end);
    EncodeSplit(b[lo..hi]);
    var s, us := State(b, lo, sets), Split(b[lo..hi]).units;
    var t := Turn(s, lo, us[0], kind);
    assert t.sets.sps == sets.sps + [InSample(off, |u|)];
    SetsOnlyGrow(t, Behind(lo, us[0]), us[1..], kind);
    assert t.sets.sps[|sets.sps|] == InSample(off, |u|);
  }

  // ---- The codecs, and a sample that goes wrong ----

  /** Unit types of table 7-1 of ITU-T H.264, as initAVCData treats them. */
  function AvcKind(u: Unit): Kind {
    if u == [] then Drop
    else
      match u[0] % 32
      case 7 => SPS
      case 8 => PPS
      case 1 => Keep
      case 5 => Keep
      case 6 => Keep
      case _ => Drop
  }

  /** Unit types of table 7-1 of ITU-T H.265, as initHEVCData treats them. */
  function HevcKind(u: Unit): Kind {
    if u == [] then Drop
    else
      match u[0] / 2 % 64
      case 32 => VPS
      case 33 => SPS
      case 34 => PPS
      case _ => Keep
  }

  lemma CodecsDecideByFirstByte()
    ensures ByFirstByte(AvcKind) && ByFirstByte(HevcKind)
  {
    forall u: Unit, v: Unit | u != [] && v != [] && u[0] == v[0]
      ensures Classify(AvcKind, u) == Classify(AvcKind, v) && Classify(HevcKind, u) == Classify(HevcKind, v)
    {
    }
  }

  /** An AVC sample keeps its slices, of IDR pictures and others, and its SEI units; an HEVC sample all but its sets. */
  lemma CodecsKeep(us: seq<Unit>)
    requires NonEmpty(us)
    ensures forall u :: u in Kept(us, AvcKind) <==> u in us && u[0] % 32 in {1, 5, 6}
    ensures forall u :: u in Kept(us, HevcKind) <==> u in us && u[0] / 2 % 64 !in {32, 33, 34}
  {
    KeptAreUnits(us, AvcKind);
    KeptAreUnits(us, HevcKind);
    forall u | u in us
      ensures Classify(AvcKind, u) == Keep <==> u[0] % 32 in {1, 5, 6}
      ensures Classify(HevcKind, u) == Keep <==> u[0] / 2 % 64 !in {32, 33, 34}
    {
      var i :| 0 <= i < |us| && us[i] == u;
    }
  }

  /** Capturing the first SPS or the first PPS. */
  lemma FirstCapture(s: State, r: nat, u: Unit, kind: Kinds)
    requires s.w <= r && r + 4 + |u| <= |s.now|
    ensures Classify(kind, u) == SPS && s.sets.sps == [] ==>
              Turn(s, r, u, kind) == State(s.now, s.w, s.sets.(sps := [InSample(r + 4, |u|)]))
    ensures Classify(kind, u) == PPS && s.sets.pps == [] ==>
              Turn(s, r, u, kind) == State(s.now, s.w, s.sets.(pps := [InSample(r + 4, |u|)]))
    ensures Classify(kind, u) == Keep ==> Turn(s, r, u, kind).sets == s.sets
  {
    var ref := InSample(r + 4, |u|);
    assert [] + [ref] == [ref];
  }

  lemma FinalOfThree(s: State, r: nat, u: Unit, v: Unit, x: Unit, kind: Kinds, r1: nat, r2: nat, r3: nat)
    requires r1 == Behind(r, u) && r2 == Behind(r1, v) && r3 == Behind(r2, x)
    requires s.w <= r && r + |Encode([u, v, x])| <= |s.now|
    ensures r3 <= |s.now|
    ensures var s1 := Turn(s, r, u, kind); var s2 := Turn(s1, r1, v, kind);
            Final(s, r, [u, v, x], kind) == Turn(s2, r2, x, kind)
  {
    assert [u, v, x] == [u] + ([v] + ([x] + []));
    FinalStep(s, r, u, [v] + ([x] + []), r1, kind);
    FinalStep(Turn(s, r, u, kind), r1, v, [x] + [], r2, kind);
    FinalStep(Turn(Turn(s, r, u, kind), r1, v, kind), r2, x, [], r3, kind);
  }

  lemma RewrittenIs(b: seq<byte>, lo: nat, hi: nat, kind: Kinds, sets: ParamSets, us: seq<Unit>)
    requires lo <= hi <= |b| && Split(b[lo..hi]).units == us
    ensures lo + |Encode(us)| <= hi
    ensures Rewritten(State(b, lo, sets), lo, hi, kind) == Final(State(b, lo, sets), lo, us, kind)
  {
    EncodeSplit(b[lo..hi]);
  }

  lemma SetsAfterTurns(s: State, r: nat, u: Unit, v: Unit, x: Unit, kind: Kinds, r1: nat, r2: nat)
    requires r1 == Behind(r, u) && r2 == Behind(r1, v) && s.w <= r && r2 + 4 + |x| <= |s.now|
    requires Classify(kind, u) == SPS && Classify(kind, v) == PPS && Classify(kind, x) == Keep
    requires s.sets.sps == [] && s.sets.pps == []
    ensures Turn(Turn(Turn(s, r, u, kind), r1, v, kind), r2, x, kind).sets
            == s.sets.(sps := [InSample(r + 4, |u|)], pps := [InSample(r1 + 4, |v|)])
  {
    FirstCapture(s, r, u, kind);
    var s1 := Turn(s, r, u, kind);
    FirstCapture(s1, r1, v, kind);
    FirstCapture(Turn(s1, r1, v, kind), r2, x, kind);
  }

  /** The sets captured from a sample of an SPS, a PPS and a slice: each as the part of the buffer it lies in. */
  lemma SetsOfThree(b: seq<byte>, lo: nat, hi: nat, kind: Kinds, sps: Unit, pps: Unit, slice: Unit)
    requires lo <= hi <= |b| && Split(b[lo..hi]).units == [sps, pps, slice]
    requires Classify(kind, sps) == SPS && Classify(kind, pps) == PPS && Classify(kind, slice) == Keep
    ensures Rewritten(State(b, lo, ParamSets([], [], [])), lo, hi, kind).sets
            == ParamSets([], [InSample(lo + 4, |sps|)], [InSample(Behind(lo, sps) + 4, |pps|)])
  {
    RewrittenIs(b, lo, hi, kind, ParamSets([], [], []), [sps, pps, slice]);
    var s, r1 := State(b, lo, ParamSets([], [], [])), Behind(lo, sps);
    var r2 := Behind(r1, pps);
    FinalOfThree(s, lo, sps, pps, slice, kind, r1, r2, Behind(r2, slice));
    SetsAfterTurns(s, lo, sps, pps, slice, kind, r1, r2);
  }

  /**
   * Any sample of an SPS, a PPS and a coded slice, as the sample entry avc3 has them, passes the count check of
   * initAVCData with exactly one SPS and one PPS, but after the rewrite the captured SPS reads as something else.
   */
  lemma InBandSpsIsLost(b: seq<byte>, lo: nat, hi: nat, kind: Kinds, sps: Unit, pps: Unit, slice: Unit)
    requires lo <= hi <= |b| && Split(b[lo..hi]).units == [sps, pps, slice]
    requires sps != [] && pps != [] && slice != [] && ByFirstByte(kind)
    requires Classify(kind, sps) == SPS && Classify(kind, pps) == PPS && Classify(kind, slice) == Keep
    ensures var f := Rewritten(State(b, lo, ParamSets([], [], [])), lo, hi, kind);
            && |f.sets.sps| == 1 && |f.sets.pps| == 1
            && Deref(f.sets.sps[0], b) == sps && Deref(f.sets.sps[0], f.now) != sps
  {
    SetsOfThree(b, lo, hi, kind, sps, pps, slice);
    var post := [pps, slice];
    assert [sps] + post == [sps, pps, slice];
    assert post[1..][0] == slice && Kept(post, kind) == Kept(post[1..], kind);
    LeadingSetIsLost(b, lo, hi, kind, ParamSets([], [], []), sps, post);
  }

  const SPS_UNIT: Unit := [0x67, 0x42]
  const PPS_UNIT: Unit := [0x68, 0xCE]
  const IDR_UNIT: Unit := [0x65, 0x88, 0x84]

  lemma KindsOfUnits()
    ensures Classify(AvcKind, SPS_UNIT) == SPS && Classify(AvcKind, PPS_UNIT) == PPS
    ensures Classify(AvcKind, IDR_UNIT) == Keep
  {
  }

  /** A concrete avc3 sample of that kind. */
  lemma Avc3SpsIsLost() returns (data: seq<byte>, f: State)
    ensures data == Encode([SPS_UNIT, PPS_UNIT, IDR_UNIT])
    ensures f == Rewritten(State(data, 0, ParamSets([], [], [])), 0, |data|, AvcKind)
    ensures |f.sets.sps| == 1 && |f.sets.pps| == 1
    ensures Deref(f.sets.sps[0], data) == SPS_UNIT && Deref(f.sets.sps[0], f.now) != SPS_UNIT
  {
    data := Encode([SPS_UNIT, PPS_UNIT, IDR_UNIT]);
    f := Rewritten(State(data, 0, ParamSets([], [], [])), 0, |data|, AvcKind);
    SplitEncode([SPS_UNIT, PPS_UNIT, IDR_UNIT]);
    assert data[0..|data|] == data;
    CodecsDecideByFirstByte();
    KindsOfUnits();
    InBandSpsIsLost(data, 0, |data|, AvcKind, SPS_UNIT, PPS_UNIT, IDR_UNIT);
  }
}
