/**
 * The audio post-processor that makes a clip loopable: it drops priming, odd-length and surplus fragments,
 * re-anchors the decode times of the others and regroups them by the segments they came from.
 */
module Trim {
  import opened Arith
  import opened Options
  import Gop
  import Loading
  import LoopDuration
  import Timeline
  import Tracks

  /** A fragment: the durations of its samples, if they can be read, and its base media decode time. */
  class Fragment {
    const readable: bool
    const durs: seq<nat>
    var tfdt: nat

    constructor (readable: bool, durs: seq<nat>, tfdt: nat)
      ensures this.readable == readable && this.durs == durs && this.tfdt == tfdt
    {
      this.readable, this.durs, this.tfdt := readable, durs, tfdt;
    }
  }

  /** A media segment: what precedes its fragments, and its fragments. */
  class MediaSegment {
    const header: nat
    var fragments: seq<Fragment>

    constructor (header: nat)
      ensures this.header == header && fragments == []
    {
      this.header, fragments := header, [];
    }
  }

  datatype CodecSpec = CodecSpec(sampleDur: nat, targetFrames: nat)

  /** A fragment together with the segment it came from. */
  datatype Kept = Kept(seg: MediaSegment, frag: Fragment)

  predicate Single(f: Fragment) {
    f.readable && |f.durs| == 1
  }

  predicate HasDur(f: Fragment, d: nat) {
    |f.durs| == 1 && f.durs[0] == d
  }

  ghost function Tagged(seg: MediaSegment, frags: seq<Fragment>): (r: seq<Kept>)
    ensures |r| == |frags|
    ensures forall i :: 0 <= i < |r| ==> r[i] == Kept(seg, frags[i])
  {
    seq(|frags|, i requires 0 <= i < |frags| => Kept(seg, frags[i]))
  }

  /** All fragments of the file in order. */
  ghost function Entries(segs: seq<MediaSegment>): seq<Kept>
    reads segs
  {
    if segs == [] then []
    else Entries(segs[..|segs| - 1]) + Tagged(segs[|segs| - 1], segs[|segs| - 1].fragments)
  }

  /** Those of the fragments whose sample has duration d, in order. */
  ghost function Uniform(s: seq<Kept>, d: nat): (r: seq<Kept>)
    ensures |r| <= |s|
  {
    if s == [] then []
    else
      var n := |s| - 1;
      if HasDur(s[n].frag, d) then Uniform(s[..n], d) + [s[n]] else Uniform(s[..n], d)
  }

  lemma {:induction false} UniformMembers(s: seq<Kept>, d: nat, k: Kept)
    ensures k in Uniform(s, d) <==> k in s && HasDur(k.frag, d)
  {
    if s != [] {
      UniformMembers(s[..|s| - 1], d, k);
    }
  }

  /** Whole-frame priming; a sub-frame amount counts as none. */
  function PrimingFrames(primingTS: nat, sampleDur: nat): nat {
    if 0 < sampleDur && primingTS % sampleDur == 0 then
      FloorGalois(primingTS, sampleDur, 0);
      primingTS / sampleDur
    else 0
  }

  /** Exactly k frames of priming drop k frames; any amount in between drops none. */
  lemma PrimingIsWholeFrames(primingTS: nat, sampleDur: nat, k: nat)
    requires k * sampleDur <= primingTS < (k + 1) * sampleDur
    ensures PrimingFrames(primingTS, sampleDur) == if primingTS == k * sampleDur then k else 0
  {
    Distribute(k, 1, sampleDur);
    DivUnique(primingTS, sampleDur, k);
  }

  // ---- Dropping and keeping ----

  datatype Tally = Tally(kept: seq<Kept>, droppedPri: nat, droppedTail: nat, droppedExcess: nat)

  /** What becomes of one more fragment. */
  function Sort(t: Tally, k: Kept, priming: nat, spec: CodecSpec): Tally {
    if t.droppedPri < priming then t.(droppedPri := t.droppedPri + 1)
    else if !HasDur(k.frag, spec.sampleDur) then t.(droppedTail := t.droppedTail + 1)
    else if spec.targetFrames <= |t.kept| then t.(droppedExcess := t.droppedExcess + 1)
    else t.(kept := t.kept + [k])
  }

  /**
   * What the tally of the fragments s means: behind the first priming fragments, the first targetFrames
   * uniform ones are kept, in order; everything else is counted once.
   */
  ghost predicate Tallied(t: Tally, s: seq<Kept>, priming: nat, spec: CodecSpec) {
    var u := Uniform(s[Min(priming, |s|)..], spec.sampleDur);
    && t.kept == u[..Min(spec.targetFrames, |u|)]
    && t.droppedPri == Min(priming, |s|)
    && t.droppedTail == |s| - Min(priming, |s|) - |u|
    && t.droppedExcess == |u| - |t.kept|
  }

  lemma SortStep(t: Tally, s: seq<Kept>, k: Kept, priming: nat, spec: CodecSpec)
    requires Tallied(t, s, priming, spec)
    ensures Tallied(Sort(t, k, priming, spec), s + [k], priming, spec)
  {
    if |s| < priming {
      assert s[|s|..] == [] && (s + [k])[|s| + 1..] == [];
    } else {
      SortBehindPriming(t, s, s + [k], k, priming, s[priming..], spec);
    }
  }

  /** A fragment behind the priming ones; rest are those of s behind them. */
  lemma SortBehindPriming(t: Tally, s: seq<Kept>, next: seq<Kept>, k: Kept, priming: nat, rest: seq<Kept>,
                          spec: CodecSpec)
    requires Tallied(t, s, priming, spec) && priming <= |s| && rest == s[priming..] && next == s + [k]
    ensures Tallied(Sort(t, k, priming, spec), next, priming, spec)
  {
    var u := Uniform(rest, spec.sampleDur);
    var uNext := if HasDur(k.frag, spec.sampleDur) then u + [k] else u;
    assert next[priming..] == rest + [k];
    UniformNext(rest, k, spec.sampleDur);
    TalliedBehind(t, s, priming, u, spec);
    TalliedBehind(Sort(t, k, priming, spec), next, priming, uNext, spec);
    TakeMore(u, k, spec.targetFrames);
  }

  lemma TalliedBehind(t: Tally, s: seq<Kept>, priming: nat, u: seq<Kept>, spec: CodecSpec)
    requires priming <= |s| && u == Uniform(s[priming..], spec.sampleDur)
    ensures Tallied(t, s, priming, spec)
            <==> t.kept == u[..Min(spec.targetFrames, |u|)] && t.droppedPri == priming
                 && t.droppedTail == |s| - priming - |u| && t.droppedExcess == |u| - |t.kept|
  {
  }

  lemma TakeMore(u: seq<Kept>, k: Kept, n: nat)
    ensures (u + [k])[..Min(n, |u| + 1)] == if n <= |u| then u[..Min(n, |u|)] else u[..Min(n, |u|)] + [k]
  {
  }

  lemma UniformNext(s: seq<Kept>, k: Kept, d: nat)
    ensures Uniform(s + [k], d) == if HasDur(k.frag, d) then Uniform(s, d) + [k] else Uniform(s, d)
  {
    assert (s + [k])[..|s|] == s;
  }

  /** Every fragment is counted exactly once. */
  lemma Conservation(t: Tally, s: seq<Kept>, priming: nat, spec: CodecSpec)
    requires Tallied(t, s, priming, spec)
    ensures |t.kept| + t.droppedPri + t.droppedTail + t.droppedExcess == |s|
    ensures |t.kept| == spec.targetFrames || t.droppedExcess == 0
    ensures forall k :: k in t.kept ==> k in s && HasDur(k.frag, spec.sampleDur)
  {
    forall k | k in t.kept
      ensures k in s && HasDur(k.frag, spec.sampleDur)
    {
      UniformMembers(s[Min(priming, |s|)..], spec.sampleDur, k);
    }
  }

  ghost predicate AllSingle(s: seq<Kept>) {
    forall i :: 0 <= i < |s| ==> Single(s[i].frag)
  }

  /** Sorts the fragments of one segment, behind those in done. */
  method WalkSegment(seg: MediaSegment, t: Tally, priming: nat, spec: CodecSpec, ghost done: seq<Kept>,
                     ghost next: seq<Kept>)
    returns (ok: bool, t': Tally)
    requires Tallied(t, done, priming, spec) && next == done + Tagged(seg, seg.fragments)
    ensures ok <==> AllSingle(Tagged(seg, seg.fragments))
    ensures ok ==> Tallied(t', next, priming, spec)
  {
    t' := t;
    ghost var tagged, sofar := Tagged(seg, seg.fragments), done;
    assert done + tagged[..0] == done;
    for j := 0 to |seg.fragments|
      invariant sofar == done + tagged[..j] && Tallied(t', sofar, priming, spec)
      invariant forall i :: 0 <= i < j ==> Single(tagged[i].frag)
    {
      var frag := seg.fragments[j];
      assert tagged[j] == Kept(seg, frag);
      if !frag.readable || |frag.durs| != 1 {
        return false, t';
      }
      SortStep(t', sofar, Kept(seg, frag), priming, spec);
      t' := Sort(t', Kept(seg, frag), priming, spec);
      TakeNext(done, tagged, j);
      sofar := sofar + [Kept(seg, frag)];
    }
    assert tagged[..|tagged|] == tagged;
    ok := true;
  }

  lemma TakeNext(done: seq<Kept>, s: seq<Kept>, j: nat)
    requires j < |s|
    ensures done + s[..j] + [s[j]] == done + s[..j + 1]
  {
  }

  lemma EntriesNext(segs: seq<MediaSegment>, i: nat)
    requires i < |segs|
    ensures Entries(segs[..i + 1]) == Entries(segs[..i]) + Tagged(segs[i], segs[i].fragments)
  {
    assert segs[..i + 1][..i] == segs[..i];
  }

  lemma SingleParts(done: seq<Kept>, s: seq<Kept>, all: seq<Kept>)
    requires done + s <= all
    ensures !AllSingle(s) ==> !AllSingle(all)
    ensures AllSingle(done) && AllSingle(s) ==> AllSingle(done + s)
  {
    if !AllSingle(s) {
      var i :| 0 <= i < |s| && !Single(s[i].frag);
      assert all[|done| + i] == (done + s)[|done| + i] == s[i];
    }
  }

  /** Walks all fragments; one that does not hold exactly one readable sample is an error. */
  method Walk(segments: seq<MediaSegment>, priming: nat, spec: CodecSpec) returns (ok: bool, t: Tally)
    ensures ok <==> AllSingle(Entries(segments))
    ensures ok ==> Tallied(t, Entries(segments), priming, spec)
  {
    t := Tally([], 0, 0, 0);
    ghost var done: seq<Kept> := [];
    for i := 0 to |segments|
      invariant done == Entries(segments[..i])
      invariant Tallied(t, done, priming, spec) && AllSingle(done)
    {
      ghost var tagged := Tagged(segments[i], segments[i].fragments);
      EntriesNext(segments, i);
      EntriesPrefix(segments, i + 1);
      SingleParts(done, tagged, Entries(segments));
      ghost var next := done + tagged;
      ok, t := WalkSegment(segments[i], t, priming, spec, done, next);
      if !ok {
        return;
      }
      done := next;
    }
    assert segments[..|segments|] == segments;
    ok := true;
  }

  lemma {:induction false} EntriesPrefix(segs: seq<MediaSegment>, n: nat)
    requires n <= |segs|
    ensures Entries(segs[..n]) <= Entries(segs)
    decreases |segs|
  {
    if n < |segs| {
      assert segs[..|segs| - 1][..n] == segs[..n];
      EntriesPrefix(segs[..|segs| - 1], n);
    } else {
      assert segs[..n] == segs;
    }
  }

  // ---- Re-anchoring ----

  ghost predicate DistinctFrags(kept: seq<Kept>) {
    forall i, j :: 0 <= i < j < |kept| ==> kept[i].frag != kept[j].frag
  }

  ghost function Frags(kept: seq<Kept>): set<Fragment> {
    set k | k in kept :: k.frag
  }

  /** Moves the kept fragments to decode times 0, d, 2d, .... */
  method Reanchor(kept: seq<Kept>, sampleDur: nat)
    requires DistinctFrags(kept)
    modifies Frags(kept)`tfdt
    ensures forall i :: 0 <= i < |kept| ==> kept[i].frag.tfdt == U64(i * sampleDur)
  {
    for i := 0 to |kept|
      invariant forall j :: 0 <= j < i ==> kept[j].frag.tfdt == U64(j * sampleDur)
    {
      assert kept[i] in kept;
      kept[i].frag.tfdt := U64(i * sampleDur);
    }
  }

  // ---- Regrouping ----

  /** A run of kept fragments from one original segment. */
  datatype Group = Group(orig: MediaSegment, frags: seq<Fragment>)

  /** The fragments of the groups, one group behind the other. */
  ghost function Flat(groups: seq<Group>): seq<Kept> {
    if groups == [] then []
    else Flat(groups[..|groups| - 1]) + Tagged(groups[|groups| - 1].orig, groups[|groups| - 1].frags)
  }

  /** The groups hold exactly the fragments kept, in order; none is empty and neighbours differ in origin. */
  ghost predicate Regrouped(groups: seq<Group>, kept: seq<Kept>) {
    && Flat(groups) == kept
    && (forall i :: 0 <= i < |groups| ==> groups[i].frags != [])
    && (forall i :: 0 <= i < |groups| - 1 ==> groups[i].orig != groups[i + 1].orig)
  }

  /** Adding a fragment to the last group, or starting a group when it comes from another segment. */
  ghost function AddTo(groups: seq<Group>, k: Kept): seq<Group> {
    var n := |groups| - 1;
    if groups == [] || groups[n].orig != k.seg then groups + [Group(k.seg, [k.frag])]
    else groups[..n] + [Group(k.seg, groups[n].frags + [k.frag])]
  }

  lemma AddToRegroups(groups: seq<Group>, kept: seq<Kept>, k: Kept)
    requires Regrouped(groups, kept)
    ensures Regrouped(AddTo(groups, k), kept + [k])
  {
    var n := |groups| - 1;
    if groups == [] || groups[n].orig != k.seg {
      assert (groups + [Group(k.seg, [k.frag])])[..|groups|] == groups;
    } else {
      var grown := groups[..n] + [Group(k.seg, groups[n].frags + [k.frag])];
      assert grown[..n] == groups[..n];
      assert Tagged(k.seg, groups[n].frags + [k.frag]) == Tagged(k.seg, groups[n].frags) + [k];
    }
  }

  /** The groups the kept fragments fall into. */
  ghost function Grouped(kept: seq<Kept>): seq<Group> {
    if kept == [] then [] else AddTo(Grouped(kept[..|kept| - 1]), kept[|kept| - 1])
  }

  lemma GroupedNext(kept: seq<Kept>, i: nat)
    requires i < |kept|
    ensures Grouped(kept[..i + 1]) == AddTo(Grouped(kept[..i]), kept[i])
  {
    assert kept[..i + 1][..i] == kept[..i];
  }

  lemma {:induction false} GroupedRegroups(kept: seq<Kept>)
    ensures Regrouped(Grouped(kept), kept)
  {
    if kept != [] {
      var n := |kept| - 1;
      GroupedRegroups(kept[..n]);
      AddToRegroups(Grouped(kept[..n]), kept[..n], kept[n]);
      assert kept[..n] + [kept[n]] == kept;
    }
  }

  /** The new segments carry the groups: each copies its original's header and holds the group's fragments. */
  ghost predicate Carry(segs: seq<MediaSegment>, groups: seq<Group>)
    reads segs
  {
    && |segs| == |groups|
    && (forall i :: 0 <= i < |segs| ==> segs[i].header == groups[i].orig.header && segs[i].fragments == groups[i].frags)
    && (forall i, j :: 0 <= i < j < |segs| ==> segs[i] != segs[j])
  }

  /** The source's notion of the current segment: the last one added, and the original it stands for. */
  ghost predicate Current(curr: MediaSegment?, currOrig: MediaSegment?, segs: seq<MediaSegment>, groups: seq<Group>)
    requires |segs| == |groups|
  {
    if groups == [] then currOrig == null
    else currOrig == groups[|groups| - 1].orig && curr == segs[|groups| - 1]
  }

  /** Starts a segment with the header of orig. */
  method StartSegment(segs: seq<MediaSegment>, orig: MediaSegment, ghost groups: seq<Group>)
    returns (segs': seq<MediaSegment>, curr: MediaSegment)
    requires Carry(segs, groups)
    ensures fresh(curr) && segs' == segs + [curr] && Carry(segs', groups + [Group(orig, [])])
  {
    curr := new MediaSegment(orig.header);
    segs' := segs + [curr];
  }

  /** Appends a fragment to the last segment. */
  method AppendFragment(segs: seq<MediaSegment>, curr: MediaSegment, frag: Fragment, ghost groups: seq<Group>)
    requires Carry(segs, groups) && groups != [] && curr == segs[|segs| - 1]
    modifies curr`fragments
    ensures var n := |groups| - 1; Carry(segs, groups[n := Group(groups[n].orig, groups[n].frags + [frag])])
  {
    curr.fragments := curr.fragments + [frag];
  }

  lemma AddToSteps(groups: seq<Group>, k: Kept)
    ensures groups == [] || groups[|groups| - 1].orig != k.seg ==>
              AddTo(groups, k) == (groups + [Group(k.seg, [])])[|groups| := Group(k.seg, [] + [k.frag])]
    ensures groups != [] && groups[|groups| - 1].orig == k.seg ==>
              AddTo(groups, k) == groups[|groups| - 1 := Group(k.seg, groups[|groups| - 1].frags + [k.frag])]
  {
    assert [] + [k.frag] == [k.frag];
  }

  /** Adds one kept fragment, behind a new segment header when it comes from another segment. */
  method AddKept(segs: seq<MediaSegment>, curr: MediaSegment?, currOrig: MediaSegment?, k: Kept,
                 ghost groups: seq<Group>, ghost next: seq<Group>)
    returns (segs': seq<MediaSegment>, curr': MediaSegment)
    requires Carry(segs, groups) && Current(curr, currOrig, segs, groups)
    requires next == AddTo(groups, k)
    modifies segs
    ensures Carry(segs', next) && Current(curr', k.seg, segs', next)
    ensures segs' == segs || (fresh(curr') && segs' == segs + [curr'])
  {
    AddToSteps(groups, k);
    if k.seg != currOrig {
      segs', curr' := StartSegment(segs, k.seg, groups);
      AppendFragment(segs', curr', k.frag, groups + [Group(k.seg, [])]);
    } else {
      segs', curr' := segs, curr;
      AppendFragment(segs', curr', k.frag, groups);
    }
  }

  /** Rebuilds the segments from the kept fragments. */
  method Regroup(kept: seq<Kept>) returns (newSegments: seq<MediaSegment>, ghost groups: seq<Group>)
    ensures Regrouped(groups, kept) && Carry(newSegments, groups)
    ensures fresh(newSegments)
  {
    newSegments, groups := [], [];
    var curr: MediaSegment?, currOrig: MediaSegment? := null, null;
    for i := 0 to |kept|
      invariant groups == Grouped(kept[..i])
      invariant Carry(newSegments, groups) && Current(curr, currOrig, newSegments, groups)
      invariant fresh(newSegments)
    {
      GroupedNext(kept, i);
      ghost var next := Grouped(kept[..i + 1]);
      newSegments, curr := AddKept(newSegments, curr, currOrig, kept[i], groups, next);
      currOrig := kept[i].seg;
      groups := next;
    }
    AllGrouped(groups, kept);
  }

  lemma AllGrouped(groups: seq<Group>, kept: seq<Kept>)
    requires groups == Grouped(kept[..|kept|])
    ensures Regrouped(groups, kept)
  {
    assert kept[..|kept|] == kept;
    GroupedRegroups(kept);
  }

  // ---- No original segment is split or repeated ----

  /** Entries of the same segment are not interrupted by others. */
  ghost predicate Blocked(s: seq<Kept>) {
    forall i, j, k :: 0 <= i < j < k < |s| && s[i].seg == s[k].seg ==> s[j].seg == s[k].seg
  }

  ghost predicate DistinctSegs(segs: seq<MediaSegment>) {
    forall i, j :: 0 <= i < j < |segs| ==> segs[i] != segs[j]
  }

  lemma {:induction false} EntriesOf(segs: seq<MediaSegment>, i: nat)
    requires i < |Entries(segs)|
    ensures Entries(segs)[i].seg in segs
  {
    var n := |segs| - 1;
    if i < |Entries(segs[..n])| {
      EntriesOf(segs[..n], i);
    }
  }

  lemma {:induction false} EntriesBlocked(segs: seq<MediaSegment>)
    requires DistinctSegs(segs)
    ensures Blocked(Entries(segs))
  {
    if segs != [] {
      var n := |segs| - 1;
      var front := Entries(segs[..n]);
      EntriesBlocked(segs[..n]);
      forall i | 0 <= i < |front|
        ensures front[i].seg != segs[n]
      {
        EntriesOf(segs[..n], i);
      }
    }
  }

  /** Nothing of another origin follows an entry of g. */
  ghost predicate Closes(s: seq<Kept>, g: MediaSegment) {
    forall i, j :: 0 <= i < j < |s| && s[i].seg == g ==> s[j].seg == g
  }

  lemma {:induction false} UniformCloses(s: seq<Kept>, d: nat, g: MediaSegment)
    requires Closes(s, g)
    ensures Closes(Uniform(s, d), g)
  {
    if s != [] {
      var n := |s| - 1;
      UniformCloses(s[..n], d, g);
      var u := Uniform(s[..n], d);
      forall i | 0 <= i < |u| && u[i].seg == g
        ensures s[n].seg == g
      {
        UniformMembers(s[..n], d, u[i]);
        var a :| 0 <= a < n && s[a] == u[i];
      }
    }
  }

  lemma {:induction false} UniformBlocked(s: seq<Kept>, d: nat)
    requires Blocked(s)
    ensures Blocked(Uniform(s, d))
  {
    if s != [] {
      var n := |s| - 1;
      UniformBlocked(s[..n], d);
      UniformCloses(s[..n], d, s[n].seg);
    }
  }

  lemma {:induction false} UniformDistinct(s: seq<Kept>, d: nat)
    requires DistinctFrags(s)
    ensures DistinctFrags(Uniform(s, d))
  {
    if s != [] {
      var n := |s| - 1;
      UniformDistinct(s[..n], d);
      var u := Uniform(s[..n], d);
      forall i | 0 <= i < |u|
        ensures u[i].frag != s[n].frag
      {
        UniformMembers(s[..n], d, u[i]);
        var a :| 0 <= a < n && s[a] == u[i];
      }
    }
  }

  /** The kept fragments are distinct, and those of a segment are still together. */
  lemma KeptInOrder(t: Tally, s: seq<Kept>, priming: nat, spec: CodecSpec)
    requires Tallied(t, s, priming, spec) && Blocked(s) && DistinctFrags(s)
    ensures Blocked(t.kept) && DistinctFrags(t.kept)
  {
    var rest := s[Min(priming, |s|)..];
    UniformBlocked(rest, spec.sampleDur);
    UniformDistinct(rest, spec.sampleDur);
  }

  /** Every group's origin shows among the entries; the last entry is of the last group. */
  lemma {:induction false} FlatHas(groups: seq<Group>, i: nat) returns (a: nat)
    requires i < |groups| && forall j :: 0 <= j < |groups| ==> groups[j].frags != []
    ensures a < |Flat(groups)| && Flat(groups)[a].seg == groups[i].orig
    ensures Flat(groups)[|Flat(groups)| - 1].seg == groups[|groups| - 1].orig
  {
    var n := |groups| - 1;
    if i < n {
      a := FlatHas(groups[..n], i);
    } else {
      a := |Flat(groups)| - 1;
    }
  }

  /** Regrouping makes one new segment for each original that kept a fragment: none is split or repeated. */
  lemma {:induction false} OriginsDistinct(groups: seq<Group>, kept: seq<Kept>)
    requires Regrouped(groups, kept) && Blocked(kept)
    ensures forall i, j :: 0 <= i < j < |groups| ==> groups[i].orig != groups[j].orig
  {
    if groups != [] {
      var n := |groups| - 1;
      var front := groups[..n];
      var m := |Flat(front)|;
      assert kept[..m] == Flat(front);
      forall i | 0 <= i < |front| - 1
        ensures front[i].orig != front[i + 1].orig
      {
        assert groups[i].orig != groups[i + 1].orig;
      }
      OriginsDistinct(front, kept[..m]);
      forall i | 0 <= i < n
        ensures groups[i].orig != groups[n].orig
      {
        var a := FlatHas(front, i);
        assert kept[a] == Flat(front)[a] && kept[m - 1] == Flat(front)[m - 1];
        assert kept[m].seg == groups[n].orig;
        assert groups[n - 1].orig != groups[n - 1 + 1].orig;
      }
    }
  }

  // ---- The whole tool ----

  datatype TrimResult =
    | Trimmed(segments: seq<MediaSegment>, tally: Tally)
    | BadFragment
    | TooFewFrames(got: nat)

  /** The number of fragments of the right duration behind the priming ones. */
  ghost function UniformLeft(s: seq<Kept>, primingTS: nat, spec: CodecSpec): nat {
    |Uniform(s[Min(PrimingFrames(primingTS, spec.sampleDur), |s|)..], spec.sampleDur)|
  }

  /**
   * Trims a file given by its segments, whose fragments are all. It fails, changing nothing, when some fragment
   * does not hold one readable sample or when too few uniform ones are left. Otherwise exactly targetFrames
   * fragments remain.
   */
  method TrimFile(segments: seq<MediaSegment>, spec: CodecSpec, primingTS: nat, ghost all: seq<Kept>)
    returns (r: TrimResult, ghost groups: seq<Group>)
    requires DistinctSegs(segments) && all == Entries(segments) && DistinctFrags(all)
    modifies Frags(all)`tfdt
    ensures r == BadFragment <==> !AllSingle(all)
    ensures r.TooFewFrames? ==> r.got == UniformLeft(all, primingTS, spec) < spec.targetFrames
    ensures !r.Trimmed? ==> forall f :: f in Frags(all) ==> f.tfdt == old(f.tfdt)
    ensures r.Trimmed? ==>
              && Tallied(r.tally, all, PrimingFrames(primingTS, spec.sampleDur), spec)
              && |r.tally.kept| == spec.targetFrames
              && (forall f :: f in Frags(all) - Frags(r.tally.kept) ==> f.tfdt == old(f.tfdt))
              && (forall i :: 0 <= i < spec.targetFrames ==> r.tally.kept[i].frag.tfdt == U64(i * spec.sampleDur))
              && Regrouped(groups, r.tally.kept) && Carry(r.segments, groups)
              && (forall i, j :: 0 <= i < j < |groups| ==> groups[i].orig != groups[j].orig)
  {
    groups := [];
    var primingFramesToDrop := PrimingFrames(primingTS, spec.sampleDur);
    var ok, t := Walk(segments, primingFramesToDrop, spec);
    if !ok {
      return BadFragment, groups;
    }
    if |t.kept| < spec.targetFrames {
      return TooFewFrames(|t.kept|), groups;
    }
    EntriesBlocked(segments);
    KeptInOrder(t, all, primingFramesToDrop, spec);
    Conservation(t, all, primingFramesToDrop, spec);
    Reanchor(t.kept, spec.sampleDur);
    var newSegments;
    newSegments, groups := Regroup(t.kept);
    OriginsDistinct(groups, t.kept);
    r := Trimmed(newSegments, t);
  }

  // ---- What the target counts achieve ----

  const AAC := CodecSpec(1024, 469)
  const OPUS := CodecSpec(960, 500)
  const AC3 := CodecSpec(1536, 313)

  /**
   * At 48 kHz a clip of N uniform frames passes the publisher's check against a ten-second loop exactly
   * when it has at least the target number of frames (as long as its duration in 32 bits does not wrap).
   */
  lemma TargetIsExact(spec: CodecSpec, N: nat)
    requires spec == AAC || spec == OPUS || spec == AC3
    requires N * spec.sampleDur * 1000 < TWO32
    ensures LoopDuration.Compatible(true, U32(N * spec.sampleDur), 48_000, 10_000) <==> spec.targetFrames <= N
  {
  }

  /** A trimmed clip loops every ten seconds and has a sample for every position the loop asks for. */
  lemma TrimmedClipLoops(spec: CodecSpec, n: nat)
    requires spec == AAC || spec == OPUS || spec == AC3
    ensures LoopDuration.AssignedLoop(true, spec.targetFrames * spec.sampleDur, 48_000, 10_000) == 480_000
    ensures Timeline.Orig(n, spec.sampleDur, 480_000) < spec.targetFrames
  {
    LoopDuration.LoopNeverExceedsClip(true, spec.targetFrames, spec.sampleDur, 48_000, 10_000, n);
  }

  /** The duration of a trimmed clip fits in 32 bits, passes the check and gets a ten-second loop. */
  lemma TargetPasses(spec: CodecSpec, duration: nat)
    requires spec == AAC || spec == OPUS || spec == AC3
    requires duration == U32(spec.targetFrames * spec.sampleDur)
    ensures LoopDuration.Compatible(true, duration, 48_000, 10_000)
    ensures LoopDuration.AssignedLoop(true, duration, 48_000, 10_000) == 480_000
  {
  }

  /** The samples of a file that holds the kept fragments: audio samples, all of which are sync samples. */
  ghost predicate Holds(samples: seq<Tracks.FullSample>, kept: seq<Kept>)
    reads Frags(kept)
  {
    && |samples| == |kept|
    && forall i :: 0 <= i < |samples| ==>
         kept[i] in kept && |kept[i].frag.durs| == 1 && samples[i].sync
         && samples[i].dur == kept[i].frag.durs[0] && samples[i].decodeTime == kept[i].frag.tfdt
  }

  lemma AllSyncIsRegular(samples: seq<Tracks.FullSample>)
    requires samples != [] && forall i :: 0 <= i < |samples| ==> samples[i].sync
    ensures Gop.RegularGops(samples, 1, |samples| - 1)
  {
  }

  /** The segments written hold exactly the fragments kept, one segment behind the other. */
  lemma {:induction false} WrittenFragments(segs: seq<MediaSegment>, groups: seq<Group>)
    requires Carry(segs, groups)
    ensures |Entries(segs)| == |Flat(groups)|
    ensures forall i :: 0 <= i < |Entries(segs)| ==> Entries(segs)[i].frag == Flat(groups)[i].frag
  {
    if groups != [] {
      var n := |groups| - 1;
      WrittenFragments(segs[..n], groups[..n]);
    }
  }

  /**
   * From trimming to playing: the file the tool writes is loaded by the publisher, starts at decode time 0 with
   * uniform samples, passes setLoopDuration against a ten-second loop and has a sample for every position.
   * samples are those of the fragments of the written segments, one segment behind the other.
   */
  lemma TrimmedClipPlays(spec: CodecSpec, t: Tally, all: seq<Kept>, priming: nat, segs: seq<MediaSegment>,
                         groups: seq<Group>, samples: seq<Tracks.FullSample>, r: Loading.LoadResult, sampleBatch: nat)
    requires spec == AAC || spec == OPUS || spec == AC3
    requires Tallied(t, all, priming, spec) && |t.kept| == spec.targetFrames
    requires forall i :: 0 <= i < spec.targetFrames ==> t.kept[i].frag.tfdt == U64(i * spec.sampleDur)
    requires Regrouped(groups, t.kept) && Carry(segs, groups)
    requires Holds(samples, Entries(segs))
    requires Loading.LoadedAs(r, samples, Some(0), true)
    ensures r.Loaded? && r.samples == samples && r.sampleDur == spec.sampleDur
    ensures forall i :: 0 <= i < |samples| ==> samples[i].decodeTime == i * spec.sampleDur
    ensures LoopDuration.Compatible(true, r.duration, 48_000, 10_000)
    ensures LoopDuration.AssignedLoop(true, r.duration, 48_000, 10_000) == 480_000
    ensures Tracks.Clip(samples, spec.sampleDur, 480_000, 48_000, sampleBatch).Ready()
  {
    WrittenFragments(segs, groups);
    KeptTimes(spec, t, all, priming, Entries(segs), samples);
    Loading.ConsistentMeans(samples);
    AllSyncIsRegular(samples);
    assert r.Loaded?;
    TargetPasses(spec, r.duration);
    Loading.LoadedTrackIsReady(r, true, 48_000, 10_000, sampleBatch);
  }

  /** The samples of the kept fragments have the codec's duration and start at its multiples. */
  lemma KeptTimes(spec: CodecSpec, t: Tally, all: seq<Kept>, priming: nat, written: seq<Kept>,
                  samples: seq<Tracks.FullSample>)
    requires spec == AAC || spec == OPUS || spec == AC3
    requires Tallied(t, all, priming, spec) && |t.kept| == spec.targetFrames
    requires forall i :: 0 <= i < spec.targetFrames ==> t.kept[i].frag.tfdt == U64(i * spec.sampleDur)
    requires |written| == |t.kept| && forall i :: 0 <= i < |written| ==> written[i].frag == t.kept[i].frag
    requires Holds(samples, written)
    ensures |samples| == spec.targetFrames
    ensures forall i :: 0 <= i < |samples| ==>
              samples[i].dur == spec.sampleDur && samples[i].decodeTime == i * spec.sampleDur
  {
    Conservation(t, all, priming, spec);
    assert forall i :: 0 <= i < |samples| ==> t.kept[i] in t.kept;
  }
}
