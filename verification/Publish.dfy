/** What publishing a track has to send, and when, independent of the loops that do it. */
module Publish {
  import opened Arith
  import opened Tracks
  import opened Groups
  import opened Sessions

  /** Samples a, ..., b-1 in chunks of B samples, the last one possibly shorter. */
  ghost function Batches(c: Clip, seqNr: nat, a: nat, b: nat, B: nat): seq<Chunk>
    requires c.Ready() && 0 < B
    decreases b - a
  {
    if a < b then [Chunk(seqNr, c.Render(a, Min(a + B, b)))] + Batches(c, seqNr, a + B, b, B) else []
  }

  /** The chunks of group g as objects numbered from first on. */
  ghost function Numbered(g: nat, first: nat, chunks: seq<Chunk>): (r: seq<MediaObject<Chunk>>)
    ensures |r| == |chunks|
    ensures forall i :: 0 <= i < |r| ==> r[i] == MediaObject(g, first + i, chunks[i])
  {
    seq(|chunks|, i requires 0 <= i < |chunks| => MediaObject(g, first + i, chunks[i]))
  }

  /** The objects of group g when s says where the groups start. */
  ghost function GroupObjects(c: Clip, s: nat -> nat, g: nat): seq<MediaObject<Chunk>>
    requires c.Ready() && 0 < c.sampleBatch
  {
    Numbered(g, 0, Batches(c, U32(g), s(g), s(g + 1), c.sampleBatch))
  }

  /** The clock time at which an object is due when s says where the groups start. */
  ghost function DueMS(c: Clip, s: nat -> nat, o: MediaObject<Chunk>): nat
    requires c.Ready()
  {
    ToMS(ObjTime(s(o.group) * c.sampleDur, o.id, c.sampleDur, c.sampleBatch), c.timeScale)
  }

  /** The time, in track units, at which object id of a group that starts at startTime is due. */
  function ObjTime(startTime: nat, id: nat, d: nat, B: nat): nat {
    startTime + (id + 1) * d * B
  }

  function ToMS(t: nat, timeScale: nat): nat
    requires 0 < timeScale
  {
    FloorGalois(t * 1000, timeScale, 0);
    t * 1000 / timeScale
  }

  /** It is the last whole millisecond at or before t. */
  lemma MSMeaning(t: nat, timeScale: nat)
    requires 0 < timeScale
    ensures ToMS(t, timeScale) * timeScale <= t * 1000 < (ToMS(t, timeScale) + 1) * timeScale
  {
    DivSplit(t * 1000, timeScale);
    Distribute(ToMS(t, timeScale), 1, timeScale);
  }

  /** A track's schedule: where each group starts, its objects, and the clock time at which each is due. */
  datatype Plan = Plan(starts: nat -> nat, groups: nat -> seq<MediaObject<Chunk>>, due: MediaObject<Chunk> -> int)

  /** p gives the right start, objects and due times for group g of the track in groups of D ms. */
  ghost predicate PlansGroup(p: Plan, c: Clip, D: nat, g: nat)
    requires c.Ready() && 0 < c.sampleBatch
  {
    && p.starts(g) == GroupStart(g, D, c.timeScale, c.sampleDur)
    && p.groups(g) == GroupObjects(c, p.starts, g)
    && forall i :: 0 <= i < |p.groups(g)| ==> p.due(p.groups(g)[i]) == ToMS(DueOf(p, c, g, i), c.timeScale)
  }

  /** p is the schedule of the track. */
  ghost predicate PlanOf(p: Plan, c: Clip, D: nat)
    requires c.Ready() && 0 < c.sampleBatch
  {
    forall g: nat :: PlansGroup(p, c, D, g)
  }

  /** When object i of group g is due, in track units. */
  ghost function DueOf(p: Plan, c: Clip, g: nat, i: nat): nat {
    ObjTime(p.starts(g) * c.sampleDur, i, c.sampleDur, c.sampleBatch)
  }

  /** Every loaded track has a schedule. */
  lemma PlanExists(c: Clip, D: nat) returns (p: Plan)
    requires c.Ready() && 0 < c.sampleBatch
    ensures PlanOf(p, c, D)
  {
    var s := (g: nat) => GroupStart(g, D, c.timeScale, c.sampleDur);
    p := Plan(s, (g: nat) => GroupObjects(c, s, g), (o: MediaObject<Chunk>) => DueMS(c, s, o));
    forall g: nat
      ensures PlansGroup(p, c, D, g)
    {
      assert p.groups(g) == GroupObjects(c, s, g);
    }
  }

  lemma StartsMonotone(p: Plan, c: Clip, D: nat, g: nat, h: nat)
    requires c.Ready() && 0 < c.sampleBatch && PlanOf(p, c, D)
    requires g <= h
    ensures p.starts(g) <= p.starts(h)
  {
    assert PlansGroup(p, c, D, g) && PlansGroup(p, c, D, h);
    GroupStartMono(g, h, D, c.timeScale, c.sampleDur);
  }

  // ---- Refinement: the objects carry exactly the samples ----

  /** All samples carried by a list of objects, in order. */
  ghost function Payload(objects: seq<MediaObject<Chunk>>): seq<FullSample> {
    if objects == [] then []
    else Payload(objects[..|objects| - 1]) + objects[|objects| - 1].payload.samples
  }

  lemma {:induction false} PayloadConcat(p: seq<MediaObject<Chunk>>, q: seq<MediaObject<Chunk>>)
    ensures Payload(p + q) == Payload(p) + Payload(q)
  {
    if q == [] {
      assert p + q == p;
    } else {
      assert (p + q)[..|p + q| - 1] == p + q[..|q| - 1];
      PayloadConcat(p, q[..|q| - 1]);
    }
  }

  lemma PayloadOne(o: MediaObject<Chunk>)
    ensures Payload([o]) == o.payload.samples
  {
    assert [o][..0] == [];
  }

  lemma PayloadFirst(o: MediaObject<Chunk>, tail: seq<MediaObject<Chunk>>)
    ensures Payload([o] + tail) == o.payload.samples + Payload(tail)
  {
    PayloadConcat([o], tail);
    PayloadOne(o);
  }

  /** Chunk i starts at sample first = a + i * B. */
  lemma {:induction false} BatchFrom(c: Clip, seqNr: nat, a: nat, b: nat, B: nat, i: nat, first: nat)
    requires c.Ready() && 0 < B
    requires i < |Batches(c, seqNr, a, b, B)| && first == a + i * B
    ensures first < b
    ensures Batches(c, seqNr, a, b, B)[i] == Chunk(seqNr, c.Render(first, Min(first + B, b)))
    decreases i
  {
    if i == 0 {
      assert 0 * B == 0;
    } else {
      Distribute(i - 1, 1, B);
      BatchFrom(c, seqNr, a + B, b, B, i - 1, first);
    }
  }

  lemma BatchAt(c: Clip, seqNr: nat, a: nat, b: nat, B: nat, i: nat)
    requires c.Ready() && 0 < B
    requires i < |Batches(c, seqNr, a, b, B)|
    ensures 0 <= i * B && a + i * B < b
    ensures Batches(c, seqNr, a, b, B)[i] == Chunk(seqNr, c.Render(a + i * B, Min(a + (i + 1) * B, b)))
  {
    MulMono(0, i, B);
    assert 0 * B == 0;
    Distribute(i, 1, B);
    BatchFrom(c, seqNr, a, b, B, i, a + i * B);
  }

  /** Moving one batch from the front of what is left to the end of what is done. */
  lemma BatchStep(c: Clip, seqNr: nat, done: seq<Chunk>, a: nat, b: nat, B: nat, chunk: Chunk, next: nat)
    requires c.Ready() && 0 < B && a < b
    requires chunk == Chunk(seqNr, c.Render(a, Min(a + B, b))) && next == a + B
    ensures done + Batches(c, seqNr, a, b, B) == (done + [chunk]) + Batches(c, seqNr, next, b, B)
  {
    var rest := Batches(c, seqNr, next, b, B);
    assert Batches(c, seqNr, a, b, B) == [chunk] + rest;
    MoveFirst(done, chunk, rest);
  }

  lemma MoveFirst(done: seq<Chunk>, chunk: Chunk, rest: seq<Chunk>)
    ensures done + ([chunk] + rest) == (done + [chunk]) + rest
  {
  }

  /** However the samples are batched, the chunks of a range flatten to the range. */
  lemma {:induction false} BatchesFlatten(c: Clip, g: nat, seqNr: nat, a: nat, b: nat, B: nat, first: nat)
    requires c.Ready() && 0 < B
    requires a <= b
    ensures Payload(Numbered(g, first, Batches(c, seqNr, a, b, B))) == c.Render(a, b)
    decreases b - a
  {
    if a < b {
      var m, next := Min(a + B, b), a + B;
      var tail := Numbered(g, first + 1, Batches(c, seqNr, next, b, B));
      var o := MediaObject(g, first, Chunk(seqNr, c.Render(a, m)));
      assert Numbered(g, first, Batches(c, seqNr, a, b, B)) == [o] + tail;
      PayloadFirst(o, tail);
      RenderSplit(c, a, m, b);
      if next <= b {
        BatchesFlatten(c, g, seqNr, next, b, B, first + 1);
      }
      assert Payload(tail) == c.Render(m, b);
    }
  }

  lemma GroupFlatten(p: Plan, c: Clip, D: nat, g: nat)
    requires c.Ready() && 0 < c.sampleBatch && PlanOf(p, c, D)
    ensures Payload(p.groups(g)) == c.Render(p.starts(g), p.starts(g + 1))
  {
    StartsMonotone(p, c, D, g, g + 1);
    assert PlansGroup(p, c, D, g);
    BatchesFlatten(c, g, U32(g), p.starts(g), p.starts(g + 1), c.sampleBatch, 0);
  }

  /**
   * Whole-run refinement: for every run of groups and every batch size, the objects of the run carry
   * exactly the samples from the first of group g0 up to the first of group g1, each once and in
   * order, with decode time n*d and the source sample of the looped timeline.
   */
  lemma {:induction false} RunCarriesEverySample(p: Plan, c: Clip, D: nat, g0: nat, g1: nat)
    requires c.Ready() && 0 < c.sampleBatch && PlanOf(p, c, D)
    requires g0 <= g1
    ensures Payload(Concat(p.groups, g0, g1)) == c.Render(p.starts(g0), p.starts(g1))
    decreases g1
  {
    if g0 < g1 {
      var g := g1 - 1;
      RunCarriesEverySample(p, c, D, g0, g);
      GroupFlatten(p, c, D, g);
      StartsMonotone(p, c, D, g0, g);
      StartsMonotone(p, c, D, g, g1);
      RenderSplit(c, p.starts(g0), p.starts(g), p.starts(g1));
      PayloadConcat(Concat(p.groups, g0, g), p.groups(g));
    }
  }

  /** A run cut short at any object has delivered an initial stretch of the samples, nothing else. */
  lemma CutRunCarriesPrefix(p: Plan, c: Clip, D: nat, g0: nat, g1: nat, k: nat)
    requires c.Ready() && 0 < c.sampleBatch && PlanOf(p, c, D)
    requires g0 <= g1
    requires k <= |Concat(p.groups, g0, g1)|
    ensures Payload(Concat(p.groups, g0, g1)[..k]) <= c.Render(p.starts(g0), p.starts(g1))
  {
    var r := Concat(p.groups, g0, g1);
    assert Payload(r) == Payload(r[..k]) + Payload(r[k..]) by {
      assert r[..k] + r[k..] == r;
      PayloadConcat(r[..k], r[k..]);
    }
    RunCarriesEverySample(p, c, D, g0, g1);
  }

  /** The samples carried by what has been sent since before: the first of the run, all of them if it is complete. */
  ghost predicate CarriesPrefix(sent: seq<MediaObject<Chunk>>, before: seq<MediaObject<Chunk>>, run: seq<FullSample>,
                                complete: bool)
  {
    && before <= sent
    && Payload(sent[|before|..]) <= run
    && (complete ==> Payload(sent[|before|..]) == run)
  }

  /** What a run has sent, however it ended, carries the first samples of its groups and nothing else. */
  lemma SentCarriesPrefix(sent: seq<MediaObject<Chunk>>, before: seq<MediaObject<Chunk>>, p: Plan, c: Clip, D: nat,
                          g0: nat, g1: nat, n: nat)
    requires c.Ready() && 0 < c.sampleBatch && PlanOf(p, c, D) && g0 <= g1
    requires SentPrefix(sent, before, Concat(p.groups, g0, g1), n)
    ensures CarriesPrefix(sent, before, c.Render(p.starts(g0), p.starts(g1)), n == |Concat(p.groups, g0, g1)|)
  {
    var all := Concat(p.groups, g0, g1);
    assert sent[|before|..] == all[..n];
    CutRunCarriesPrefix(p, c, D, g0, g1, n);
    if n == |all| {
      assert all[..n] == all;
      RunCarriesEverySample(p, c, D, g0, g1);
    }
  }

  // ---- Pacing ----

  lemma DueIsMultiple(a: nat, i: nat, d: nat, B: nat)
    ensures ObjTime(a * d, i, d, B) == (a + (i + 1) * B) * d
  {
    Distribute(a, (i + 1) * B, d);
  }

  /** With samples a + i*B up to end in object i, the object is due at end*d or less than B samples later. */
  lemma DueBounds(a: nat, i: nat, b: nat, d: nat, B: nat)
    requires 0 < d && 0 < B
    requires a + i * B < b
    ensures var end := Min(a + (i + 1) * B, b);
            end * d <= ObjTime(a * d, i, d, B) < end * d + B * d
    ensures (a + B) * d <= ObjTime(a * d, i, d, B)
    ensures ObjTime(a * d, i, d, B) + d <= (b + B) * d
  {
    var end := Min(a + (i + 1) * B, b);
    DueIsMultiple(a, i, d, B);
    Distribute(i, 1, B);
    MulMono(end, a + (i + 1) * B, d);
    MulMono(a + (i + 1) * B + 1, end + B, d);
    Distribute(a + (i + 1) * B, 1, d);
    Distribute(end, B, d);
    MulMono(0, i, B);
    MulMono(a + B, a + (i + 1) * B, d);
    MulMono(end + B, b + B, d);
  }

  lemma LaterInGroup(a: nat, i: nat, j: nat, d: nat, B: nat)
    requires 0 < d && 0 < B
    requires i < j
    ensures ObjTime(a * d, i, d, B) + d <= ObjTime(a * d, j, d, B)
  {
    DueIsMultiple(a, i, d, B);
    DueIsMultiple(a, j, d, B);
    MulMono(i + 2, j + 1, B);
    Distribute(i + 1, 1, B);
    MulMono(a + (i + 1) * B + 1, a + (j + 1) * B, d);
    Distribute(a + (i + 1) * B, 1, d);
  }

  /** The end of the last sample of a chunk. */
  ghost function ChunkEnd(ch: Chunk, d: nat): nat
    requires ch.samples != []
  {
    ch.samples[|ch.samples| - 1].decodeTime + d
  }

  /** Where the last sample of batch i ends. */
  lemma BatchEnd(c: Clip, seqNr: nat, a: nat, b: nat, B: nat, i: nat)
    requires c.Ready() && 0 < B
    requires i < |Batches(c, seqNr, a, b, B)|
    ensures a + i * B < b
    ensures var ch := Batches(c, seqNr, a, b, B)[i];
            ch.samples != [] && ChunkEnd(ch, c.sampleDur) == Min(a + (i + 1) * B, b) * c.sampleDur
  {
    BatchAt(c, seqNr, a, b, B, i);
    var first, end := a + i * B, Min(a + (i + 1) * B, b);
    Distribute(i, 1, B);
    RenderAt(c, first, end, end - 1 - first);
    Distribute(end - 1, 1, c.sampleDur);
  }

  /** Where the first sample of batch i starts. */
  lemma BatchBegin(c: Clip, seqNr: nat, a: nat, b: nat, B: nat, i: nat)
    requires c.Ready() && 0 < B
    requires i < |Batches(c, seqNr, a, b, B)|
    ensures var ch := Batches(c, seqNr, a, b, B)[i];
            ch.samples != [] && ch.samples[0].decodeTime == (a + i * B) * c.sampleDur
  {
    BatchAt(c, seqNr, a, b, B, i);
    Distribute(i, 1, B);
    RenderAt(c, a + i * B, Min(a + (i + 1) * B, b), 0);
  }

  /**
   * An object is due B samples after its first sample starts: no earlier than the end of its last sample and less
   * than B samples after it.
   */
  lemma DueAfterItsSamples(p: Plan, c: Clip, D: nat, g: nat, i: nat)
    requires c.Ready() && 0 < c.sampleBatch && PlanOf(p, c, D)
    requires i < |p.groups(g)|
    ensures var o := p.groups(g)[i];
            && o.group == g && o.id == i && o.payload.samples != []
            && ChunkEnd(o.payload, c.sampleDur) <= DueOf(p, c, g, i)
               < ChunkEnd(o.payload, c.sampleDur) + c.sampleBatch * c.sampleDur
            && DueOf(p, c, g, i) == o.payload.samples[0].decodeTime + c.sampleBatch * c.sampleDur
  {
    assert PlansGroup(p, c, D, g);
    BatchEnd(c, U32(g), p.starts(g), p.starts(g + 1), c.sampleBatch, i);
    DueBounds(p.starts(g), i, p.starts(g + 1), c.sampleDur, c.sampleBatch);
    BatchBegin(c, U32(g), p.starts(g), p.starts(g + 1), c.sampleBatch, i);
    DueIsMultiple(p.starts(g), i, c.sampleDur, c.sampleBatch);
    Distribute(i, 1, c.sampleBatch);
    Distribute(p.starts(g) + i * c.sampleBatch, c.sampleBatch, c.sampleDur);
  }

  /**
   * Object i of group g carries number g as its sequence number, and the i-th batch of the group's samples; only the
   * last batch may be short.
   */
  lemma ObjectCarries(p: Plan, c: Clip, D: nat, g: nat, i: nat, first: nat, end: nat)
    requires c.Ready() && 0 < c.sampleBatch && PlanOf(p, c, D)
    requires i < |p.groups(g)| && first == p.starts(g) + i * c.sampleBatch && end == p.starts(g + 1)
    ensures var o := p.groups(g)[i];
            && o.group == g && o.id == i && o.payload.seqNr == g % 0x1_0000_0000
            && first < end && o.payload.samples == c.Render(first, Min(first + c.sampleBatch, end))
  {
    assert PlansGroup(p, c, D, g);
    BatchFrom(c, U32(g), p.starts(g), end, c.sampleBatch, i, first);
  }

  /**
   * On the clock, every object of a run is due in the last whole millisecond of the batch that starts with its first
   * sample: less than a millisecond before its last sample ends at the earliest, and less than a batch after that.
   */
  lemma DueOnClock(p: Plan, c: Clip, D: nat, g0: nat, g1: nat, k: nat)
    requires c.Ready() && 0 < c.sampleBatch && PlanOf(p, c, D)
    requires k < |Concat(p.groups, g0, g1)|
    ensures var o := Concat(p.groups, g0, g1)[k]; var m := p.due(o);
            && o.payload.samples != []
            && ChunkEnd(o.payload, c.sampleDur) * 1000 - c.timeScale < m * c.timeScale
               < (ChunkEnd(o.payload, c.sampleDur) + c.sampleBatch * c.sampleDur) * 1000
            && m * c.timeScale
               <= (o.payload.samples[0].decodeTime + c.sampleBatch * c.sampleDur) * 1000 < (m + 1) * c.timeScale
  {
    var g, i := ObjectOfRun(p.groups, g0, g1, k);
    assert PlansGroup(p, c, D, g);
    DueAfterItsSamples(p, c, D, g, i);
    var t := DueOf(p, c, g, i);
    MSMeaning(t, c.timeScale);
    Distribute(ToMS(t, c.timeScale), 1, c.timeScale);
  }

  /** The end of group g's sample range plus one batch. */
  ghost function Window(p: Plan, c: Clip, g: nat): nat {
    (p.starts(g) + c.sampleBatch) * c.sampleDur
  }

  /** When an object of a run is due, in track units. */
  ghost function Due(p: Plan, c: Clip, o: MediaObject<Chunk>): nat {
    DueOf(p, c, o.group, o.id)
  }

  /** Due times grow by at least one sample from each object to every later one and stay one sample below t. */
  ghost predicate Spaced(p: Plan, c: Clip, objects: seq<MediaObject<Chunk>>, t: int) {
    && (forall i, j :: 0 <= i < j < |objects| ==> Due(p, c, objects[i]) + c.sampleDur <= Due(p, c, objects[j]))
    && (forall i :: 0 <= i < |objects| ==> Due(p, c, objects[i]) + c.sampleDur <= t)
  }

  lemma GroupSpaced(p: Plan, c: Clip, D: nat, g: nat)
    requires c.Ready() && 0 < c.sampleBatch && PlanOf(p, c, D)
    ensures Spaced(p, c, p.groups(g), Window(p, c, g + 1))
    ensures forall i :: 0 <= i < |p.groups(g)| ==> Window(p, c, g) <= Due(p, c, p.groups(g)[i])
  {
    var os := p.groups(g);
    assert PlansGroup(p, c, D, g);
    forall i | 0 <= i < |os|
      ensures Window(p, c, g) <= Due(p, c, os[i]) <= Window(p, c, g + 1) - c.sampleDur
    {
      BatchAt(c, U32(g), p.starts(g), p.starts(g + 1), c.sampleBatch, i);
      DueBounds(p.starts(g), i, p.starts(g + 1), c.sampleDur, c.sampleBatch);
    }
    forall i, j | 0 <= i < j < |os|
      ensures Due(p, c, os[i]) + c.sampleDur <= Due(p, c, os[j])
    {
      LaterInGroup(p.starts(g), i, j, c.sampleDur, c.sampleBatch);
    }
  }

  lemma SpacedConcat(p: Plan, c: Clip, xs: seq<MediaObject<Chunk>>, ys: seq<MediaObject<Chunk>>, t: int, u: int)
    requires Spaced(p, c, xs, t) && Spaced(p, c, ys, u) && t <= u
    requires forall i :: 0 <= i < |ys| ==> t <= Due(p, c, ys[i])
    ensures Spaced(p, c, xs + ys, u)
  {
  }

  lemma {:induction false} RunSpaced(p: Plan, c: Clip, D: nat, g0: nat, g1: nat)
    requires c.Ready() && 0 < c.sampleBatch && PlanOf(p, c, D)
    requires g0 <= g1
    ensures Spaced(p, c, Concat(p.groups, g0, g1), Window(p, c, g1))
    decreases g1
  {
    if g0 < g1 {
      var g := g1 - 1;
      RunSpaced(p, c, D, g0, g);
      GroupSpaced(p, c, D, g);
      StartsMonotone(p, c, D, g, g1);
      MulMono(p.starts(g) + c.sampleBatch, p.starts(g1) + c.sampleBatch, c.sampleDur);
      SpacedConcat(p, c, Concat(p.groups, g0, g), p.groups(g), Window(p, c, g), Window(p, c, g1));
    }
  }

  /**
   * Pacing over whole runs: due times are strictly increasing over all objects, also from a short last
   * batch into the next group. In whole milliseconds they never decrease, and they still strictly
   * increase when a sample lasts at least a millisecond.
   */
  lemma DueTimesIncrease(p: Plan, c: Clip, D: nat, g0: nat, g1: nat, i: nat, j: nat)
    requires c.Ready() && 0 < c.sampleBatch && PlanOf(p, c, D)
    requires g0 <= g1
    requires i < j < |Concat(p.groups, g0, g1)|
    ensures var t, u := Due(p, c, Concat(p.groups, g0, g1)[i]), Due(p, c, Concat(p.groups, g0, g1)[j]);
            t < u
    ensures var m, n := p.due(Concat(p.groups, g0, g1)[i]), p.due(Concat(p.groups, g0, g1)[j]);
            m <= n && (c.timeScale <= c.sampleDur * 1000 ==> m < n)
  {
    RunSpaced(p, c, D, g0, g1);
    DueInMS(p, c, D, g0, g1, i);
    DueInMS(p, c, D, g0, g1, j);
    MSOrder(Due(p, c, Concat(p.groups, g0, g1)[i]), Due(p, c, Concat(p.groups, g0, g1)[j]), c.sampleDur, c.timeScale);
  }

  lemma DueInMS(p: Plan, c: Clip, D: nat, g0: nat, g1: nat, k: nat)
    requires c.Ready() && 0 < c.sampleBatch && PlanOf(p, c, D)
    requires k < |Concat(p.groups, g0, g1)|
    ensures var o := Concat(p.groups, g0, g1)[k];
            p.due(o) == ToMS(Due(p, c, o), c.timeScale)
  {
    var g, i := ObjectOfRun(p.groups, g0, g1, k);
    assert PlansGroup(p, c, D, g);
    DueAfterItsSamples(p, c, D, g, i);
  }

  lemma MSOrder(t: nat, u: nat, d: nat, T: nat)
    requires 0 < T && t + d <= u
    ensures ToMS(t, T) <= ToMS(u, T)
    ensures T <= d * 1000 ==> ToMS(t, T) < ToMS(u, T)
  {
    FloorMono(t * 1000, u * 1000, T);
    if T <= d * 1000 {
      DivSplit(t * 1000, T);
      Distribute(ToMS(t, T), 1, T);
      FloorGalois(u * 1000, T, ToMS(t, T) + 1);
    }
  }
}
