/** The loops that generate, pace and publish a CMAF or LOCMAF track. */
module PublishTracks {
  import opened Arith
  import opened Options
  import opened Tracks
  import opened Groups
  import opened Sessions
  import opened Publish

  datatype Packaging = Cmaf | Locmaf | OtherPackaging

  class MoQGroup {
    const id: nat
    const startTime: nat
    const endTime: nat
    const startNr: nat
    const endNr: nat
    var moqObjects: seq<Chunk>

    constructor (id: nat, startTime: nat, endTime: nat, startNr: nat, endNr: nat)
      ensures this.id == id && this.startTime == startTime && this.endTime == endTime
      ensures this.startNr == startNr && this.endNr == endNr
      ensures moqObjects == []
    {
      this.id, this.startTime, this.endTime := id, startTime, endTime;
      this.startNr, this.endNr := startNr, endNr;
      moqObjects := [];
    }
  }

  /** The end boundary of group g - 1, before the division by 1000, fits in 64 bits. */
  ghost predicate FitsIn64(g: nat, D: nat, timeScale: nat) {
    g < TWO64 && g * (D * timeScale) < TWO64
  }

  lemma EarlierFit(h: nat, D: nat, timeScale: nat)
    requires FitsIn64(h, D, timeScale)
    ensures forall g: nat :: g <= h ==> FitsIn64(g, D, timeScale)
  {
    forall g: nat | g <= h
      ensures FitsIn64(g, D, timeScale)
    {
      MulMono(g, h, D * timeScale);
    }
  }

  /** As long as the boundary fits, the 64-bit range and its start and end times are the planned ones. */
  lemma GroupRangeFits(track: ContentTrack, p: Plan, c: Clip, g: nat, D: nat)
    requires c == track.AsClip() && c.Ready() && 0 < c.sampleBatch && PlanOf(p, c, D)
    requires FitsIn64(g + 1, D, c.timeScale)
    ensures CalcMoQGroup(track, g, D) == (p.starts(g), p.starts(g + 1))
    ensures p.starts(g) * c.sampleDur < TWO64 && p.starts(g + 1) * c.sampleDur < TWO64
  {
    assert PlansGroup(p, c, D, g) && PlansGroup(p, c, D, g + 1);
    CalcMoQGroupMeaning(track, g, D);
    GroupEndFits(g, D, c.timeScale, c.sampleDur);
  }

  lemma GroupEndFits(g: nat, D: nat, T: nat, d: nat)
    requires 0 < d < TWO32
    requires (g + 1) * (D * T) < TWO64
    ensures GroupStart(g + 1, D, T, d) * d < 0x42_0000_0000_0000
    ensures GroupStart(g, D, T, d) * d < TWO64
  {
    CeilBounds((g + 1) * (D * T) / 1000, d);
    GroupStartMono(g, g + 1, D, T, d);
    MulMono(GroupStart(g, D, T, d), GroupStart(g + 1, D, T, d), d);
  }

  /** The due times of the objects of a group that starts at startTime; all of them fit in 64 bits. */
  ghost predicate DueTimes(objects: seq<MediaObject<Chunk>>, due: MediaObject<Chunk> -> int, startTime: nat,
                           d: nat, B: nat, timeScale: nat)
    requires 0 < timeScale
  {
    forall i :: 0 <= i < |objects| ==>
      ObjTime(startTime, i, d, B) < TWO64 && due(objects[i]) == ToMS(ObjTime(startTime, i, d, B), timeScale)
  }

  /** A batch lasts less than 2^63 track units. */
  ghost predicate BatchFits(c: Clip) {
    c.sampleBatch * c.sampleDur < 0x8000_0000_0000_0000
  }

  /** The due times of all objects of group g fit in 64 bits. */
  lemma DueTimesFit(p: Plan, c: Clip, D: nat, g: nat, i: nat)
    requires c.Ready() && 0 < c.sampleBatch && PlanOf(p, c, D)
    requires FitsIn64(g + 1, D, c.timeScale) && BatchFits(c)
    requires i < |p.groups(g)|
    ensures DueOf(p, c, g, i) < TWO64
  {
    assert PlansGroup(p, c, D, g) && PlansGroup(p, c, D, g + 1);
    var end := p.starts(g + 1);
    GroupEndFits(g, D, c.timeScale, c.sampleDur);
    BatchAt(c, U32(g), p.starts(g), end, c.sampleBatch, i);
    DueBounds(p.starts(g), i, end, c.sampleDur, c.sampleBatch);
    Distribute(end, c.sampleBatch, c.sampleDur);
  }

  /** The chunks generated for a group are its planned objects, due when the plan says. */
  lemma GeneratedAsPlanned(p: Plan, c: Clip, D: nat, g: nat, chunks: seq<Chunk>, startTime: nat)
    requires c.Ready() && 0 < c.sampleBatch && PlanOf(p, c, D)
    requires FitsIn64(g + 1, D, c.timeScale) && BatchFits(c)
    requires chunks == Batches(c, U32(g), p.starts(g), p.starts(g + 1), c.sampleBatch)
    requires startTime == p.starts(g) * c.sampleDur
    ensures p.groups(g) == Numbered(g, 0, chunks)
    ensures DueTimes(p.groups(g), p.due, startTime, c.sampleDur, c.sampleBatch, c.timeScale)
  {
    assert PlansGroup(p, c, D, g);
    forall i | 0 <= i < |p.groups(g)|
      ensures ObjTime(startTime, i, c.sampleDur, c.sampleBatch) < TWO64
    {
      DueTimesFit(p, c, D, g, i);
    }
  }

  /** The chunks generated so far and the ones still to come make up all; an unknown packaging yields none. */
  ghost predicate Generated(chunks: seq<Chunk>, packaging: Packaging, rest: seq<Chunk>, all: seq<Chunk>) {
    if packaging == OtherPackaging then chunks == [] else chunks + rest == all
  }

  /**
   * Appends the chunks of the group's samples to its objects. It fails only when a chunk cannot be encoded, and then
   * at once; with an unknown packaging nothing is encoded.
   */
  method GenChunks(session: Session<Chunk>, track: ContentTrack, mq: MoQGroup, groupNr: nat, sampleBatch: nat,
                   packaging: Packaging, ghost c: Clip)
    returns (ok: bool)
    requires c == track.AsClip() && c.Ready() && 0 < sampleBatch && session.stop == Completed
    requires mq.moqObjects == [] && mq.endNr * c.sampleDur < TWO64
    modifies mq`moqObjects, session`stop
    ensures session.stop == if ok then Completed else NotEncoded
    ensures packaging == OtherPackaging ==> ok
    ensures ok ==> mq.moqObjects == if packaging == OtherPackaging then []
                                    else Batches(c, U32(groupNr), mq.startNr, mq.endNr, sampleBatch)
  {
    ghost var all := Batches(c, U32(groupNr), mq.startNr, mq.endNr, sampleBatch);
    var i := mq.startNr;
    while i < mq.endNr
      invariant session.stop == Completed
      invariant Generated(mq.moqObjects, packaging, Batches(c, U32(groupNr), i, mq.endNr, sampleBatch), all)
      decreases mq.endNr - i
    {
      var firstSample, next := i, i + sampleBatch;
      var endSample := Min(next, mq.endNr);
      if packaging != OtherPackaging {
        MulMono(endSample, mq.endNr, track.sampleDur);
        var chunk := track.CreateFragment(U32(groupNr), firstSample, endSample);
        var encoded := session.Encode(chunk);
        if !encoded {
          return false;
        }
        BatchStep(c, U32(groupNr), mq.moqObjects, i, mq.endNr, sampleBatch, chunk, next);
        mq.moqObjects := mq.moqObjects + [chunk];
      }
      i := next;
    }
    ok := true;
  }

  /**
   * Cuts the samples of a group into objects. The batch must be positive. There is no group exactly when a chunk
   * could not be encoded; an unknown packaging yields no objects.
   */
  method GenMoQGroup(session: Session<Chunk>, track: ContentTrack, groupNr: nat, sampleBatch: nat, constantDurMS: nat,
                     packaging: Packaging, ghost c: Clip, ghost p: Plan)
    returns (r: Option<MoQGroup>)
    requires session.stop == Completed
    requires c == track.AsClip() && c.Ready() && 0 < c.sampleBatch && PlanOf(p, c, constantDurMS)
    requires 0 < sampleBatch
    requires FitsIn64(groupNr + 1, constantDurMS, c.timeScale)
    modifies session`stop
    ensures session.stop == if r.Some? then Completed else NotEncoded
    ensures packaging == OtherPackaging ==> r.Some?
    ensures r.Some? ==> fresh(r.value)
    ensures r.Some? ==> r.value.id == U32(groupNr)
    ensures r.Some? ==> r.value.startNr == p.starts(groupNr) && r.value.endNr == p.starts(groupNr + 1)
    ensures r.Some? ==> r.value.startTime == p.starts(groupNr) * c.sampleDur
                        && r.value.endTime == p.starts(groupNr + 1) * c.sampleDur
    ensures r.Some? ==> r.value.moqObjects
                        == if packaging == OtherPackaging then []
                           else Batches(c, U32(groupNr), p.starts(groupNr), p.starts(groupNr + 1), sampleBatch)
  {
    GroupRangeFits(track, p, c, groupNr, constantDurMS);
    var (startNr, endNr) := CalcMoQGroup(track, groupNr, constantDurMS);
    var startTime := U64(startNr * track.sampleDur);
    var endTime := U64(endNr * track.sampleDur);
    var mq := new MoQGroup(U32(groupNr), startTime, endTime, startNr, endNr);
    var ok := GenChunks(session, track, mq, groupNr, sampleBatch, packaging, c);
    if !ok {
      return None;
    }
    r := Some(mq);
  }

  /** The due time of an object in the 64-bit arithmetic of the source. */
  function ObjTimeAt(startTime: nat, id: nat, d: nat, B: nat): nat {
    U64(startTime + U64(U64((id + 1) * d) * B))
  }

  /** It is the planned due time exactly when that fits in 64 bits. */
  lemma ObjTimeMeaning(startTime: nat, id: nat, d: nat, B: nat)
    ensures ObjTimeAt(startTime, id, d, B) == ObjTime(startTime, id, d, B) <==> ObjTime(startTime, id, d, B) < TWO64
  {
    WrapProduct((id + 1) * d, B);
    WrapSum((id + 1) * d * B, startTime);
  }

  /**
   * Writes the objects of a group in order, each when it is due or at once when it is late. Stops at a
   * cancellation or a failing write; what has been written is then an initial part of the group.
   */
  method WriteMoQGroup(session: Session<Chunk>, track: ContentTrack, groupNr: nat, moq: MoQGroup,
                       ghost objects: seq<MediaObject<Chunk>>, ghost due: MediaObject<Chunk> -> int, ghost first: nat)
    returns (outcome: Outcome, ghost n: nat)
    requires session.Valid() && session.stop == Completed && session.open == Some(groupNr) && 0 < track.timeScale
    requires objects == Numbered(groupNr, 0, moq.moqObjects)
    requires DueTimes(objects, due, moq.startTime, track.sampleDur, track.sampleBatch, track.timeScale)
    requires OnTime(session.sent, session.times, first, due)
    modifies session
    ensures session.Valid()
    ensures SentPrefix(session.sent, old(session.sent), objects, n) && (outcome == Completed ==> n == |objects|)
    ensures Ends(outcome, session.stop) && session.open == Some(groupNr)
    ensures OnTime(session.sent, session.times, first, due)
  {
    ghost var before := session.sent;
    n := 0;
    for nr := 0 to |moq.moqObjects|
      invariant session.Valid() && session.stop == Completed && session.open == Some(groupNr) && n == nr
      invariant SentPrefix(session.sent, before, objects, n)
      invariant OnTime(session.sent, session.times, first, due)
    {
      var done := session.ContextDone();
      if done {
        return Cancelled, n;
      }
      ObjTimeMeaning(moq.startTime, nr, track.sampleDur, track.sampleBatch);
      var objTime := ObjTimeAt(moq.startTime, nr, track.sampleDur, track.sampleBatch);
      var objTimeMS := ToMS(objTime, track.timeScale);
      outcome, n := session.SendNext(MediaObject(groupNr, nr, moq.moqObjects[nr]), objTimeMS, before, objects, n,
                                     first, due);
      if outcome != Completed {
        return;
      }
    }
    outcome := Completed;
  }

  /** One turn of the publish loop: opens a subgroup, generates group groupNr, writes its objects and closes. */
  method PublishGroup(session: Session<Chunk>, ct: ContentTrack, packaging: Packaging, groupNr: nat,
                      ghost c: Clip, ghost p: Plan, ghost first: nat)
    returns (outcome: Outcome, ghost n: nat)
    requires c == ct.AsClip() && c.Ready() && 0 < c.sampleBatch && PlanOf(p, c, 1000)
    requires session.Valid() && session.stop == Completed && session.open == None && packaging != OtherPackaging
    requires FitsIn64(groupNr + 1, 1000, c.timeScale) && BatchFits(c)
    requires OnTime(session.sent, session.times, first, p.due)
    modifies session
    ensures session.Valid()
    ensures SentPrefix(session.sent, old(session.sent), p.groups(groupNr), n)
    ensures Ends(outcome, session.stop) || outcome == NotEncoded == session.stop
    ensures outcome == Completed ==> n == |p.groups(groupNr)| && session.open == None
    ensures OnTime(session.sent, session.times, first, p.due)
  {
    n := 0;
    var done := session.ContextDone();
    if done {
      return Cancelled, n;
    }
    var hasSubgroup := session.OpenSubgroup(groupNr);
    if !hasSubgroup {
      return Failed, n;
    }
    var mg := GenMoQGroup(session, ct, groupNr, ct.sampleBatch, 1000, packaging, c, p);
    if mg.None? {
      return NotEncoded, n;
    }
    GeneratedAsPlanned(p, c, 1000, groupNr, mg.value.moqObjects, mg.value.startTime);
    outcome, n := WriteMoQGroup(session, ct, groupNr, mg.value, p.groups(groupNr), p.due, first);
    if outcome == Completed {
      var closed := session.CloseSubgroup();
      if !closed {
        outcome := Failed;
      }
    }
  }

  /**
   * The publish loop from group g0 on. rounds is the number of groups until the context is cancelled;
   * any earlier cancellation or failure ends the run as well. In every case the objects written are an
   * initial part of the planned run, each written no earlier than it was due.
   */
  method PublishGroups(session: Session<Chunk>, ct: ContentTrack, packaging: Packaging, g0: nat, rounds: nat,
                       ghost c: Clip, ghost p: Plan, ghost all: seq<MediaObject<Chunk>>)
    returns (outcome: Outcome, ghost n: nat)
    requires c == ct.AsClip() && c.Ready() && 0 < c.sampleBatch && PlanOf(p, c, 1000)
    requires session.Valid() && session.stop == Completed && session.open == None && packaging != OtherPackaging
    requires FitsIn64(g0 + rounds, 1000, c.timeScale) && BatchFits(c)
    requires all == Concat(p.groups, g0, g0 + rounds)
    modifies session
    ensures session.Valid()
    ensures SentPrefix(session.sent, old(session.sent), all, n)
    ensures outcome == Completed ==> n == |all| && session.open == None
    ensures Ends(outcome, session.stop) || outcome == NotEncoded == session.stop
    ensures OnTime(session.sent, session.times, |old(session.sent)|, p.due)
  {
    var groupNr := g0;
    ghost var before := session.sent;
    EarlierFit(g0 + rounds, 1000, c.timeScale);
    n := 0;
    for round := 0 to rounds
      invariant session.Valid() && session.stop == Completed && session.open == None
      invariant groupNr == g0 + round && c == ct.AsClip()
      invariant SentGroups(session.sent, before, p.groups, g0, groupNr, n)
      invariant OnTime(session.sent, session.times, |before|, p.due)
    {
      assert FitsIn64(groupNr + 1, 1000, c.timeScale);
      ghost var sent, written: nat := session.sent, 0;
      outcome, written := PublishGroup(session, ct, packaging, groupNr, c, p, |before|);
      ExtendSent(sent, session.sent, before, p.groups, g0, groupNr, g0 + rounds, n, written);
      n := n + written;
      if outcome != Completed {
        return outcome, n;
      }
      groupNr := groupNr + 1;
    }
    GroupsArePrefix(session.sent, before, p.groups, g0, groupNr, g0 + rounds, n);
    outcome := Completed;
  }

  /** Publishes a track from the group after the current one on. */
  method PublishTrack(session: Session<Chunk>, ct: ContentTrack, packaging: Packaging, now: nat, rounds: nat,
                      ghost c: Clip, ghost p: Plan, ghost all: seq<MediaObject<Chunk>>)
    returns (outcome: Outcome, ghost n: nat)
    requires c == ct.AsClip() && c.Ready() && 0 < c.sampleBatch && PlanOf(p, c, 1000)
    requires session.Valid() && session.stop == Completed && session.open == None && packaging != OtherPackaging
    requires FitsIn64(CurrMoQGroupNr(now, 1000) + 1 + rounds, 1000, c.timeScale) && BatchFits(c)
    requires all == Concat(p.groups, CurrMoQGroupNr(now, 1000) + 1, CurrMoQGroupNr(now, 1000) + 1 + rounds)
    modifies session
    ensures session.Valid()
    ensures SentPrefix(session.sent, old(session.sent), all, n)
    ensures outcome == Completed ==> n == |all| && session.open == None
    ensures Ends(outcome, session.stop) || outcome == NotEncoded == session.stop
    ensures OnTime(session.sent, session.times, |old(session.sent)|, p.due)
    ensures var g0 := CurrMoQGroupNr(now, 1000) + 1;
            CarriesPrefix(session.sent, old(session.sent), c.Render(p.starts(g0), p.starts(g0 + rounds)),
                          outcome == Completed)
  {
    var currGroupNr := CurrMoQGroupNr(now, 1000);
    outcome, n := PublishGroups(session, ct, packaging, currGroupNr + 1, rounds, c, p, all);
    SentCarriesPrefix(session.sent, old(session.sent), p, c, 1000, currGroupNr + 1, currGroupNr + 1 + rounds, n);
  }
}
