/** Publishing a track as LOC objects: one raw sample per object with a microsecond timestamp. */
module Loc {
  import opened Arith
  import opened Bytes
  import opened Options
  import opened Tracks
  import opened Groups
  import opened Sessions
  import opened Frames
  import Gop
  import Publish
  import PublishTracks

  datatype LocFrame = LocFrame(timestampUs: nat, payload: seq<byte>)

  /** sampleTime in microseconds, split so that no intermediate product exceeds 64 bits. */
  function LocTimestamp(sampleTime: nat, timebase: nat): nat
    requires 0 < timebase
  {
    FloorGalois(sampleTime, timebase, 0);
    FloorGalois(U64(sampleTime % timebase * 1_000_000), timebase, 0);
    U64(U64(sampleTime / timebase * 1_000_000) + U64(sampleTime % timebase * 1_000_000) / timebase)
  }

  lemma SplitMicros(t: nat, T: nat)
    requires 0 < T
    ensures 0 <= t % T * 1_000_000 < T * 1_000_000
    ensures t * 1_000_000 / T == t / T * 1_000_000 + t % T * 1_000_000 / T
  {
    DivSplit(t, T);
    var r := t % T * 1_000_000;
    DivSplit(r, T);
    Distribute(t / T * 1_000_000, r / T, T);
    assert (t / T * 1_000_000) * T == (t / T * T) * 1_000_000;
    DivUnique(t * 1_000_000, T, t / T * 1_000_000 + r / T);
  }

  /**
   * The timestamp is floor(sampleTime * 1000000 / timebase) modulo 2^64 for every sample time and every
   * 32-bit time base: no intermediate step loses anything. It is the exact value whenever that fits.
   */
  lemma TimestampExact(sampleTime: nat, timebase: nat)
    requires 0 < timebase < TWO32
    ensures 0 <= sampleTime * 1_000_000 / timebase
    ensures LocTimestamp(sampleTime, timebase) == U64(sampleTime * 1_000_000 / timebase)
    ensures LocTimestamp(sampleTime, timebase) == sampleTime * 1_000_000 / timebase
            <==> sampleTime * 1_000_000 / timebase < TWO64
  {
    SplitMicros(sampleTime, timebase);
    FloorGalois(sampleTime, timebase, 0);
    FloorGalois(sampleTime % timebase * 1_000_000, timebase, 0);
    WrapSum(sampleTime / timebase * 1_000_000, sampleTime % timebase * 1_000_000 / timebase);
  }

  /** Along a track the timestamps are strictly increasing iff a sample lasts at least a microsecond. */
  lemma TimestampsIncrease(d: nat, T: nat)
    requires 0 < d && 0 < T
    ensures (forall n: nat :: n * d * 1_000_000 / T < (n + 1) * d * 1_000_000 / T) <==> T <= d * 1_000_000
  {
    if T <= d * 1_000_000 {
      forall n: nat
        ensures n * d * 1_000_000 / T < (n + 1) * d * 1_000_000 / T
      {
        var q := n * d * 1_000_000 / T;
        DivSplit(n * d * 1_000_000, T);
        Distribute(q, 1, T);
        assert (n + 1) * d * 1_000_000 == n * d * 1_000_000 + d * 1_000_000;
        FloorGalois((n + 1) * d * 1_000_000, T, q + 1);
      }
    } else {
      DivUnique(0, T, 0);
      DivUnique(d * 1_000_000, T, 0);
      assert 0 * d * 1_000_000 / T == 0;
      assert !(0 * d * 1_000_000 / T < (0 + 1) * d * 1_000_000 / T);
    }
  }

  /** The payload of a sample: a sync sample is preceded by the decoder configuration, if there is one. */
  function LocPayload(config: seq<byte>, sample: FullSample): seq<byte> {
    if config != [] && sample.sync then config + sample.data else sample.data
  }

  /** Sample n of the looped track as a LOC frame. */
  ghost function FrameOf(c: Clip, config: seq<byte>, n: nat): LocFrame
    requires c.Ready()
  {
    LocFrame(LocTimestamp(n * c.sampleDur, c.timeScale), LocPayload(config, c.Emitted(n)))
  }

  /** p is the LOC schedule of the track in one-second groups. */
  ghost predicate LocPlanOf(p: FramePlan<LocFrame>, c: Clip, config: seq<byte>)
    requires c.Ready()
  {
    p.Valid() && forall n: nat :: LocPlans(p, c, config, n)
  }

  /** p is right about group number n and about sample number n. */
  ghost predicate LocPlans(p: FramePlan<LocFrame>, c: Clip, config: seq<byte>, n: nat)
    requires c.Ready()
  {
    && p.starts(n) == GroupStart(n, 1000, c.timeScale, c.sampleDur)
    && p.frame(n) == FrameOf(c, config, n)
    && p.dueAt(n) == Publish.ToMS(n * c.sampleDur, c.timeScale)
  }

  lemma LocPlanExists(c: Clip, config: seq<byte>) returns (p: FramePlan<LocFrame>)
    requires c.Ready()
    ensures LocPlanOf(p, c, config)
  {
    var starts := (g: nat) => GroupStart(g, 1000, c.timeScale, c.sampleDur);
    forall g: nat, h: nat | g <= h
      ensures starts(g) <= starts(h)
    {
      GroupStartMono(g, h, 1000, c.timeScale, c.sampleDur);
    }
    p := PlanFrom(starts, (n: nat) => FrameOf(c, config, n), (n: nat) => Publish.ToMS(n * c.sampleDur, c.timeScale));
  }

  /** What LOC makes of a sample of the track. */
  ghost function AsFrame(config: seq<byte>, timeScale: nat, sample: FullSample): LocFrame
    requires 0 < timeScale
  {
    LocFrame(LocTimestamp(sample.decodeTime, timeScale), LocPayload(config, sample))
  }

  /** Object number i of a LOC run is sample n = starts(g0) + i in LOC form. */
  lemma LocCarriesSample(p: FramePlan<LocFrame>, c: Clip, config: seq<byte>, g0: nat, g1: nat, i: nat, n: nat)
    requires c.Ready() && LocPlanOf(p, c, config) && g0 <= g1
    requires i < |Concat(p.groups, g0, g1)| && n == p.starts(g0) + i
    ensures n < p.starts(g1)
    ensures Concat(p.groups, g0, g1)[i].payload
            == AsFrame(config, c.timeScale, c.Render(p.starts(g0), p.starts(g1))[i])
  {
    RunLength(p, g0, g1);
    RunSendsEverySample(p, g0, g1, i);
    RenderAt(c, p.starts(g0), p.starts(g1), i);
    assert LocPlans(p, c, config, n);
  }

  /**
   * Over the same one-second groups a LOC run and a CMAF run carry the same samples: LOC object number i of
   * the run is sample number i of all CMAF chunks together, in LOC form, and there are as many.
   */
  lemma LocMatchesCmaf(p: FramePlan<LocFrame>, q: Publish.Plan, c: Clip, config: seq<byte>, g0: nat, g1: nat)
    requires c.Ready() && 0 < c.sampleBatch && LocPlanOf(p, c, config) && Publish.PlanOf(q, c, 1000)
    requires g0 <= g1
    ensures var loc, cmaf := Concat(p.groups, g0, g1), Publish.Payload(Concat(q.groups, g0, g1));
            && |loc| == |cmaf|
            && forall i :: 0 <= i < |loc| ==> loc[i].payload == AsFrame(config, c.timeScale, cmaf[i])
  {
    assert LocPlans(p, c, config, g0) && LocPlans(p, c, config, g1);
    assert Publish.PlansGroup(q, c, 1000, g0) && Publish.PlansGroup(q, c, 1000, g1);
    Publish.RunCarriesEverySample(q, c, 1000, g0, g1);
    RunLength(p, g0, g1);
    forall i | 0 <= i < |Concat(p.groups, g0, g1)|
      ensures Concat(p.groups, g0, g1)[i].payload
              == AsFrame(config, c.timeScale, c.Render(p.starts(g0), p.starts(g1))[i])
    {
      LocCarriesSample(p, c, config, g0, g1, i, p.starts(g0) + i);
    }
  }

  /** On the clock, every object of a LOC run is due less than a millisecond before its sample starts, and not after. */
  lemma DueOnClock(p: FramePlan<LocFrame>, c: Clip, config: seq<byte>, g0: nat, g1: nat, i: nat, n: nat)
    requires c.Ready() && LocPlanOf(p, c, config) && g0 <= g1
    requires i < |Concat(p.groups, g0, g1)| && n == p.starts(g0) + i
    ensures var m := p.due(Concat(p.groups, g0, g1)[i]);
            n * c.sampleDur * 1000 - c.timeScale < m * c.timeScale <= n * c.sampleDur * 1000
  {
    RunSendsEverySample(p, g0, g1, i);
    assert LocPlans(p, c, config, n);
    Publish.MSMeaning(n * c.sampleDur, c.timeScale);
    Distribute(p.dueAt(n), 1, c.timeScale);
  }

  /** Sample n is the first of its one-second group. */
  ghost predicate OpensGroup(c: Clip, n: nat)
    requires c.Ready()
  {
    n == GroupStart(GroupOf(n, 1000, c.timeScale, c.sampleDur), 1000, c.timeScale, c.sampleDur)
  }

  lemma OpensGroupOfGops(c: Clip, G: nat, n: nat)
    requires c.Ready() && 0 < G && c.timeScale == G * c.sampleDur
    ensures OpensGroup(c, n) <==> n % G == 0
  {
    var g := GroupOf(n, 1000, c.timeScale, c.sampleDur);
    GroupsPartitionSamples(n, g, 1000, c.timeScale, c.sampleDur);
    Gop.SecondGroupsStartGops(g, G, c.sampleDur);
    Gop.SecondGroupsStartGops(g + 1, G, c.sampleDur);
    Distribute(g, 1, G);
    DivUnique(n, G, g);
  }

  /** A configuration is sent with a sample exactly when it opens its group. */
  ghost predicate ConfigAtGroupStart(c: Clip, config: seq<byte>, n: nat)
    requires c.Ready()
  {
    LocPayload(config, c.Emitted(n)) == (if OpensGroup(c, n) then config else []) + c.Emitted(n).data
  }

  /**
   * On a clip with GOPs of one second each, looped over its own length, the decoder configuration is sent with
   * the first object of every group and with no other object, if and only if the last GOP is as long as the others.
   */
  lemma ConfigOpensEveryGroup(c: Clip, G: nat, last: nat, config: seq<byte>)
    requires c.Ready() && Gop.RegularGops(c.samples, G, last) && c.loopDur == |c.samples| * c.sampleDur
    requires c.timeScale == G * c.sampleDur && config != []
    ensures (forall n: nat :: ConfigAtGroupStart(c, config, n)) <==> |c.samples| == last + G
  {
    forall n: nat
      ensures ConfigAtGroupStart(c, config, n) <==> (c.Emitted(n).sync <==> n % G == 0)
    {
      OpensGroupOfGops(c, G, n);
      var data := c.Emitted(n).data;
      assert [] + data == data && |config + data| != |data|;
    }
    Gop.RandomAccess(c, G, last);
    if forall n: nat :: ConfigAtGroupStart(c, config, n) {
      assert Gop.SyncEvery(c, G);
    }
  }

  /** The samples of a group whose end boundary fits in 64 bits have start times that fit, even in ms. */
  lemma SampleTimeFits(p: FramePlan<LocFrame>, c: Clip, config: seq<byte>, g: nat, n: nat)
    requires c.Ready() && LocPlanOf(p, c, config)
    requires PublishTracks.FitsIn64(g + 1, 1000, c.timeScale)
    requires n < p.starts(g + 1)
    ensures n * c.sampleDur * 1000 < TWO64
  {
    assert LocPlans(p, c, config, g + 1);
    SecondBoundary(g + 1, c.timeScale);
    CeilGalois((g + 1) * c.timeScale, c.sampleDur, n);
    ThousandTimes(g + 1, c.timeScale);
  }

  lemma ThousandTimes(g: nat, T: nat)
    ensures g * (1000 * T) == g * T * 1000
  {
  }

  lemma LocRangeFits(track: ContentTrack, p: FramePlan<LocFrame>, c: Clip, config: seq<byte>, g: nat)
    requires c == track.AsClip() && c.Ready() && LocPlanOf(p, c, config)
    requires PublishTracks.FitsIn64(g + 1, 1000, c.timeScale)
    ensures CalcMoQGroup(track, g, 1000) == (p.starts(g), p.starts(g + 1))
    ensures p.starts(g) <= p.starts(g + 1)
  {
    assert LocPlans(p, c, config, g) && LocPlans(p, c, config, g + 1);
    CalcMoQGroupMeaning(track, g, 1000);
  }

  /** Sample sampleNr as a LOC frame, and the time in ms before which it is not sent. */
  method MakeFrame(ct: ContentTrack, sampleNr: nat, videoConfig: seq<byte>, ghost c: Clip, ghost p: FramePlan<LocFrame>)
    returns (objTimeMS: nat, frame: LocFrame)
    requires c == ct.AsClip() && c.Ready() && LocPlanOf(p, c, videoConfig)
    requires sampleNr * c.sampleDur * 1000 < TWO64
    ensures frame == p.frame(sampleNr) && objTimeMS == p.dueAt(sampleNr)
  {
    assert LocPlans(p, c, videoConfig, sampleNr);
    EmittedBy(ct, sampleNr);
    var (_, origNr) := ct.CalcSample(sampleNr);
    var sample := ct.samples[origNr];
    var sampleTime := U64(sampleNr * ct.sampleDur);
    FloorGalois(sampleTime * 1000, ct.timeScale, 0);
    objTimeMS := U64(sampleTime * 1000) / ct.timeScale;
    frame := LocFrame(LocTimestamp(sampleTime, ct.timeScale), LocPayload(videoConfig, sample));
  }

  /**
   * Writes samples startNr, ..., endNr-1 of group groupNr, one object each, in order and not early.
   * Stops at a cancellation or a failing write.
   */
  method WriteLOCGroup(session: Session<LocFrame>, ct: ContentTrack, groupNr: nat, startNr: nat, endNr: nat,
                       videoConfig: seq<byte>, ghost c: Clip, ghost p: FramePlan<LocFrame>, ghost first: nat)
    returns (outcome: Outcome, ghost n: nat)
    requires c == ct.AsClip() && c.Ready() && LocPlanOf(p, c, videoConfig)
    requires session.Valid() && session.stop == Completed && session.open == Some(groupNr)
    requires startNr == p.starts(groupNr) && endNr == p.starts(groupNr + 1) && startNr <= endNr
    requires PublishTracks.FitsIn64(groupNr + 1, 1000, c.timeScale)
    requires OnTime(session.sent, session.times, first, p.due)
    modifies session
    ensures session.Valid() && session.open == Some(groupNr)
    ensures SentPrefix(session.sent, old(session.sent), p.groups(groupNr), n)
    ensures Ends(outcome, session.stop) && (outcome == Completed ==> n == |p.groups(groupNr)|)
    ensures OnTime(session.sent, session.times, first, p.due)
  {
    GroupLength(p, groupNr);
    ghost var before := session.sent;
    var objectID := 0;
    n := 0;
    for sampleNr := startNr to endNr
      invariant session.Valid() && session.stop == Completed && session.open == Some(groupNr) && c == ct.AsClip()
      invariant n == objectID == sampleNr - startNr
      invariant SentPrefix(session.sent, before, p.groups(groupNr), n)
      invariant OnTime(session.sent, session.times, first, p.due)
    {
      var done := session.ContextDone();
      if done {
        return Cancelled, n;
      }
      SampleTimeFits(p, c, videoConfig, groupNr, sampleNr);
      var objTimeMS, frame := MakeFrame(ct, sampleNr, videoConfig, c, p);
      GroupAt(p, groupNr, sampleNr);
      outcome, n := session.SendNext(MediaObject(groupNr, objectID, frame), objTimeMS, before, p.groups(groupNr), n,
                                     first, p.due);
      if outcome != Completed {
        return;
      }
      objectID := objectID + 1;
    }
    outcome := Completed;
  }

  /**
   * One turn of the publish loop: opens a subgroup, writes the samples of group groupNr and closes it, also when the
   * writing was interrupted.
   */
  method PublishLOCGroup(session: Session<LocFrame>, ct: ContentTrack, videoConfig: seq<byte>, groupNr: nat,
                         ghost c: Clip, ghost p: FramePlan<LocFrame>, ghost first: nat)
    returns (outcome: Outcome, ghost n: nat)
    requires c == ct.AsClip() && c.Ready() && LocPlanOf(p, c, videoConfig)
    requires session.Valid() && session.stop == Completed && session.open == None
    requires PublishTracks.FitsIn64(groupNr + 1, 1000, c.timeScale)
    requires OnTime(session.sent, session.times, first, p.due)
    modifies session
    ensures session.Valid() && session.open == None
    ensures SentPrefix(session.sent, old(session.sent), p.groups(groupNr), n)
    ensures Ends(outcome, session.stop) && (outcome == Completed ==> n == |p.groups(groupNr)|)
    ensures OnTime(session.sent, session.times, first, p.due)
  {
    n := 0;
    var done := session.ContextDone();
    if done {
      return Cancelled, n;
    }
    var hasSubgroup := session.OpenSubgroup(groupNr);
    if !hasSubgroup {
      return Failed, n;
    }
    LocRangeFits(ct, p, c, videoConfig, groupNr);
    var (startNr, endNr) := CalcMoQGroup(ct, groupNr, 1000);
    outcome, n := WriteLOCGroup(session, ct, groupNr, startNr, endNr, videoConfig, c, p, first);
    var closed := session.CloseSubgroup();
    if outcome == Completed && !closed {
      outcome := Failed;
    }
  }

  /**
   * The publish loop from group g0 on. rounds is the number of groups until the context is cancelled;
   * any earlier cancellation or failure ends the run as well.
   */
  method PublishLOCGroups(session: Session<LocFrame>, ct: ContentTrack, videoConfig: seq<byte>, g0: nat, rounds: nat,
                          ghost c: Clip, ghost p: FramePlan<LocFrame>, ghost all: seq<MediaObject<LocFrame>>)
    returns (outcome: Outcome, ghost n: nat)
    requires c == ct.AsClip() && c.Ready() && LocPlanOf(p, c, videoConfig)
    requires session.Valid() && session.stop == Completed && session.open == None
    requires PublishTracks.FitsIn64(g0 + rounds, 1000, c.timeScale)
    requires all == Concat(p.groups, g0, g0 + rounds)
    modifies session
    ensures session.Valid() && session.open == None
    ensures SentPrefix(session.sent, old(session.sent), all, n) && (outcome == Completed ==> n == |all|)
    ensures Ends(outcome, session.stop)
    ensures OnTime(session.sent, session.times, |old(session.sent)|, p.due)
  {
    var groupNr := g0;
    ghost var before := session.sent;
    PublishTracks.EarlierFit(g0 + rounds, 1000, c.timeScale);
    n := 0;
    for round := 0 to rounds
      invariant session.Valid() && session.stop == Completed && session.open == None
      invariant groupNr == g0 + round && c == ct.AsClip()
      invariant SentGroups(session.sent, before, p.groups, g0, groupNr, n)
      invariant OnTime(session.sent, session.times, |before|, p.due)
    {
      assert PublishTracks.FitsIn64(groupNr + 1, 1000, c.timeScale);
      ghost var sent, written: nat := session.sent, 0;
      outcome, written := PublishLOCGroup(session, ct, videoConfig, groupNr, c, p, |before|);
      ExtendSent(sent, session.sent, before, p.groups, g0, groupNr, g0 + rounds, n, written);
      n := n + written;
      if outcome != Completed {
        return outcome, n;
      }
      groupNr := groupNr + 1;
    }
    GroupsArePrefix(session.sent, before, p.groups, g0, groupNr, g0 + rounds, n);
    outcome := Completed;
  }

  /** Publishes a track as LOC from the group after the current one on; a track without valid timing is refused. */
  method PublishLOCTrack(session: Session<LocFrame>, ct: ContentTrack, videoConfig: seq<byte>, now: nat, rounds: nat,
                         ghost c: Clip, ghost p: FramePlan<LocFrame>, ghost all: seq<MediaObject<LocFrame>>)
    returns (outcome: Outcome, ghost n: nat)
    requires c == ct.AsClip() && session.Valid() && session.stop == Completed && session.open == None
    requires 0 < c.timeScale && 0 < c.sampleDur ==>
               && c.Ready() && LocPlanOf(p, c, videoConfig)
               && PublishTracks.FitsIn64(CurrMoQGroupNr(now, 1000) + 1 + rounds, 1000, c.timeScale)
               && all == Concat(p.groups, CurrMoQGroupNr(now, 1000) + 1, CurrMoQGroupNr(now, 1000) + 1 + rounds)
    modifies session
    ensures session.Valid() && session.open == None
    ensures outcome == Refused <==> c.timeScale == 0 || c.sampleDur == 0
    ensures outcome == Refused ==> session.sent == old(session.sent)
    ensures outcome == Refused || Ends(outcome, session.stop)
    ensures 0 < c.timeScale && 0 < c.sampleDur ==>
              && SentPrefix(session.sent, old(session.sent), all, n) && (outcome == Completed ==> n == |all|)
              && OnTime(session.sent, session.times, |old(session.sent)|, p.due)
  {
    if ct.timeScale == 0 || ct.sampleDur == 0 {
      return Refused, 0;
    }
    var currGroupNr := CurrMoQGroupNr(now, 1000);
    outcome, n := PublishLOCGroups(session, ct, videoConfig, currGroupNr + 1, rounds, c, p, all);
  }
}
