/** Publishing a track in the moq-mi format, and the subscriber's sequence counter. */
module MoqMi {
  import opened Arith
  import opened Bytes
  import opened Options
  import opened Tracks
  import opened Sessions
  import opened Frames
  import Publish
  import Gop

  /** A moq-mi object without its wall-clock stamp; extradata says whether it carries the decoder configuration. */
  datatype MiFrame = MiFrame(seqID: nat, pts: nat, timebase: nat, duration: nat, extradata: bool, payload: seq<byte>)

  /** Sample n of the track in groups of G samples; audio is the case without extradata. */
  ghost function FrameOf(c: Clip, video: bool, G: nat, n: nat): MiFrame
    requires c.Ready() && 0 < G
  {
    MiFrame(n, n * c.sampleDur, c.timeScale, c.sampleDur, video && n % G == 0, c.Emitted(n).data)
  }

  /** p is right about group number n and about sample number n. */
  ghost predicate MiPlans(p: FramePlan<MiFrame>, c: Clip, video: bool, G: nat, n: nat)
    requires c.Ready() && 0 < G
  {
    && p.starts(n) == n * G
    && p.frame(n) == FrameOf(c, video, G, n)
    && p.dueAt(n) == Publish.ToMS(n * c.sampleDur, c.timeScale)
  }

  /** p is the moq-mi schedule of the track: G samples per group. */
  ghost predicate MiPlanOf(p: FramePlan<MiFrame>, c: Clip, video: bool, G: nat)
    requires c.Ready() && 0 < G
  {
    p.Valid() && forall n: nat :: MiPlans(p, c, video, G, n)
  }

  lemma MiPlanExists(c: Clip, video: bool, G: nat) returns (p: FramePlan<MiFrame>)
    requires c.Ready() && 0 < G
    ensures MiPlanOf(p, c, video, G)
  {
    var starts := (g: nat) => g * G;
    forall g: nat, h: nat | g <= h
      ensures starts(g) <= starts(h)
    {
      MulMono(g, h, G);
    }
    p := PlanFrom(starts, (n: nat) => FrameOf(c, video, G, n), (n: nat) => Publish.ToMS(n * c.sampleDur, c.timeScale));
  }

  lemma MiGroupRange(p: FramePlan<MiFrame>, c: Clip, video: bool, G: nat, g: nat)
    requires c.Ready() && 0 < G && MiPlanOf(p, c, video, G)
    ensures p.starts(g) == g * G && p.starts(g + 1) == g * G + G
  {
    assert MiPlans(p, c, video, G, g) && MiPlans(p, c, video, G, g + 1);
    Distribute(g, 1, G);
  }

  /**
   * In every run, the object at position i carries sequence number starts(g0) + i, the number of its sample. Its time
   * stamp is that sample's start and its duration one sample, both in units of 1/timebase seconds, and it is due less
   * than a millisecond before that start, and not after.
   */
  lemma SequenceNumbers(p: FramePlan<MiFrame>, c: Clip, video: bool, G: nat, g0: nat, g1: nat, i: nat)
    requires c.Ready() && 0 < G && MiPlanOf(p, c, video, G)
    requires g0 <= g1 && i < |Concat(p.groups, g0, g1)|
    ensures |Concat(p.groups, g0, g1)| == (g1 - g0) * G
    ensures var o := Concat(p.groups, g0, g1)[i];
            && o.payload.seqID == g0 * G + i == o.group * G + o.id
            && o.payload.payload == c.Emitted(g0 * G + i).data
            && (o.payload.extradata <==> video && o.payload.seqID % G == 0)
    ensures var o := Concat(p.groups, g0, g1)[i]; var m := p.due(o);
            && o.payload.pts == c.Emitted(g0 * G + i).decodeTime && o.payload.timebase == c.timeScale
            && o.payload.duration == c.sampleDur
            && o.payload.pts * 1000 - o.payload.timebase < m * o.payload.timebase <= o.payload.pts * 1000
  {
    RunSendsEverySample(p, g0, g1, i);
    var o := Concat(p.groups, g0, g1)[i];
    assert MiPlans(p, c, video, G, g0) && MiPlans(p, c, video, G, g1) && MiPlans(p, c, video, G, o.group);
    assert MiPlans(p, c, video, G, g0 * G + i);
    Publish.MSMeaning(o.payload.pts, c.timeScale);
    Distribute(p.due(o), 1, c.timeScale);
    Distribute(g1 - g0, g0, G);
  }

  /**
   * The configuration accompanies exactly the sync samples of a clip the GOP scan accepts, for every sample
   * number, if and only if the clip's last GOP is as long as the others.
   */
  lemma ExtradataOnSyncSamples(c: Clip, G: nat, last: nat)
    requires c.Ready() && Gop.RegularGops(c.samples, G, last)
    requires c.loopDur == |c.samples| * c.sampleDur
    ensures (forall n: nat :: FrameOf(c, true, G, n).extradata <==> c.Emitted(n).sync) <==> |c.samples| == last + G
  {
    Gop.RandomAccess(c, G, last);
    forall n: nat
      ensures FrameOf(c, true, G, n).extradata <==> n % G == 0
    {
    }
    if forall n: nat :: FrameOf(c, true, G, n).extradata <==> c.Emitted(n).sync {
      assert Gop.SyncEvery(c, G);
    }
  }

  // ---- Where a run starts ----

  /** A GOP in whole ms, rounded down; 1000 if that is 0. */
  function GopDurMS(G: nat, d: nat, T: nat): nat
    requires 0 < T
  {
    FloorGalois(G * d * 1000, T, 0);
    if G * d * 1000 / T == 0 then 1000 else G * d * 1000 / T
  }

  function StartGop(now: nat, G: nat, d: nat, T: nat): nat
    requires 0 < T
  {
    FloorGalois(now, GopDurMS(G, d, T), 0);
    now / GopDurMS(G, d, T) + 1
  }

  /**
   * With m the length of a GOP in whole milliseconds, or 1000 for a shorter one, the first video group has the number
   * of the next multiple of m.
   */
  lemma StartGopMeaning(now: nat, G: nat, d: nat, T: nat, m: nat)
    requires 0 < T && if G * d * 1000 < T then m == 1000 else m * T <= G * d * 1000 < (m + 1) * T
    ensures (StartGop(now, G, d, T) - 1) * m <= now < StartGop(now, G, d, T) * m
  {
    var W := G * d * 1000;
    Distribute(m, 1, T);
    DivUnique(W, T, if W < T then 0 else m);
    FloorGalois(W, T, 1);
    DivSplit(now, m);
    Distribute(now / m, 1, m);
  }

  /** The group that starts at g GOPs starts after now and at most one GOP later (in 1/T ms). */
  ghost predicate JustAfter(now: nat, g: nat, W: nat, T: nat) {
    now * T < g * W <= now * T + W
  }

  lemma StartsJustAfter(now: nat, gm: nat, T: nat)
    requires 0 < gm && 0 < T
    ensures JustAfter(now, now / gm + 1, gm * T, T)
  {
    DivSplit(now, gm);
    FloorGalois(now, gm, 0);
    var q := now / gm;
    Distribute(q, 1, gm);
    MulMono(now + 1, (q + 1) * gm, T);
    MulMono((q + 1) * gm, now + gm, T);
    Distribute(now, 1, T);
    Distribute(now, gm, T);
    assert (q + 1) * (gm * T) == ((q + 1) * gm) * T;
  }

  /**
   * The first video group starts after now and at most one GOP later, for every now, if and only if a
   * GOP is a whole number of milliseconds.
   */
  lemma VideoStart(G: nat, d: nat, T: nat)
    requires 0 < G && 0 < d && 0 < T
    ensures (forall now: nat :: JustAfter(now, StartGop(now, G, d, T), G * d * 1000, T)) <==> G * d * 1000 % T == 0
  {
    var W := G * d * 1000;
    MulPos(G, d);
    var gm := W / T;
    DivSplit(W, T);
    if W < T {
      DivUnique(W, T, 0);
      DivUnique(1000, 1000, 1);
      assert StartGop(1000, G, d, T) == 2;
      assert !JustAfter(1000, 2, W, T);
    } else {
      FloorGalois(W, T, 1);
      if W % T == 0 {
        forall now: nat
          ensures JustAfter(now, StartGop(now, G, d, T), W, T)
        {
          StartsJustAfter(now, gm, T);
        }
      } else {
        DivUnique(gm, gm, 1);
        assert StartGop(gm, G, d, T) == 2;
        assert !JustAfter(gm, 2, W, T);
      }
    }
  }

  /** The first audio frame at or after now, with now rounded down to a whole track unit. */
  function StartFrame(now: nat, d: nat, T: nat): nat
    requires 0 < d
  {
    CeilDiv(now * T / 1000, d)
  }

  /**
   * It starts less than one track unit before now and less than one frame after it. It starts at or after now
   * if and only if now is a whole number of track units or, rounded down to one, is not itself a frame boundary.
   */
  lemma AudioStart(now: nat, d: nat, T: nat)
    requires 0 < d
    ensures now * T - 1000 < StartFrame(now, d, T) * d * 1000 < now * T + d * 1000
    ensures now * T <= StartFrame(now, d, T) * d * 1000 <==> now * T % 1000 == 0 || now * T / 1000 % d != 0
  {
    var units := now * T / 1000;
    CeilBounds(units, d);
    DivSplit(now * T, 1000);
    DivSplit(units, d);
    if units % d != 0 && StartFrame(now, d, T) * d <= units {
      CeilUnique(units, d, StartFrame(now, d, T));
      FloorGalois(units, d, StartFrame(now, d, T));
    }
  }

  /** The same frame in the 64-bit arithmetic of the source. */
  function StartFrameAt(now: nat, d: nat, T: nat): nat
    requires 0 < d
  {
    CeilDiv(U64(now * T) / 1000, d)
  }

  lemma StartFrameFits(now: nat, d: nat, T: nat)
    requires 0 < d && now * T < TWO64
    ensures StartFrameAt(now, d, T) == StartFrame(now, d, T)
  {
  }

  /** AAC frames at 44.1 kHz: at 209 ms the first frame is number 9, which started 0.9 track units before. */
  lemma AudioStartsBeforeNow()
    ensures StartFrame(209, 1024, 44_100) == 9 && 9 * 1024 * 1000 < 209 * 44_100
  {
  }

  // ---- The publish loops ----

  /** The frame for a sample and the time in ms before which it is not sent. */
  method MakeFrame(ct: ContentTrack, sampleNr: nat, seqID: nat, extradata: bool, ghost c: Clip, ghost video: bool,
                   ghost G: nat, ghost p: FramePlan<MiFrame>)
    returns (ptsMS: nat, frame: MiFrame)
    requires c == ct.AsClip() && c.Ready() && 0 < G && MiPlanOf(p, c, video, G)
    requires sampleNr * c.sampleDur * 1000 < TWO64
    requires seqID == sampleNr && (extradata <==> video && sampleNr % G == 0)
    ensures frame == p.frame(sampleNr) && ptsMS == p.dueAt(sampleNr)
  {
    assert MiPlans(p, c, video, G, sampleNr);
    EmittedBy(ct, sampleNr);
    var (_, origNr) := ct.CalcSample(sampleNr);
    var sample := ct.samples[origNr];
    var pts := U64(sampleNr * ct.sampleDur);
    FloorGalois(pts * 1000, ct.timeScale, 0);
    ptsMS := U64(pts * 1000) / ct.timeScale;
    frame := MiFrame(seqID, pts, ct.timeScale, ct.sampleDur, extradata, sample.data);
  }

  /** All sample times of groups before g fit in 64 bits, even in ms. */
  ghost predicate TimesFit(c: Clip, G: nat, g: nat) {
    forall n: nat :: n < g * G ==> n * c.sampleDur * 1000 < TWO64
  }

  lemma EarlierTimesFit(c: Clip, G: nat, g: nat, h: nat)
    requires g <= h && TimesFit(c, G, h)
    ensures TimesFit(c, G, g)
  {
    MulMono(g, h, G);
  }

  /** Sequence number and object number of the sample in group g, and whether it opens its GOP. */
  lemma PlaceInGop(g: nat, G: nat, n: nat)
    requires 0 < G && g * G <= n < g * G + G
    ensures n % G == n - g * G
  {
    DivUnique(n, G, g);
  }

  /** Writes one GOP: object objectID carries sample groupNr*gopLen + objectID, the first with extradata. */
  method WriteVideoGroup(session: Session<MiFrame>, ct: ContentTrack, gopLen: nat, groupNr: nat, seqID0: nat,
                         ghost c: Clip, ghost p: FramePlan<MiFrame>, ghost first: nat)
    returns (outcome: Outcome, seqID: nat, ghost n: nat)
    requires c == ct.AsClip() && c.Ready() && 0 < gopLen && MiPlanOf(p, c, true, gopLen)
    requires session.open == Some(groupNr)
    requires session.Valid() && session.stop == Completed && OnTime(session.sent, session.times, first, p.due)
    requires TimesFit(c, gopLen, groupNr + 1) && seqID0 == groupNr * gopLen
    modifies session
    ensures session.open == Some(groupNr)
    ensures session.Valid() && OnTime(session.sent, session.times, first, p.due)
    ensures SentPrefix(session.sent, old(session.sent), p.groups(groupNr), n)
    ensures Ends(outcome, session.stop)
    ensures outcome == Completed ==> n == |p.groups(groupNr)| && seqID == seqID0 + gopLen
  {
    MiGroupRange(p, c, true, gopLen, groupNr);
    GroupLength(p, groupNr);
    Distribute(groupNr, 1, gopLen);
    var startSample := groupNr * gopLen;
    var endSample := startSample + gopLen;
    var objectID, sampleNr := 0, startSample;
    ghost var before := session.sent;
    seqID, n := seqID0, 0;
    while sampleNr < endSample
      invariant startSample <= sampleNr <= endSample
      invariant session.Valid() && session.stop == Completed && session.open == Some(groupNr) && c == ct.AsClip()
      invariant n == objectID == sampleNr - startSample && seqID == sampleNr
      invariant SentPrefix(session.sent, before, p.groups(groupNr), n)
      invariant OnTime(session.sent, session.times, first, p.due)
    {
      var done := session.ContextDone();
      if done {
        return Cancelled, seqID, n;
      }
      PlaceInGop(groupNr, gopLen, sampleNr);
      var ptsMS, frame := MakeFrame(ct, sampleNr, seqID, objectID == 0, c, true, gopLen, p);
      GroupAt(p, groupNr, sampleNr);
      outcome, n := session.SendNext(MediaObject(groupNr, objectID, frame), ptsMS, before, p.groups(groupNr), n,
                                     first, p.due);
      if outcome != Completed {
        return;
      }
      seqID := seqID + 1;
      objectID, sampleNr := objectID + 1, sampleNr + 1;
    }
    outcome := Completed;
  }

  /** One turn of the video loop: opens a subgroup, writes GOP groupNr and closes it. */
  method PublishVideoGroup(session: Session<MiFrame>, ct: ContentTrack, gopLen: nat, groupNr: nat, seqID0: nat,
                           ghost c: Clip, ghost p: FramePlan<MiFrame>, ghost first: nat)
    returns (outcome: Outcome, seqID: nat, ghost n: nat)
    requires c == ct.AsClip() && c.Ready() && 0 < gopLen && MiPlanOf(p, c, true, gopLen)
    requires session.open == None
    requires session.Valid() && session.stop == Completed && OnTime(session.sent, session.times, first, p.due)
    requires TimesFit(c, gopLen, groupNr + 1) && seqID0 == groupNr * gopLen
    modifies session
    ensures session.Valid() && OnTime(session.sent, session.times, first, p.due)
    ensures SentPrefix(session.sent, old(session.sent), p.groups(groupNr), n)
    ensures Ends(outcome, session.stop)
    ensures outcome == Completed ==> n == |p.groups(groupNr)| && seqID == seqID0 + gopLen && session.open == None
  {
    seqID, n := seqID0, 0;
    var done := session.ContextDone();
    if done {
      return Cancelled, seqID, n;
    }
    var hasSubgroup := session.OpenSubgroup(groupNr);
    if !hasSubgroup {
      return Failed, seqID, n;
    }
    outcome, seqID, n := WriteVideoGroup(session, ct, gopLen, groupNr, seqID, c, p, first);
    if outcome == Completed {
      var closed := session.CloseSubgroup();
      if !closed {
        outcome := Failed;
      }
    }
  }

  /** The video publish loop from GOP g0 on; rounds is the number of GOPs until the context is cancelled. */
  method PublishVideoGroups(session: Session<MiFrame>, ct: ContentTrack, gopLen: nat, g0: nat, rounds: nat,
                            ghost c: Clip, ghost p: FramePlan<MiFrame>, ghost all: seq<MediaObject<MiFrame>>)
    returns (outcome: Outcome, ghost n: nat)
    requires c == ct.AsClip() && c.Ready() && 0 < gopLen && MiPlanOf(p, c, true, gopLen)
    requires session.Valid() && session.stop == Completed && session.open == None
    requires TimesFit(c, gopLen, g0 + rounds)
    requires all == Concat(p.groups, g0, g0 + rounds)
    modifies session
    ensures session.Valid()
    ensures SentPrefix(session.sent, old(session.sent), all, n)
    ensures outcome == Completed ==> n == |all| && session.open == None
    ensures Ends(outcome, session.stop)
    ensures OnTime(session.sent, session.times, |old(session.sent)|, p.due)
  {
    var groupNr, seqID := g0, g0 * gopLen;
    ghost var before := session.sent;
    n := 0;
    for round := 0 to rounds
      invariant session.Valid() && session.stop == Completed && session.open == None && c == ct.AsClip()
      invariant groupNr == g0 + round && seqID == groupNr * gopLen
      invariant SentGroups(session.sent, before, p.groups, g0, groupNr, n)
      invariant OnTime(session.sent, session.times, |before|, p.due)
    {
      EarlierTimesFit(c, gopLen, groupNr + 1, g0 + rounds);
      Distribute(groupNr, 1, gopLen);
      ghost var sent, written: nat := session.sent, 0;
      outcome, seqID, written := PublishVideoGroup(session, ct, gopLen, groupNr, seqID, c, p, |before|);
      ExtendSent(sent, session.sent, before, p.groups, g0, groupNr, g0 + rounds, n, written);
      n := n + written;
      if outcome != Completed {
        return outcome, n;
      }
      groupNr := groupNr + 1;
    }
    GroupsArePrefix(session.sent, before, p.groups, g0, groupNr, g0 + rounds, n);
    outcome := Completed;
  }

  /**
   * Publishes video from the next GOP boundary on. A track whose decoder configuration record cannot be built or
   * whose GOP length is not known is refused.
   */
  method PublishMoqMIVideo(session: Session<MiFrame>, ct: ContentTrack, hasRecord: bool, now: nat, rounds: nat,
                           ghost c: Clip, ghost p: FramePlan<MiFrame>, ghost all: seq<MediaObject<MiFrame>>)
    returns (outcome: Outcome, ghost n: nat)
    requires c == ct.AsClip() && c.Ready() && session.Valid() && session.stop == Completed && session.open == None
    requires ct.gopLength * c.sampleDur * 1000 < TWO64
    requires 0 < ct.gopLength ==>
               var g0 := StartGop(now, ct.gopLength, c.sampleDur, c.timeScale);
               && MiPlanOf(p, c, true, ct.gopLength)
               && TimesFit(c, ct.gopLength, g0 + rounds)
               && all == Concat(p.groups, g0, g0 + rounds)
    modifies session
    ensures session.Valid()
    ensures outcome == Refused <==> !hasRecord || ct.gopLength == 0
    ensures outcome == Refused ==> session.sent == old(session.sent)
    ensures outcome == Refused || Ends(outcome, session.stop)
    ensures hasRecord && 0 < ct.gopLength ==>
              && SentPrefix(session.sent, old(session.sent), all, n) && (outcome == Completed ==> n == |all|)
              && OnTime(session.sent, session.times, |old(session.sent)|, p.due)
  {
    if !hasRecord {
      return Refused, 0;
    }
    var gopLen := ct.gopLength;
    if gopLen == 0 {
      return Refused, 0;
    }
    FloorGalois(gopLen * ct.sampleDur * 1000, ct.timeScale, 0);
    var gopDurMS := U64(gopLen * ct.sampleDur * 1000) / ct.timeScale;
    if gopDurMS == 0 {
      gopDurMS := 1000;
    }
    assert gopDurMS == GopDurMS(gopLen, c.sampleDur, c.timeScale);
    FloorGalois(now, gopDurMS, 0);
    var currGopNr := now / gopDurMS;
    outcome, n := PublishVideoGroups(session, ct, gopLen, currGopNr + 1, rounds, c, p, all);
  }

  /** One turn of the audio loop: waits for the frame's time and writes it as the only object of its group. */
  method WriteAudioFrame(session: Session<MiFrame>, ct: ContentTrack, frameNr: nat, seqID: nat,
                         ghost c: Clip, ghost p: FramePlan<MiFrame>, ghost first: nat)
    returns (outcome: Outcome, ghost n: nat)
    requires c == ct.AsClip() && c.Ready() && MiPlanOf(p, c, false, 1)
    requires session.open == None
    requires session.Valid() && session.stop == Completed && OnTime(session.sent, session.times, first, p.due)
    requires TimesFit(c, 1, frameNr + 1) && seqID == frameNr
    modifies session
    ensures session.open == None
    ensures session.Valid() && OnTime(session.sent, session.times, first, p.due)
    ensures SentPrefix(session.sent, old(session.sent), p.groups(frameNr), n)
    ensures Ends(outcome, session.stop) && (outcome == Completed ==> n == |p.groups(frameNr)|)
  {
    MiGroupRange(p, c, false, 1, frameNr);
    GroupAt(p, frameNr, frameNr);
    n := 0;
    var done := session.ContextDone();
    if done {
      return Cancelled, n;
    }
    assert frameNr * c.sampleDur * 1000 < TWO64;
    var ptsMS, frame := MakeFrame(ct, frameNr, seqID, false, c, false, 1, p);
    var cancelled := session.Pace(ptsMS);
    if cancelled {
      return Cancelled, n;
    }
    var o := MediaObject(frameNr, 0, frame);
    assert p.groups(frameNr) == [o];
    outcome, n := WriteOnlyObject(session, o, first, p.due);
  }

  /** Writes an object, which is due, as the only one of its group. */
  method WriteOnlyObject(session: Session<MiFrame>, o: MediaObject<MiFrame>, ghost first: nat,
                         ghost due: MediaObject<MiFrame> -> int)
    returns (outcome: Outcome, ghost n: nat)
    requires session.Valid() && session.stop == Completed && session.checked && session.open == None
    requires OnTime(session.sent, session.times, first, due)
    requires Paced(Delivery(session.clock, session.release), due(o))
    modifies session
    ensures session.Valid() && session.open == None && OnTime(session.sent, session.times, first, due)
    ensures SentPrefix(session.sent, old(session.sent), [o], n)
    ensures Ends(outcome, session.stop) && (outcome == Completed ==> n == 1)
  {
    n := 0;
    var hasSubgroup := session.OpenSubgroup(o.group);
    if !hasSubgroup {
      return Failed, n;
    }
    var ok := session.WriteObject(o);
    if !ok {
      var _ := session.CloseSubgroup();
      return Failed, n;
    }
    n := 1;
    assert [o][..1] == [o];
    var closed := session.CloseSubgroup();
    outcome := if closed then Completed else Failed;
  }

  /** The audio publish loop from frame f0 on: one group per frame; rounds frames until cancellation. */
  method PublishAudioFrames(session: Session<MiFrame>, ct: ContentTrack, f0: nat, rounds: nat,
                            ghost c: Clip, ghost p: FramePlan<MiFrame>, ghost all: seq<MediaObject<MiFrame>>)
    returns (outcome: Outcome, ghost n: nat)
    requires c == ct.AsClip() && c.Ready() && MiPlanOf(p, c, false, 1)
    requires session.Valid() && session.stop == Completed && session.open == None
    requires TimesFit(c, 1, f0 + rounds)
    requires all == Concat(p.groups, f0, f0 + rounds)
    modifies session
    ensures session.Valid() && session.open == None
    ensures SentPrefix(session.sent, old(session.sent), all, n) && (outcome == Completed ==> n == |all|)
    ensures Ends(outcome, session.stop)
    ensures OnTime(session.sent, session.times, |old(session.sent)|, p.due)
  {
    var frameNr, seqID := f0, f0;
    ghost var before := session.sent;
    n := 0;
    for round := 0 to rounds
      invariant session.Valid() && session.stop == Completed && session.open == None
      invariant frameNr == seqID == f0 + round && c == ct.AsClip()
      invariant SentGroups(session.sent, before, p.groups, f0, frameNr, n)
      invariant OnTime(session.sent, session.times, |before|, p.due)
    {
      EarlierTimesFit(c, 1, frameNr + 1, f0 + rounds);
      ghost var sent, written: nat := session.sent, 0;
      outcome, written := WriteAudioFrame(session, ct, frameNr, seqID, c, p, |before|);
      ExtendSent(sent, session.sent, before, p.groups, f0, frameNr, f0 + rounds, n, written);
      n := n + written;
      if outcome != Completed {
        return outcome, n;
      }
      seqID := seqID + 1;
      frameNr := frameNr + 1;
    }
    GroupsArePrefix(session.sent, before, p.groups, f0, frameNr, f0 + rounds, n);
    outcome := Completed;
  }

  /** Publishes audio from the next frame boundary on. */
  method PublishMoqMIAudio(session: Session<MiFrame>, ct: ContentTrack, now: nat, rounds: nat,
                           ghost c: Clip, ghost p: FramePlan<MiFrame>, ghost all: seq<MediaObject<MiFrame>>)
    returns (outcome: Outcome, ghost n: nat)
    requires c == ct.AsClip() && session.Valid() && session.stop == Completed && session.open == None
    requires now * c.timeScale < TWO64
    requires 0 < c.sampleDur ==>
               && c.Ready() && MiPlanOf(p, c, false, 1)
               && TimesFit(c, 1, StartFrame(now, c.sampleDur, c.timeScale) + rounds)
               && all == Concat(p.groups, StartFrame(now, c.sampleDur, c.timeScale),
                                StartFrame(now, c.sampleDur, c.timeScale) + rounds)
    modifies session
    ensures session.Valid() && session.open == None
    ensures outcome == Refused <==> c.sampleDur == 0
    ensures outcome == Refused ==> session.sent == old(session.sent)
    ensures outcome == Refused || Ends(outcome, session.stop)
    ensures 0 < c.sampleDur ==>
              && SentPrefix(session.sent, old(session.sent), all, n) && (outcome == Completed ==> n == |all|)
              && OnTime(session.sent, session.times, |old(session.sent)|, p.due)
  {
    if ct.sampleDur == 0 {
      return Refused, 0;
    }
    StartFrameFits(now, c.sampleDur, c.timeScale);
    var frameNr := StartFrameAt(now, ct.sampleDur, ct.timeScale);
    outcome, n := PublishAudioFrames(session, ct, frameNr, rounds, c, p, all);
  }

  // ---- The subscriber's gap counter ----

  /** The sequence number last seen on a track, if any. */
  class SeqState {
    var last: nat
    var have: bool

    constructor ()
      ensures !have
    {
      last, have := 0, false;
    }

    /** The gap to the previous number: 0 for the first one, 1 for the expected next one (64-bit subtraction). */
    method SeqDelta(seqID: nat) returns (delta: nat)
      requires seqID < TWO64
      modifies this
      ensures delta == (if old(have) then Gap(old(last), seqID) else 0)
      ensures have && last == seqID
    {
      if !have {
        have := true;
        last := seqID;
        return 0;
      }
      delta := Gap(last, seqID);
      last := seqID;
    }
  }

  /** The 64-bit difference of two sequence numbers. */
  function Gap(prev: int, seqID: int): nat {
    U64(seqID - prev)
  }

  /** The gaps a subscriber reports for the sequence numbers ids. */
  ghost function Gaps(ids: seq<nat>): (r: seq<nat>)
    ensures |r| == |ids|
  {
    seq(|ids|, i requires 0 <= i < |ids| => if i == 0 then 0 else Gap(ids[i - 1], ids[i]))
  }

  /** The receive loop of a track. */
  method Receive(ids: seq<nat>) returns (gaps: seq<nat>)
    requires forall i :: 0 <= i < |ids| ==> ids[i] < TWO64
    ensures gaps == Gaps(ids)
  {
    var state := new SeqState();
    gaps := [];
    for i := 0 to |ids|
      invariant state.have <==> 0 < i
      invariant 0 < i ==> state.last == ids[i - 1]
      invariant gaps == Gaps(ids)[..i]
    {
      var delta := state.SeqDelta(ids[i]);
      gaps := gaps + [delta];
    }
  }

  /** All reported gaps after the first are 1 exactly when every number follows its predecessor (modulo 2^64). */
  lemma GapsDetectLoss(ids: seq<nat>)
    requires forall i :: 0 <= i < |ids| ==> ids[i] < TWO64
    ensures (forall i :: 0 < i < |ids| ==> Gaps(ids)[i] == 1)
            <==> (forall i :: 0 < i < |ids| ==> ids[i] == U64(ids[i - 1] + 1))
  {
    forall i | 0 < i < |ids|
      ensures Gaps(ids)[i] == 1 <==> ids[i] == U64(ids[i - 1] + 1)
    {
      var prev: int := ids[i - 1];
      WrapSplit(ids[i] - prev);
      WrapSplit(prev + 1);
    }
  }

  /** When the objects between numbers i and j of a run are lost, the subscriber reports a gap of j - i. */
  lemma LossReported(p: FramePlan<MiFrame>, c: Clip, video: bool, G: nat, g0: nat, g1: nat, i: nat, j: nat)
    requires c.Ready() && 0 < G && MiPlanOf(p, c, video, G)
    requires g0 <= g1 && g1 * G < TWO64
    requires i < j < |Concat(p.groups, g0, g1)|
    ensures var all := Concat(p.groups, g0, g1);
            Gaps([all[i].payload.seqID, all[j].payload.seqID])[1] == j - i
  {
    SequenceNumbers(p, c, video, G, g0, g1, i);
    SequenceNumbers(p, c, video, G, g0, g1, j);
    Distribute(g1 - g0, g0, G);
  }

  /** A gap of m + 1 is reported exactly when m numbers are missing (modulo 2^64). */
  lemma GapCountsLoss(prev: nat, seqID: nat, m: nat)
    requires prev < TWO64 && seqID < TWO64 && m + 1 < TWO64
    ensures Gaps([prev, seqID])[1] == m + 1 <==> seqID == U64(prev + m + 1)
  {
    WrapSplit(seqID - prev);
    WrapSplit(prev + m + 1);
  }

  /** The sequence numbers of a list of objects. */
  ghost function IdsOf(objects: seq<MediaObject<MiFrame>>): (r: seq<nat>)
    ensures |r| == |objects|
  {
    seq(|objects|, i requires 0 <= i < |objects| => objects[i].payload.seqID)
  }

  /**
   * End to end: whatever initial part of a run is delivered in order, the subscriber reports 0 for the
   * first object and 1 for every later one.
   */
  lemma NoGapReported(p: FramePlan<MiFrame>, c: Clip, video: bool, G: nat, g0: nat, g1: nat, k: nat)
    requires c.Ready() && 0 < G && MiPlanOf(p, c, video, G)
    requires g0 <= g1 && g1 * G < TWO64
    requires k <= |Concat(p.groups, g0, g1)|
    ensures var ids := IdsOf(Concat(p.groups, g0, g1)[..k]);
            && (forall i :: 0 <= i < k ==> ids[i] < TWO64)
            && (forall i :: 0 <= i < k ==> Gaps(ids)[i] == if i == 0 then 0 else 1)
  {
    var all := Concat(p.groups, g0, g1);
    var ids := IdsOf(all[..k]);
    forall i | 0 <= i < k
      ensures ids[i] == g0 * G + i < TWO64
    {
      SequenceNumbers(p, c, video, G, g0, g1, i);
      Distribute(g1 - g0, g0, G);
    }
    forall i | 0 < i < k
      ensures Gaps(ids)[i] == 1
    {
      assert ids[i] == ids[i - 1] + 1;
    }
  }
}
