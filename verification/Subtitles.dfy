/**
 * Subtitle groups. WVTT: cue samples and the empty samples that fill the time between them. STPP: one document
 * that lists the cues.
 */
module Subtitles {
  import opened Arith
  import opened Options
  import opened Cues

  /** What a sample shows: nothing, the wall-clock time and the group number, or a list of timed cues. */
  datatype Payload = Empty | Shows(utcMS: int, groupNr: nat) | Document(cues: seq<TimedCue>)

  /** A cue of a TTML document, whose times are on the media clock. */
  datatype TimedCue = TimedCue(nr: nat, index: nat, begin: int, end: int, utcMS: int)

  datatype Sample = Sample(decodeTime: nat, dur: nat, payload: Payload)

  /** A sample from start to end, in the unsigned fields of the media format. */
  function FullSample(start: int, end: int, payload: Payload): Sample {
    Sample(U64(start), U32(end - start), payload)
  }

  /** The samples follow each other without gap or overlap from one time to another, each lasting. */
  ghost predicate Tiles(samples: seq<Sample>, from: int, to: int) {
    if samples == [] then from == to
    else
      var last := samples[|samples| - 1];
      0 < last.dur && last.decodeTime + last.dur == to && Tiles(samples[..|samples| - 1], from, last.decodeTime)
  }

  lemma TilesOneMore(samples: seq<Sample>, from: int, mid: int, s: Sample, to: int)
    requires Tiles(samples, from, mid)
    ensures Tiles(samples + [s], from, to) <==> 0 < s.dur && s.decodeTime == mid && s.decodeTime + s.dur == to
  {
    assert (samples + [s])[..|samples|] == samples;
    if Tiles(samples + [s], from, to) {
      TilesEnd(samples, from, mid, s.decodeTime);
    }
  }

  /** Where samples that tile the time from one point end is determined. */
  lemma TilesEnd(samples: seq<Sample>, from: int, to: int, to': int)
    requires Tiles(samples, from, to) && Tiles(samples, from, to')
    ensures to == to'
  {
  }

  lemma {:induction false} TilesConcat(a: seq<Sample>, b: seq<Sample>, from: int, mid: int, to: int)
    requires Tiles(a, from, mid) && Tiles(b, mid, to)
    ensures Tiles(a + b, from, to)
  {
    if b == [] {
      assert a + b == a;
    } else {
      var n := |b| - 1;
      TilesConcat(a, b[..n], from, mid, b[n].decodeTime);
      assert (a + b)[..|a + b| - 1] == a + b[..n];
    }
  }

  /** A sequence that tiles starts with lasting, adjoining samples. */
  lemma {:induction false} TilesStart(samples: seq<Sample>, from: int, to: int)
    requires Tiles(samples, from, to)
    ensures 1 <= |samples| ==> samples[0].decodeTime == from && 0 < samples[0].dur
    ensures 2 <= |samples| ==> samples[1].decodeTime == from + samples[0].dur
  {
    if samples != [] {
      var front := samples[..|samples| - 1];
      TilesStart(front, from, samples[|samples| - 1].decodeTime);
      if |samples| == 2 {
        assert front == [samples[0]];
        assert front[..0] == [];
      }
    }
  }

  /** The sample of a cue. */
  function CueSample(ci: CueItvl, nr: nat): Sample {
    FullSample(ci.startMS, ci.endMS, Shows(ci.utcS * 1000, nr))
  }

  /** Samples that end at currEnd, an empty one up to the cue if there is time, and the cue. */
  function WithCue(samples: seq<Sample>, currEnd: int, ci: CueItvl, nr: nat): seq<Sample> {
    (if currEnd < ci.startMS then samples + [FullSample(currEnd, ci.startMS, Empty)] else samples) + [CueSample(ci, nr)]
  }

  /** The time at which the cues so far end. */
  function EndOf(itvls: seq<CueItvl>, base: int): int {
    if itvls == [] then base else itvls[|itvls| - 1].endMS
  }

  /** The samples for the cues so far. */
  ghost function Filled(itvls: seq<CueItvl>, base: int, nr: nat): seq<Sample> {
    if itvls == [] then []
    else
      var n := |itvls| - 1;
      WithCue(Filled(itvls[..n], base, nr), EndOf(itvls[..n], base), itvls[n], nr)
  }

  /** All samples of the segment that ends at segEnd. */
  ghost function SegmentSamples(itvls: seq<CueItvl>, base: int, segEnd: int, nr: nat): seq<Sample> {
    var currEnd := EndOf(itvls, base);
    Filled(itvls, base, nr) + if currEnd < segEnd then [FullSample(currEnd, segEnd, Empty)] else []
  }

  /** The samples are those of the segment's cues. */
  ghost predicate IsSegment(samples: seq<Sample>, c: CueClock, nr: nat)
    requires c.Valid()
  {
    exists itvls :: CuesOf(c, itvls) && samples == SegmentSamples(itvls, c.segStart, c.SegEnd(), nr)
  }

  /** The samples of a WVTT segment. */
  method CreateSubtitlesWvttMediaData(nr: nat, baseMediaDecodeTime: nat, dur: nat, utcTimeMS: nat, cueDurMS: int)
    returns (samples: seq<Sample>)
    requires 0 < cueDurMS
    ensures IsSegment(samples, CueClock(baseMediaDecodeTime, dur, utcTimeMS, cueDurMS), nr)
  {
    var cueItvls := CalcCueItvls(baseMediaDecodeTime, dur, utcTimeMS, cueDurMS);
    samples := [];
    var currEnd: int := baseMediaDecodeTime;
    for i := 0 to |cueItvls|
      invariant currEnd == EndOf(cueItvls[..i], baseMediaDecodeTime)
      invariant samples == Filled(cueItvls[..i], baseMediaDecodeTime, nr)
    {
      var ci := cueItvls[i];
      assert cueItvls[..i + 1][..i] == cueItvls[..i];
      if ci.startMS > currEnd {
        samples := samples + [FullSample(currEnd, ci.startMS, Empty)];
      }
      samples := samples + [CueSample(ci, nr)];
      currEnd := ci.endMS;
    }
    assert cueItvls[..|cueItvls|] == cueItvls;
    var segEnd := baseMediaDecodeTime + dur;
    if currEnd < segEnd {
      samples := samples + [FullSample(currEnd, segEnd, Empty)];
    }
  }

  // ---- STPP ----

  function TimedCues(itvls: seq<CueItvl>, nr: nat): (r: seq<TimedCue>)
    ensures |r| == |itvls|
    ensures forall i :: 0 <= i < |r| ==>
              r[i] == TimedCue(nr, i, itvls[i].startMS, itvls[i].endMS, itvls[i].utcS * 1000)
  {
    seq(|itvls|, i requires 0 <= i < |itvls| =>
      TimedCue(nr, i, itvls[i].startMS, itvls[i].endMS, itvls[i].utcS * 1000))
  }

  /** One sample as long as the segment, with a document of exactly the segment's cues. */
  ghost predicate IsDocument(samples: seq<Sample>, c: CueClock, nr: nat)
    requires c.Valid()
  {
    exists itvls ::
      CuesOf(c, itvls) && samples == [Sample(U64(c.segStart), U32(c.segDur), Document(TimedCues(itvls, nr)))]
  }

  /** The sample of an STPP segment. */
  method CreateSubtitlesStppMediaData(nr: nat, baseMediaDecodeTime: nat, dur: nat, utcTimeMS: nat, cueDurMS: int)
    returns (samples: seq<Sample>)
    requires 0 < cueDurMS
    ensures IsDocument(samples, CueClock(baseMediaDecodeTime, dur, utcTimeMS, cueDurMS), nr)
  {
    var cueItvls := CalcCueItvls(baseMediaDecodeTime, dur, utcTimeMS, cueDurMS);
    var cues := [];
    for i := 0 to |cueItvls|
      invariant cues == TimedCues(cueItvls, nr)[..i]
    {
      var ci := cueItvls[i];
      cues := cues + [TimedCue(nr, i, ci.startMS, ci.endMS, ci.utcS * 1000)];
    }
    assert cues == TimedCues(cueItvls, nr);
    samples := [Sample(U64(baseMediaDecodeTime), U32(dur), Document(cues))];
  }

  /**
   * An STPP segment's document has a cue on at time t exactly in the first cueDur milliseconds of t's second, and
   * that cue says that second; media and wall clock agree in a group.
   */
  lemma DocumentShowsItsSecond(c: CueClock, samples: seq<Sample>, nr: nat, t: int)
    requires c.Valid() && c.cueDur <= 1000 && IsDocument(samples, c, nr) && c.segStart == c.utcStart
    requires c.segStart <= t < c.SegEnd()
    ensures |samples| == 1 && samples[0].payload.Document?
    ensures (exists cue :: cue in samples[0].payload.cues && cue.begin <= t < cue.end) <==> t % 1000 < c.cueDur
    ensures forall cue :: cue in samples[0].payload.cues && cue.begin <= t < cue.end ==>
              cue.utcMS == t / 1000 * 1000 && cue.nr == nr
    ensures forall i :: 0 <= i < |samples[0].payload.cues| ==> samples[0].payload.cues[i].index == i
  {
    var itvls: seq<CueItvl> :| CuesOf(c, itvls) && samples[0].payload == Document(TimedCues(itvls, nr));
    CueShowsItsSecond(c, itvls, t);
    if i: nat :| i < |itvls| && itvls[i].startMS <= t < itvls[i].endMS {
      assert TimedCues(itvls, nr)[i] in samples[0].payload.cues;
    }
  }

  // ---- What the samples of a segment show ----

  /** Exactly the cues are shown, in order, each for its own interval. */
  ghost function Shown(samples: seq<Sample>): seq<Sample> {
    if samples == [] then []
    else
      var n := |samples| - 1;
      if samples[n].payload.Shows? then Shown(samples[..n]) + [samples[n]] else Shown(samples[..n])
  }

  ghost function CueSamples(itvls: seq<CueItvl>, nr: nat): seq<Sample> {
    if itvls == [] then []
    else CueSamples(itvls[..|itvls| - 1], nr) + [CueSample(itvls[|itvls| - 1], nr)]
  }

  lemma ShownOneMore(samples: seq<Sample>, s: Sample)
    ensures Shown(samples + [s]) == if s.payload.Shows? then Shown(samples) + [s] else Shown(samples)
  {
    assert (samples + [s])[..|samples|] == samples;
  }

  lemma AddGap(samples: seq<Sample>, base: int, currEnd: int, to: int)
    requires Tiles(samples, base, currEnd) && 0 <= currEnd < to < TWO64 && to - currEnd < TWO32
    ensures Tiles(samples + [FullSample(currEnd, to, Empty)], base, to)
    ensures Shown(samples + [FullSample(currEnd, to, Empty)]) == Shown(samples)
  {
    TilesOneMore(samples, base, currEnd, FullSample(currEnd, to, Empty), to);
    ShownOneMore(samples, FullSample(currEnd, to, Empty));
  }

  lemma AddCue(samples: seq<Sample>, base: int, currEnd: int, ci: CueItvl, nr: nat)
    requires Tiles(samples, base, currEnd) && 0 <= currEnd <= ci.startMS < ci.endMS < TWO64
    requires ci.endMS - currEnd < TWO32
    ensures Tiles(WithCue(samples, currEnd, ci, nr), base, ci.endMS)
    ensures Shown(WithCue(samples, currEnd, ci, nr)) == Shown(samples) + [CueSample(ci, nr)]
  {
    var filled := samples;
    if currEnd < ci.startMS {
      AddGap(samples, base, currEnd, ci.startMS);
      filled := samples + [FullSample(currEnd, ci.startMS, Empty)];
    }
    TilesOneMore(filled, base, ci.startMS, CueSample(ci, nr), ci.endMS);
    ShownOneMore(filled, CueSample(ci, nr));
  }

  /** Filling the gaps tiles the time up to the end of the last cue and shows exactly the cues. */
  lemma {:induction false} FilledTiles(itvls: seq<CueItvl>, base: nat, to: int, nr: nat)
    requires Proper(itvls, base, to) && base <= to < TWO64 && to - base < TWO32
    ensures base <= EndOf(itvls, base) <= to
    ensures Tiles(Filled(itvls, base, nr), base, EndOf(itvls, base))
    ensures Shown(Filled(itvls, base, nr)) == CueSamples(itvls, nr)
  {
    if itvls != [] {
      var n := |itvls| - 1;
      FilledTiles(itvls[..n], base, to, nr);
      assert 0 < n ==> itvls[n - 1].endMS <= itvls[n - 1 + 1].startMS;
      AddCue(Filled(itvls[..n], base, nr), base, EndOf(itvls[..n], base), itvls[n], nr);
    }
  }

  /** The samples of a segment are those of its cues, and an empty one if time is left behind them. */
  lemma SegmentEnd(itvls: seq<CueItvl>, base: int, segEnd: int, nr: nat, samples: seq<Sample>, currEnd: int)
    requires samples == Filled(itvls, base, nr) && currEnd == EndOf(itvls, base)
    ensures currEnd < segEnd ==>
              SegmentSamples(itvls, base, segEnd, nr) == samples + [FullSample(currEnd, segEnd, Empty)]
    ensures segEnd <= currEnd ==> SegmentSamples(itvls, base, segEnd, nr) == samples
  {
    assert samples + [] == samples;
  }

  /** A segment with proper cues is tiled by its samples, which show exactly the cues. */
  lemma ProperSegmentTiles(itvls: seq<CueItvl>, base: nat, segEnd: int, nr: nat)
    requires Proper(itvls, base, segEnd) && base <= segEnd < TWO64 && segEnd - base < TWO32
    ensures Tiles(SegmentSamples(itvls, base, segEnd, nr), base, segEnd)
    ensures Shown(SegmentSamples(itvls, base, segEnd, nr)) == CueSamples(itvls, nr)
  {
    var samples, currEnd := Filled(itvls, base, nr), EndOf(itvls, base);
    FilledTiles(itvls, base, segEnd, nr);
    SegmentEnd(itvls, base, segEnd, nr, samples, currEnd);
    var all := SegmentSamples(itvls, base, segEnd, nr);
    if currEnd < segEnd {
      AddGap(samples, base, currEnd, segEnd);
      assert Tiles(all, base, segEnd);
      assert Shown(all) == Shown(samples);
    } else {
      assert Tiles(all, base, segEnd);
      assert Shown(all) == Shown(samples);
    }
  }

  lemma {:induction false} ShownMembers(samples: seq<Sample>, s: Sample)
    ensures s in Shown(samples) <==> s in samples && s.payload.Shows?
  {
    if samples != [] {
      var n := |samples| - 1;
      ShownMembers(samples[..n], s);
      assert samples == samples[..n] + [samples[n]];
    }
  }

  lemma {:induction false} CueSampleMembers(itvls: seq<CueItvl>, nr: nat, s: Sample)
    ensures s in CueSamples(itvls, nr) <==> exists i :: 0 <= i < |itvls| && s == CueSample(itvls[i], nr)
  {
    if itvls != [] {
      var n := |itvls| - 1;
      CueSampleMembers(itvls[..n], nr, s);
      assert forall i :: 0 <= i < n ==> itvls[..n][i] == itvls[i];
    }
  }

  /** A cue's sample lasts as long as the cue. */
  lemma CueSampleSpan(ci: CueItvl, nr: nat)
    requires 0 <= ci.startMS < ci.endMS < TWO64 && ci.endMS - ci.startMS < TWO32
    ensures var s := CueSample(ci, nr);
            s.decodeTime == ci.startMS && s.decodeTime + s.dur == ci.endMS && s.payload == Shows(ci.utcS * 1000, nr)
  {
  }

  /** A sample shows something at time t. */
  predicate ShowsAt(s: Sample, t: int) {
    s.payload.Shows? && s.decodeTime <= t < s.decodeTime + s.dur
  }

  /**
   * In a WVTT segment whose first cue is still on at its start, a sample shows something at time t exactly in the
   * first cueDur milliseconds of t's second, and it shows that second and the segment's number.
   */
  lemma SegmentShowsItsSecond(c: CueClock, samples: seq<Sample>, nr: nat, t: int)
    requires c.Valid() && c.cueDur <= 1000 && IsSegment(samples, c, nr) && c.segStart == c.utcStart
    requires c.FirstCueReaches() && c.segDur < TWO32 && c.SegEnd() < TWO64
    requires c.segStart <= t < c.SegEnd()
    ensures (exists s :: s in samples && ShowsAt(s, t)) <==> t % 1000 < c.cueDur
    ensures forall s :: s in samples && ShowsAt(s, t) ==> s.payload == Shows(t / 1000 * 1000, nr)
  {
    var itvls: seq<CueItvl> :| CuesOf(c, itvls) && samples == SegmentSamples(itvls, c.segStart, c.SegEnd(), nr);
    CuesProper(c, itvls);
    ProperSegmentTiles(itvls, c.segStart, c.SegEnd(), nr);
    CueShowsItsSecond(c, itvls, t);
    forall s | s in samples && ShowsAt(s, t)
      ensures s.payload == Shows(t / 1000 * 1000, nr) && t % 1000 < c.cueDur
    {
      var i := ShownCue(itvls, samples, c.segStart, c.SegEnd(), nr, s, t);
    }
    if i: nat :| i < |itvls| && itvls[i].startMS <= t < itvls[i].endMS {
      CueIsShown(itvls, samples, c.segStart, c.SegEnd(), nr, i, t);
    }
  }

  /** What shows at time t is a cue that is on then. */
  lemma ShownCue(itvls: seq<CueItvl>, samples: seq<Sample>, from: int, to: int, nr: nat, s: Sample, t: int)
    returns (i: nat)
    requires Proper(itvls, from, to) && 0 <= from && to < TWO64 && to - from < TWO32
    requires Shown(samples) == CueSamples(itvls, nr) && s in samples && ShowsAt(s, t)
    ensures i < |itvls| && itvls[i].startMS <= t < itvls[i].endMS && s.payload == Shows(itvls[i].utcS * 1000, nr)
  {
    ShownMembers(samples, s);
    CueSampleMembers(itvls, nr, s);
    i :| 0 <= i < |itvls| && s == CueSample(itvls[i], nr);
    CueSampleSpan(itvls[i], nr);
  }

  lemma CueIsShown(itvls: seq<CueItvl>, samples: seq<Sample>, from: int, to: int, nr: nat, i: nat, t: int)
    requires Proper(itvls, from, to) && 0 <= from && to < TWO64 && to - from < TWO32
    requires Shown(samples) == CueSamples(itvls, nr)
    requires i < |itvls| && itvls[i].startMS <= t < itvls[i].endMS
    ensures CueSample(itvls[i], nr) in samples && ShowsAt(CueSample(itvls[i], nr), t)
  {
    CueSampleSpan(itvls[i], nr);
    CueSampleMembers(itvls, nr, CueSample(itvls[i], nr));
    ShownMembers(samples, CueSample(itvls[i], nr));
  }

  /** A segment starts with the sample of a cue that is due at once; the next sample starts where that cue ends. */
  lemma {:induction false} FilledStart(itvls: seq<CueItvl>, base: int, nr: nat)
    requires itvls != [] && itvls[0].startMS <= base
    ensures var s := Filled(itvls, base, nr);
            && |itvls| <= |s| && s[0] == CueSample(itvls[0], nr)
            && (2 <= |itvls| && itvls[0].endMS < itvls[1].startMS ==> s[1].decodeTime == U64(itvls[0].endMS))
            && (|itvls| == 1 ==> |s| == 1)
  {
    var n := |itvls| - 1;
    if n == 0 {
      assert itvls[..n] == [];
    } else {
      FilledStart(itvls[..n], base, nr);
    }
  }

  lemma SegmentStart(itvls: seq<CueItvl>, base: int, segEnd: int, nr: nat)
    requires itvls != [] && itvls[0].startMS <= base && itvls[0].endMS < segEnd
    ensures var s := SegmentSamples(itvls, base, segEnd, nr);
            && 2 <= |s| && s[0] == CueSample(itvls[0], nr)
            && (|itvls| == 1 || itvls[0].endMS < itvls[1].startMS ==> s[1].decodeTime == U64(itvls[0].endMS))
  {
    FilledStart(itvls, base, nr);
  }

  /**
   * The samples of the segment tile it exactly when its first cue is still on at its start. Otherwise the
   * first cue ends before it starts, and what follows does not adjoin it.
   */
  lemma SegmentTiles(c: CueClock, itvls: seq<CueItvl>, nr: nat)
    requires c.Valid() && CuesOf(c, itvls) && c.segStart == c.utcStart
    requires 0 < c.segDur < TWO32 && c.SegEnd() < TWO64
    ensures Tiles(SegmentSamples(itvls, c.segStart, c.SegEnd(), nr), c.segStart, c.SegEnd()) <==> c.FirstCueReaches()
  {
    if c.FirstCueReaches() {
      CuesProper(c, itvls);
      ProperSegmentTiles(itvls, c.segStart, c.SegEnd(), nr);
    } else {
      FirstCueMissed(c, itvls);
      MissedCueBreaksTiling(itvls, c.segStart, c.SegEnd(), nr);
    }
  }

  lemma MissedCueBreaksTiling(itvls: seq<CueItvl>, base: nat, segEnd: int, nr: nat)
    requires base < segEnd < TWO64
    requires itvls != [] && itvls[0].startMS == base && 0 <= itvls[0].endMS <= base
    requires 2 <= |itvls| ==> base <= itvls[1].startMS
    ensures !Tiles(SegmentSamples(itvls, base, segEnd, nr), base, segEnd)
  {
    var s := SegmentSamples(itvls, base, segEnd, nr);
    SegmentStart(itvls, base, segEnd, nr);
    if Tiles(s, base, segEnd) {
      TilesStart(s, base, segEnd);
      assert false;
    }
  }

  lemma FirstCueMissed(c: CueClock, itvls: seq<CueItvl>)
    requires c.Valid() && 0 < c.segDur && c.segStart == c.utcStart && CuesOf(c, itvls)
    requires !c.FirstCueReaches()
    ensures itvls != [] && itvls[0].startMS == c.segStart && 0 <= itvls[0].endMS <= c.segStart
    ensures 2 <= |itvls| ==> c.segStart <= itvls[1].startMS
  {
    ListedStartsInside(c, 0);
    assert c.Second(0) == c.FirstS();
    assert itvls[0] == c.Cue(0);
    if 2 <= |itvls| {
      assert itvls[1] == c.Cue(1);
    }
  }

  // ---- Groups ----

  datatype SubtitleFormat = Wvtt | Stpp | UnknownFormat

  /** The group of a subtitle track: its number in 32 bits, its time span, and the samples of its one object. */
  datatype SubtitleGroup = SubtitleGroup(id: nat, startTime: nat, endTime: nat, startNr: nat, endNr: nat,
                                         samples: seq<Sample>)

  /** The group the wall clock is in. */
  function CurrSubtitleGroupNr(nowMS: nat, groupDurMS: nat): nat
    requires 0 < groupDurMS
  {
    FloorGalois(nowMS, groupDurMS, 0);
    nowMS / groupDurMS
  }

  /** The current group is the one whose time span the wall clock is in. */
  lemma CurrentGroupSpansNow(nowMS: nat, groupDurMS: nat, g: nat)
    requires 0 < groupDurMS
    ensures g == CurrSubtitleGroupNr(nowMS, groupDurMS) <==> g * groupDurMS <= nowMS < (g + 1) * groupDurMS
  {
    FloorGalois(nowMS, groupDurMS, g);
    FloorGalois(nowMS, groupDurMS, g + 1);
  }

  /** g is the group with number nr: one segment that starts at base on both clocks. */
  ghost predicate IsGroup(g: SubtitleGroup, format: SubtitleFormat, nr: nat, base: nat, dur: nat, cueDur: int)
    requires 0 < cueDur
  {
    && g == SubtitleGroup(U32(nr), base, base + dur, nr, nr + 1, g.samples)
    && (format.Wvtt? ==> IsSegment(g.samples, CueClock(base, dur, base, cueDur), U32(nr)))
    && (format.Stpp? ==> IsDocument(g.samples, CueClock(base, dur, base, cueDur), U32(nr)))
  }

  method GenSubtitleGroup(format: SubtitleFormat, groupNr: nat, groupDurMS: nat, cueDurMS: int)
    returns (g: Option<SubtitleGroup>)
    requires 0 < cueDurMS && groupNr * groupDurMS + groupDurMS < TWO64
    ensures g.None? <==> format.UnknownFormat?
    ensures g.Some? ==> IsGroup(g.value, format, groupNr, groupNr * groupDurMS, groupDurMS, cueDurMS)
    ensures g.Some? ==> g.value.id == U32(groupNr) && g.value.startNr == groupNr && g.value.endNr == groupNr + 1
    ensures g.Some? ==>
              g.value.startTime == groupNr * groupDurMS && g.value.endTime == groupNr * groupDurMS + groupDurMS
  {
    var baseMediaDecodeTime := groupNr * groupDurMS;
    var dur := groupDurMS;
    var utcTimeMS := baseMediaDecodeTime;
    var samples;
    match format {
      case Wvtt =>
        samples := CreateSubtitlesWvttMediaData(U32(groupNr), baseMediaDecodeTime, dur, utcTimeMS, cueDurMS);
      case Stpp =>
        samples := CreateSubtitlesStppMediaData(U32(groupNr), baseMediaDecodeTime, dur, utcTimeMS, cueDurMS);
      case UnknownFormat =>
        return None;
    }
    g := Some(SubtitleGroup(U32(groupNr), baseMediaDecodeTime, baseMediaDecodeTime + dur, groupNr, groupNr + 1,
                            samples));
  }

  lemma IsSegmentTiles(c: CueClock, samples: seq<Sample>, nr: nat)
    requires c.Valid() && IsSegment(samples, c, nr) && c.segStart == c.utcStart
    requires 0 < c.segDur < TWO32 && c.SegEnd() < TWO64
    ensures Tiles(samples, c.segStart, c.SegEnd()) <==> c.FirstCueReaches()
  {
    var itvls :| CuesOf(c, itvls) && samples == SegmentSamples(itvls, c.segStart, c.SegEnd(), nr);
    SegmentTiles(c, itvls, nr);
  }

  lemma GroupSegment(g: SubtitleGroup, nr: nat, groupDurMS: nat, cueDur: int, base: nat, end: nat)
    requires 0 < cueDur && 0 < groupDurMS < TWO32 && IsGroup(g, Wvtt, nr, base, groupDurMS, cueDur)
    requires end == base + groupDurMS < TWO64
    ensures Tiles(g.samples, base, end) <==> CueClock(base, groupDurMS, base, cueDur).FirstCueReaches()
  {
    var c := CueClock(base, groupDurMS, base, cueDur);
    assert c.SegEnd() == end;
    IsSegmentTiles(c, g.samples, U32(nr));
  }

  lemma ReachesInEverySecond(nr: nat, cueDur: int)
    requires 0 < cueDur
    ensures cueDur <= 1000 ==> CueClock(nr * 1000, 1000, nr * 1000, cueDur).FirstCueReaches()
    ensures 1000 < cueDur && cueDur + 999 <= nr * 500 ==>
              !CueClock(nr * 1000, 1000, nr * 1000, cueDur).FirstCueReaches()
  {
    var c := CueClock(nr * 1000, 1000, nr * 1000, cueDur);
    if cueDur <= 1000 {
      ShortCuesReach(c);
    } else if cueDur + 999 <= nr * 500 {
      LongCuesFallShort(c);
    }
  }

  lemma DocumentTiles(c: CueClock, samples: seq<Sample>, nr: nat)
    requires c.Valid() && IsDocument(samples, c, nr) && 0 <= c.segStart && 0 < c.segDur < TWO32 && c.SegEnd() < TWO64
    ensures Tiles(samples, c.segStart, c.SegEnd())
  {
    assert samples[..0] == [];
  }

  /**
   * A one-second WVTT group is tiled whenever a cue lasts at most a second. A longer cue breaks every group from
   * a few seconds after the start of the epoch on. An STPP group is always tiled.
   */
  lemma GroupTiles(g: SubtitleGroup, format: SubtitleFormat, nr: nat, cueDur: int, base: nat, end: nat)
    requires 0 < cueDur && !format.UnknownFormat? && IsGroup(g, format, nr, base, 1000, cueDur)
    requires base == nr * 1000 && end == base + 1000 < TWO64
    ensures format.Stpp? || cueDur <= 1000 ==> Tiles(g.samples, base, end)
    ensures format.Wvtt? && 1000 < cueDur && cueDur + 999 <= nr * 500 ==> !Tiles(g.samples, base, end)
  {
    if format.Stpp? {
      var c := CueClock(base, 1000, base, cueDur);
      assert c.SegEnd() == end;
      DocumentTiles(c, g.samples, U32(nr));
    } else {
      GroupSegment(g, nr, 1000, cueDur, base, end);
      ReachesInEverySecond(nr, cueDur);
    }
  }

  /** The cue is on at time t. */
  predicate CueAt(cue: TimedCue, t: int) {
    cue.begin <= t < cue.end
  }

  /**
   * What is on at time t of a one-second group with cues of at most a second: in the first cueDur milliseconds, and
   * only then, the group's own second with its number, in either format.
   */
  lemma GroupShowsItsSecond(g: SubtitleGroup, format: SubtitleFormat, nr: nat, cueDur: int, base: nat, t: int)
    requires 0 < cueDur <= 1000 && IsGroup(g, format, nr, base, 1000, cueDur)
    requires base == nr * 1000 && base + 1000 < TWO64 && base <= t < base + 1000
    ensures format.Wvtt? ==>
              && ((exists s :: s in g.samples && ShowsAt(s, t)) <==> t - base < cueDur)
              && forall s :: s in g.samples && ShowsAt(s, t) ==> s.payload == Shows(base, U32(nr))
    ensures format.Stpp? ==>
              && |g.samples| == 1 && g.samples[0].payload.Document?
              && ((exists cue :: cue in g.samples[0].payload.cues && CueAt(cue, t)) <==> t - base < cueDur)
              && forall cue :: cue in g.samples[0].payload.cues && CueAt(cue, t) ==>
                   cue.utcMS == base && cue.nr == U32(nr)
  {
    var c := CueClock(base, 1000, base, cueDur);
    DivUnique(t, 1000, nr);
    if format.Wvtt? {
      ReachesInEverySecond(nr, cueDur);
      SegmentShowsItsSecond(c, g.samples, U32(nr), t);
    } else if format.Stpp? {
      DocumentShowsItsSecond(c, g.samples, U32(nr), t);
      if t - base < cueDur {
        var cue :| cue in g.samples[0].payload.cues && cue.begin <= t < cue.end;
        assert CueAt(cue, t);
      }
    }
  }

  /** The samples of groups, one behind the other. */
  ghost function AllSamples(groups: seq<SubtitleGroup>): seq<Sample> {
    if groups == [] then [] else AllSamples(groups[..|groups| - 1]) + groups[|groups| - 1].samples
  }

  /** The groups are those of consecutive seconds, from second first up to second next. */
  ghost predicate Consecutive(groups: seq<SubtitleGroup>, format: SubtitleFormat, first: nat, next: nat, cueDur: int)
    requires 0 < cueDur
  {
    if groups == [] then first == next
    else
      var n := |groups| - 1;
      0 < next && IsGroup(groups[n], format, next - 1, (next - 1) * 1000, 1000, cueDur)
      && Consecutive(groups[..n], format, first, next - 1, cueDur)
  }

  /**
   * Over any run of one-second groups the decode times are contiguous: no gap and no overlap anywhere. WVTT needs
   * cues of at most a second for that.
   */
  lemma {:induction false} RunTiles(groups: seq<SubtitleGroup>, format: SubtitleFormat, first: nat, next: nat,
                                    cueDur: int)
    requires 0 < cueDur && (format.Stpp? || (format.Wvtt? && cueDur <= 1000))
    requires next * 1000 < TWO64 && Consecutive(groups, format, first, next, cueDur)
    ensures Tiles(AllSamples(groups), first * 1000, next * 1000)
  {
    if groups != [] {
      var n, nr := |groups| - 1, next - 1;
      var mid, end := nr * 1000, next * 1000;
      RunTiles(groups[..n], format, first, nr, cueDur);
      GroupTiles(groups[n], format, nr, cueDur, mid, end);
      TilesConcat(AllSamples(groups[..n]), groups[n].samples, first * 1000, mid, end);
    }
  }
}
