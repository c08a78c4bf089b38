/** A video sample on its whole way: rewritten on loading, sent as LOC, reframed by the receiver. */
module VideoPath {
  import opened Bytes
  import opened Nalu
  import opened Tracks
  import opened Rewrite
  import Loc
  import LocConfig
  import AnnexB

  /** What a decoder is to see of a sample: the parameter sets if it can start there, then the units kept. */
  ghost function Expected(data: seq<byte>, kind: Kinds, sets: seq<Unit>, sync: bool): seq<Unit> {
    (if sync then sets else []) + Kept(Split(data).units, kind)
  }

  /**
   * For every sample of the media file: its LOC payload, split and written as a byte stream by the receiver,
   * reads back as the expected units if and only if these can be delimited by start codes at all.
   */
  lemma SampleReachesDecoder(data: seq<byte>, kind: Kinds, sets: seq<Unit>, sample: FullSample)
    requires sample.data == Encode(Kept(Split(data).units, kind)) && Encodable(sets)
    ensures var received := Split(Loc.LocPayload(Encode(sets), sample));
            var expected := Expected(data, kind, sets, sample.sync);
            && received == Parsed(expected, true)
            && (AnnexB.Read(AnnexB.Stream(received.units)) == expected <==> AnnexB.AllDelimited(expected))
  {
    RewriteIsIdempotent(data, kind);
    LocConfig.PayloadSplitsIntoSetsAndSample(sets, sample);
    AnnexB.ReadStream(Expected(data, kind, sets, sample.sync));
  }

  /** With well-formed parameter sets and units that is always so. */
  lemma WellFormedSampleReachesDecoder(data: seq<byte>, kind: Kinds, sets: seq<Unit>, sample: FullSample)
    requires sample.data == Encode(Kept(Split(data).units, kind)) && Encodable(sets)
    requires forall u :: u in sets || u in Split(data).units ==> AnnexB.WellFormedNAL(u)
    ensures AnnexB.Read(AnnexB.Stream(Split(Loc.LocPayload(Encode(sets), sample)).units))
            == Expected(data, kind, sets, sample.sync)
  {
    SampleReachesDecoder(data, kind, sets, sample);
    KeptAreUnits(Split(data).units, kind);
    AnnexB.WellFormedIsDelimited(Expected(data, kind, sets, sample.sync));
  }

  // ---- A whole run into one file ----

  /** What the receiver has written after these payloads, one stream behind the other. */
  ghost function Received(payloads: seq<seq<byte>>): seq<byte> {
    if payloads == [] then []
    else Received(payloads[..|payloads| - 1]) + AnnexB.Stream(Split(payloads[|payloads| - 1]).units)
  }

  /** The units of these lists, one list behind the other. */
  ghost function Flat(lists: seq<seq<Unit>>): seq<Unit> {
    if lists == [] then [] else Flat(lists[..|lists| - 1]) + lists[|lists| - 1]
  }

  lemma {:induction false} ReceivedIsOneStream(payloads: seq<seq<byte>>, lists: seq<seq<Unit>>)
    requires |payloads| == |lists|
    requires forall i :: 0 <= i < |payloads| ==> Split(payloads[i]).units == lists[i]
    ensures Received(payloads) == AnnexB.Stream(Flat(lists))
  {
    if payloads != [] {
      var n := |payloads| - 1;
      ReceivedIsOneStream(payloads[..n], lists[..n]);
      AnnexB.StreamConcat(Flat(lists[..n]), lists[n]);
    }
  }

  /** samples are the rewritten forms of the samples raw of the media file. */
  ghost predicate AllRewritten(raw: seq<seq<byte>>, kind: Kinds, samples: seq<FullSample>) {
    && |raw| == |samples|
    && forall i :: 0 <= i < |raw| ==> samples[i].data == Encode(Kept(Split(raw[i]).units, kind))
  }

  ghost function Payloads(sets: seq<Unit>, samples: seq<FullSample>): (r: seq<seq<byte>>)
    ensures |r| == |samples|
    ensures forall i :: 0 <= i < |r| ==> r[i] == Loc.LocPayload(Encode(sets), samples[i])
  {
    seq(|samples|, i requires 0 <= i < |samples| => Loc.LocPayload(Encode(sets), samples[i]))
  }

  ghost function AllExpected(raw: seq<seq<byte>>, kind: Kinds, sets: seq<Unit>, samples: seq<FullSample>)
      : (r: seq<seq<Unit>>)
    requires |raw| == |samples|
    ensures |r| == |raw|
    ensures forall i :: 0 <= i < |r| ==> r[i] == Expected(raw[i], kind, sets, samples[i].sync)
  {
    seq(|raw|, i requires 0 <= i < |raw| => Expected(raw[i], kind, sets, samples[i].sync))
  }

  /**
   * For any run of samples: the file the receiver writes reads back as the expected units of all of them, one
   * sample behind the other, if and only if the units of the whole run can be delimited by start codes.
   */
  lemma RunReachesDecoder(raw: seq<seq<byte>>, kind: Kinds, sets: seq<Unit>, samples: seq<FullSample>)
    requires AllRewritten(raw, kind, samples) && Encodable(sets)
    ensures var expected := Flat(AllExpected(raw, kind, sets, samples));
            AnnexB.Read(Received(Payloads(sets, samples))) == expected <==> AnnexB.AllDelimited(expected)
  {
    var payloads, lists := Payloads(sets, samples), AllExpected(raw, kind, sets, samples);
    forall i | 0 <= i < |raw|
      ensures Split(payloads[i]).units == lists[i]
    {
      SampleReachesDecoder(raw[i], kind, sets, samples[i]);
    }
    ReceivedIsOneStream(payloads, lists);
    AnnexB.ReadStream(Flat(lists));
  }

  lemma {:induction false} FlatMembers(lists: seq<seq<Unit>>, u: Unit) returns (i: nat)
    requires u in Flat(lists)
    ensures i < |lists| && u in lists[i]
  {
    var n := |lists| - 1;
    if u in lists[n] {
      i := n;
    } else {
      i := FlatMembers(lists[..n], u);
    }
  }

  /** With well-formed parameter sets and units that is always so. */
  lemma WellFormedRunReachesDecoder(raw: seq<seq<byte>>, kind: Kinds, sets: seq<Unit>, samples: seq<FullSample>)
    requires AllRewritten(raw, kind, samples) && Encodable(sets)
    requires forall u :: u in sets ==> AnnexB.WellFormedNAL(u)
    requires forall i, u :: 0 <= i < |raw| && u in Split(raw[i]).units ==> AnnexB.WellFormedNAL(u)
    ensures AnnexB.Read(Received(Payloads(sets, samples))) == Flat(AllExpected(raw, kind, sets, samples))
  {
    var lists := AllExpected(raw, kind, sets, samples);
    var all := Flat(lists);
    forall k | 0 <= k < |all|
      ensures AnnexB.WellFormedNAL(all[k])
    {
      var i := FlatMembers(lists, all[k]);
      KeptAreUnits(Split(raw[i]).units, kind);
    }
    AnnexB.WellFormedIsDelimited(all);
    RunReachesDecoder(raw, kind, sets, samples);
  }
}
