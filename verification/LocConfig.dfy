/** Decoder configuration in LOC: parameter sets, length-prefixed, in front of the samples that need them. */
module LocConfig {
  import opened Bytes
  import opened Nalu
  import opened Tracks
  import opened Loc

  /** Appends units, each behind its length. */
  method AppendUnits(buf: seq<byte>, nalus: seq<Unit>) returns (r: seq<byte>)
    ensures r == buf + Encode(nalus)
  {
    r := buf;
    assert nalus[..0] == [];
    for i := 0 to |nalus|
      invariant r == buf + Encode(nalus[..i])
    {
      ghost var done := nalus[..i];
      assert nalus[..i + 1] == done + [nalus[i]];
      EncodeConcat(done, [nalus[i]]);
      EncodeOne(nalus[i]);
      r := r + PutUint32(|nalus[i]|);
      r := r + nalus[i];
      Regroup(buf, Encode(done), PutUint32(|nalus[i]|), nalus[i]);
    }
    assert nalus[..|nalus|] == nalus;
  }

  lemma Regroup(a: seq<byte>, b: seq<byte>, c: seq<byte>, d: seq<byte>)
    ensures a + b + c + d == a + (b + (c + d))
  {
  }

  /** The AVC configuration: SPSs, then PPSs. */
  method GenLOCVideoConfigAVC(spss: seq<Unit>, ppss: seq<Unit>) returns (buf: seq<byte>)
    ensures buf == Encode(spss + ppss)
  {
    buf := AppendUnits([], spss);
    buf := AppendUnits(buf, ppss);
    EncodeConcat(spss, ppss);
  }

  /** The HEVC configuration: VPSs, then SPSs, then PPSs. */
  method GenLOCVideoConfigHEVC(vpss: seq<Unit>, spss: seq<Unit>, ppss: seq<Unit>) returns (buf: seq<byte>)
    ensures buf == Encode(vpss + spss + ppss)
  {
    buf := AppendUnits([], vpss);
    buf := AppendUnits(buf, spss);
    buf := AppendUnits(buf, ppss);
    EncodeConcat(vpss, spss);
    EncodeConcat(vpss + spss, ppss);
  }

  /**
   * A receiver that splits a LOC payload finds the parameter sets, exactly in front of the sync samples, and
   * then the sample's own units; whether the sample is well-formed is unaffected.
   */
  lemma PayloadSplitsIntoSetsAndSample(sets: seq<Unit>, sample: FullSample)
    requires Encodable(sets)
    ensures Split(LocPayload(Encode(sets), sample))
            == Parsed((if sample.sync then sets else []) + Split(sample.data).units, Split(sample.data).ok)
  {
    var units := Split(sample.data).units;
    SplitEncoded(sets, sample.data);
    assert [] + units == units;
    if sets == [] {
      assert Encode(sets) == [];
    } else {
      assert |Encode(sets)| == 4 + |sets[0]| + |Encode(sets[1..])|;
    }
  }
}
