/** Inserting a caption SEI unit into a sample, directly before its first coded slice. */
module Splice {
  import opened Arith
  import opened Bytes
  import opened Nalu

  /** Whether a codec takes a unit, by its first byte, for a coded slice. */
  type SliceTest = Unit -> bool

  predicate IsVCL(vcl: SliceTest, u: Unit) {
    u != [] && vcl(u)
  }

  datatype Result = Ok(data: seq<byte>) | Malformed

  /** k is the index of the first coded slice, or the number of units when there is none. */
  ghost predicate FirstVCL(units: seq<Unit>, vcl: SliceTest, k: nat) {
    && k <= |units|
    && (forall i :: 0 <= i < k ==> !IsVCL(vcl, units[i]))
    && (k < |units| ==> IsVCL(vcl, units[k]))
  }

  /** The units with u inserted at index k. */
  function Inserted(units: seq<Unit>, k: nat, u: Unit): seq<Unit>
    requires k <= |units|
  {
    units[..k] + [u] + units[k..]
  }

  /** Index of the first coded slice. */
  method FindFirstVCL(nalus: seq<Unit>, vcl: SliceTest) returns (insertAt: nat)
    ensures FirstVCL(nalus, vcl, insertAt)
  {
    insertAt := |nalus|;
    for i := 0 to |nalus|
      invariant insertAt == |nalus|
      invariant forall j :: 0 <= j < i ==> !IsVCL(vcl, nalus[j])
    {
      if IsVCL(vcl, nalus[i]) {
        return i;
      }
    }
  }

  /** The sample with the SEI unit spliced in, for a sample that splits into units. */
  method SpliceSEIBeforeVCL(sampleData: seq<byte>, seiNAL: Unit, vcl: SliceTest) returns (r: Result, ghost k: nat)
    ensures r == Malformed <==> !Split(sampleData).ok
    ensures r.Ok? ==>
              var units := Split(sampleData).units;
              FirstVCL(units, vcl, k) && r.data == Encode(Inserted(units, k, seiNAL))
  {
    k := 0;
    var parsed := Split(sampleData);
    if !parsed.ok {
      return Malformed, k;
    }
    var nalus := parsed.units;
    var insertAt := FindFirstVCL(nalus, vcl);
    k := insertAt;
    var ordered := nalus[..insertAt];
    ordered := ordered + [seiNAL];
    ordered := ordered + nalus[insertAt..];
    var total := 0;
    for i := 0 to |ordered|
      invariant total == |Encode(ordered[..i])|
    {
      EncodeNext(ordered, i);
      total := total + 4 + |ordered[i]|;
    }
    var out := [];
    for i := 0 to |ordered|
      invariant out == Encode(ordered[..i])
    {
      EncodeNext(ordered, i);
      out := out + PutUint32(|ordered[i]|);
      out := out + ordered[i];
    }
    assert ordered[..|ordered|] == ordered;
    // The output has exactly the size that was set aside for it.
    assert |out| == total;
    r := Ok(out);
  }

  lemma EncodeNext(units: seq<Unit>, i: nat)
    requires i < |units|
    ensures Encode(units[..i + 1]) == Encode(units[..i]) + PutUint32(|units[i]|) + units[i]
  {
    assert units[..i + 1] == units[..i] + [units[i]];
    EncodeConcat(units[..i], [units[i]]);
    EncodeOne(units[i]);
  }

  lemma EncodeParts(units: seq<Unit>, front: seq<Unit>, back: seq<Unit>)
    requires units == front + back
    ensures Encode(units) == Encode(front) + Encode(back)
  {
    EncodeConcat(front, back);
  }

  /**
   * Reading the spliced sample yields the original units with the SEI inserted. Taking its bytes out again
   * restores the sample, up to the bytes behind its last unit; these are empty exactly for samples that
   * consist of whole units.
   */
  lemma SplicePreserves(data: seq<byte>, sei: Unit, k: nat)
    requires Split(data).ok && |sei| < TWO32 && k <= |Split(data).units|
    ensures var units := Split(data).units;
            var front, back := Encode(units[..k]), Encode(units[k..]);
            && Split(Encode(Inserted(units, k, sei))) == Parsed(Inserted(units, k, sei), true)
            && Encode(Inserted(units, k, sei)) == front + Prefixed(sei) + back
            && (front + back == data <==> Tail(data) == [])
            && front + back + Tail(data) == data && |Tail(data)| < 4
  {
    var units := Split(data).units;
    EncodeSplit(data);
    EncodeParts(units, units[..k], units[k..]);
    EncodeAround(units[..k], sei, units[k..]);
    SplitEncode(Inserted(units, k, sei));
  }

  /** Splicing again puts the next SEI behind the previous one, still directly before the first coded slice. */
  lemma SpliceAgain(units: seq<Unit>, vcl: SliceTest, k: nat, sei: Unit, k': nat)
    requires FirstVCL(units, vcl, k) && !IsVCL(vcl, sei)
    requires k' <= |units| + 1
    ensures FirstVCL(Inserted(units, k, sei), vcl, k') <==> k' == k + 1
  {
    var spliced := Inserted(units, k, sei);
    assert spliced[k] == sei;
    assert forall i :: 0 <= i < k ==> spliced[i] == units[i];
    if k < |units| {
      assert spliced[k + 1] == units[k];
    }
  }
}
