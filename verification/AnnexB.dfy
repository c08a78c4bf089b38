/** Reframing LOC video payloads to the start codes of an H.264 byte stream, and reading such a stream back. */
module AnnexB {
  import opened Bytes
  import opened Nalu

  const START_CODE: seq<byte> := [0, 0, 0, 1]

  /** The byte stream of the units: each behind a start code. */
  function Stream(units: seq<Unit>): seq<byte> {
    if units == [] then [] else START_CODE + units[0] + Stream(units[1..])
  }

  lemma {:induction false} StreamConcat(us: seq<Unit>, vs: seq<Unit>)
    ensures Stream(us + vs) == Stream(us) + Stream(vs)
  {
    if us == [] {
      assert us + vs == vs;
    } else {
      assert (us + vs)[1..] == us[1..] + vs;
      StreamConcat(us[1..], vs);
      assert START_CODE + us[0] + (Stream(us[1..]) + Stream(vs)) == START_CODE + us[0] + Stream(us[1..]) + Stream(vs);
    }
  }

  /** Every unit stands behind the four bytes 00 00 00 01. */
  lemma StreamBytes(us: seq<Unit>, u: Unit)
    ensures Stream(us + [u]) == Stream(us) + [0, 0, 0, 1] + u
  {
    StreamConcat(us, [u]);
    assert [u][1..] == [];
    assert Stream(us) + (START_CODE + u) == Stream(us) + START_CODE + u;
  }

  // ---- The writer ----

  /** An output that may fail, in which case some prefix of the bytes may have got through; failed remembers it. */
  class Sink {
    var written: seq<byte>
    var failed: bool

    method Write(bs: seq<byte>) returns (ok: bool)
      modifies this
      ensures failed == (old(failed) || !ok)
      ensures ok ==> written == old(written) + bs
      ensures !ok ==> exists n :: 0 <= n <= |bs| && written == old(written) + bs[..n]
    {
      ok := *;
      if ok {
        written := written + bs;
      } else {
        failed := true;
        var n :| 0 <= n <= |bs|;
        written := written + bs[..n];
      }
    }
  }

  datatype WriteResult = Done | LengthExceedsData | OutputFailed

  /** The sink has received some first part of bs. */
  ghost predicate PartOf(now: seq<byte>, before: seq<byte>, bs: seq<byte>) {
    exists n :: 0 <= n <= |bs| && now == before + bs[..n]
  }

  lemma PartExtends(now: seq<byte>, before: seq<byte>, done: seq<byte>, mid: seq<byte>, n: nat, rest: seq<byte>)
    requires n <= |mid| && now == before + done + mid[..n]
    ensures PartOf(now, before, done + mid + rest)
  {
    assert (done + mid + rest)[..|done| + n] == done + mid[..n];
  }

  /** Writes a start code and a unit. */
  method WriteCodeAndUnit(w: Sink, u: Unit) returns (ok: bool)
    modifies w
    ensures w.failed == (old(w.failed) || !ok)
    ensures ok ==> w.written == old(w.written) + (START_CODE + u)
    ensures !ok ==> PartOf(w.written, old(w.written), START_CODE + u)
  {
    ok := w.Write(START_CODE);
    if !ok {
      ghost var n :| 0 <= n <= 4 && w.written == old(w.written) + START_CODE[..n];
      assert START_CODE[..n] == (START_CODE + u)[..n];
      return;
    }
    ok := w.Write(u);
    if !ok {
      ghost var n :| 0 <= n <= |u| && w.written == old(w.written) + START_CODE + u[..n];
      assert START_CODE + u[..n] == (START_CODE + u)[..4 + n];
      assert w.written == old(w.written) + (START_CODE + u)[..4 + n];
    }
  }

  /** Writes the unit u between the units done, which are out already, and rest. */
  method WriteUnit(w: Sink, u: Unit, ghost before: seq<byte>, ghost done: seq<Unit>, ghost rest: seq<Unit>)
    returns (ok: bool)
    requires w.written == before + Stream(done)
    modifies w
    ensures w.failed == (old(w.failed) || !ok)
    ensures ok ==> w.written == before + Stream(done + [u])
    ensures !ok ==> PartOf(w.written, before, Stream(done + ([u] + rest)))
  {
    StreamStep(done, u, rest);
    ok := WriteCodeAndUnit(w, u);
    if !ok {
      ghost var n :| 0 <= n <= |START_CODE + u| && w.written == before + Stream(done) + (START_CODE + u)[..n];
      PartExtends(w.written, before, Stream(done), START_CODE + u, n, Stream(rest));
    }
  }

  /** The units already written, followed by what is split from the data left. */
  ghost function After(done: seq<Unit>, p: Parsed): Parsed {
    Parsed(done + p.units, p.ok)
  }

  /** The first unit of data, and what is split from behind it. */
  lemma SplitNext(data: seq<byte>, n: nat, done: seq<Unit>, u: Unit, behind: seq<byte>)
    requires 4 + n <= |data| && n == Uint32(data) && u == data[4..][..n] && behind == data[4..][n..]
    ensures After(done, Split(data)) == After(done + [u], Split(behind))
    ensures After(done, Split(data)).units == done + ([u] + Split(behind).units)
  {
    assert u == data[4..4 + n] && behind == data[4 + n..];
    assert done + ([u] + Split(behind).units) == done + [u] + Split(behind).units;
  }

  /** Nothing more can be split from data. */
  lemma SplitEnds(data: seq<byte>, done: seq<Unit>)
    requires |data| < 4 || |data| - 4 < Uint32(data)
    ensures After(done, Split(data)) == Parsed(done, |data| < 4)
  {
    assert done + [] == done;
  }

  /**
   * Writes the units of a LOC payload as a byte stream. A length beyond the payload is an error, after all
   * units in front of it have been written whole; when, and only when, the output fails, a part of the stream is out.
   */
  method WritePayload(w: Sink, payload: seq<byte>) returns (r: WriteResult)
    requires !w.failed
    modifies w
    ensures r == OutputFailed <==> w.failed
    ensures r == Done ==> Split(payload).ok
    ensures r == LengthExceedsData ==> !Split(payload).ok
    ensures r != OutputFailed ==> w.written == old(w.written) + Stream(Split(payload).units)
    ensures r == OutputFailed ==> PartOf(w.written, old(w.written), Stream(Split(payload).units))
  {
    ghost var before, done: seq<Unit> := w.written, [];
    assert [] + Split(payload).units == Split(payload).units;
    var data := payload;
    while 4 <= |data|
      invariant Split(payload) == After(done, Split(data))
      invariant w.written == before + Stream(done) && !w.failed
      decreases |data|
    {
      var naluLen := Uint32(data);
      if |data| - 4 < naluLen {
        SplitEnds(data, done);
        return LengthExceedsData;
      }
      ghost var all := data;
      data := data[4..];
      var u := data[..naluLen];
      data := data[naluLen..];
      SplitNext(all, naluLen, done, u, data);
      var ok := WriteUnit(w, u, before, done, Split(data).units);
      if !ok {
        return OutputFailed;
      }
      done := done + [u];
    }
    SplitEnds(data, done);
    r := Done;
  }

  lemma StreamStep(done: seq<Unit>, u: Unit, rest: seq<Unit>)
    ensures done + ([u] + rest) == done + [u] + rest
    ensures Stream(done + [u]) == Stream(done) + (START_CODE + u)
    ensures Stream(done + ([u] + rest)) == Stream(done) + (START_CODE + u) + Stream(rest)
  {
    StreamConcat(done, [u]);
    StreamConcat(done, [u] + rest);
    assert ([u] + rest)[1..] == rest;
    assert [u][1..] == [];
  }

  // ---- Reading the stream back ----

  /** Three bytes that end a unit: 00 00 00 or 00 00 01. */
  predicate StopAt(s: seq<byte>, i: nat) {
    i + 2 < |s| && s[i] == 0 && s[i + 1] == 0 && s[i + 2] <= 1
  }

  predicate CodeAt(s: seq<byte>, i: nat) {
    i + 2 < |s| && s[i] == 0 && s[i + 1] == 0 && s[i + 2] == 1
  }

  /** The first start code prefix 00 00 01 at or behind i. */
  function FindCode(s: seq<byte>, i: nat): (r: nat)
    requires i <= |s|
    ensures i <= r <= |s| && (r < |s| ==> CodeAt(s, r))
    decreases |s| - i
  {
    if i == |s| || CodeAt(s, i) then i else FindCode(s, i + 1)
  }

  /** Where the unit that starts at i ends. */
  function UnitEnd(s: seq<byte>, i: nat): (r: nat)
    requires i <= |s|
    ensures i <= r <= |s| && (r < |s| ==> StopAt(s, r))
    ensures forall j :: i <= j < r ==> !StopAt(s, j)
    decreases |s| - i
  {
    if i == |s| || StopAt(s, i) then i else UnitEnd(s, i + 1)
  }

  /** The units of a byte stream, as section B.1.1 of ITU-T H.264 delimits them. */
  function Read(s: seq<byte>): seq<Unit>
    decreases |s|
  {
    var code := FindCode(s, 0);
    if code == |s| then []
    else
      var body := s[code + 3..];
      var n := UnitEnd(body, 0);
      [body[..n]] + Read(body[n..])
  }

  /** A unit keeps its extent in a stream. */
  predicate Delimited(u: Unit, isLast: bool) {
    && (forall i :: 0 <= i < |u| ==> !StopAt(u, i))
    && (isLast || u == [] || u[|u| - 1] != 0)
  }

  predicate AllDelimited(units: seq<Unit>) {
    units == [] || (Delimited(units[0], |units| == 1) && AllDelimited(units[1..]))
  }

  /** Where a stop shows up when a unit is followed by a start code or by nothing. */
  lemma StopInBody(u: Unit, behind: seq<byte>, i: nat)
    requires i < |u|
    requires behind == [] || (3 <= |behind| && behind[0] == 0 && behind[1] == 0 && behind[2] == 0)
    ensures StopAt(u, i) ==> StopAt(u + behind, i)
    ensures StopAt(u + behind, i) ==> StopAt(u, i) || (behind != [] && u[|u| - 1] == 0)
    ensures behind != [] && i == |u| - 1 && u[i] == 0 ==> StopAt(u + behind, i)
  {
    var body := u + behind;
    assert body[i] == u[i];
    if i + 1 < |u| {
      assert body[i + 1] == u[i + 1];
    }
    if i + 2 < |u| {
      assert body[i + 2] == u[i + 2];
    }
  }

  lemma UnitEndInStream(u: Unit, behind: seq<byte>)
    requires behind == [] || (3 <= |behind| && behind[0] == 0 && behind[1] == 0 && behind[2] == 0)
    ensures Delimited(u, behind == []) ==> UnitEnd(u + behind, 0) == |u|
    ensures !Delimited(u, behind == []) ==> UnitEnd(u + behind, 0) < |u|
  {
    var body := u + behind;
    var n := UnitEnd(body, 0);
    if behind != [] {
      assert body[|u|] == 0 && body[|u| + 1] == 0 && body[|u| + 2] == 0;
      assert StopAt(body, |u|);
    }
    if Delimited(u, behind == []) {
      if n < |u| {
        StopInBody(u, behind, n);
      }
    } else if i: nat :| i < |u| && StopAt(u, i) {
      StopInBody(u, behind, i);
    } else {
      StopInBody(u, behind, |u| - 1);
    }
  }

  lemma ReadCode(body: seq<byte>)
    ensures var n := UnitEnd(body, 0);
            Read(START_CODE + body) == [body[..n]] + Read(body[n..])
  {
    var s := START_CODE + body;
    assert !CodeAt(s, 0) && CodeAt(s, 1);
    assert FindCode(s, 0) == 1;
    assert s[4..] == body;
  }

  /** Reading a stream whose first unit is delimited; otherwise less than that unit is read. */
  lemma ReadFirst(u: Unit, rest: seq<Unit>)
    ensures Delimited(u, rest == []) ==> Read(Stream([u] + rest)) == [u] + Read(Stream(rest))
    ensures !Delimited(u, rest == []) ==> Read(Stream([u] + rest)) != [] && |Read(Stream([u] + rest))[0]| < |u|
  {
    var behind := Stream(rest);
    assert ([u] + rest)[1..] == rest;
    assert Stream([u] + rest) == START_CODE + (u + behind);
    ReadCode(u + behind);
    UnitEndInStream(u, behind);
    assert (u + behind)[..|u|] == u && (u + behind)[|u|..] == behind;
  }

  /**
   * Reading a written stream back yields the units if and only if no unit contains 00 00 00 or 00 00 01 and
   * none but the last ends in a zero byte.
   */
  lemma {:induction false} ReadStream(units: seq<Unit>)
    ensures Read(Stream(units)) == units <==> AllDelimited(units)
  {
    if units != [] {
      var u, rest := units[0], units[1..];
      assert units == [u] + rest;
      ReadFirst(u, rest);
      ReadStream(rest);
      if Delimited(u, rest == []) {
        assert ([u] + Read(Stream(rest)))[1..] == Read(Stream(rest));
      }
    }
  }

  /** What section 7.4.1 of ITU-T H.264 asks of a NAL unit, as far as it matters here. */
  predicate WellFormedNAL(u: Unit) {
    && u != [] && u[|u| - 1] != 0
    && forall i :: 0 <= i < |u| - 2 ==> !(u[i] == 0 && u[i + 1] == 0 && u[i + 2] <= 2)
  }

  lemma {:induction false} WellFormedIsDelimited(units: seq<Unit>)
    requires forall i :: 0 <= i < |units| ==> WellFormedNAL(units[i])
    ensures AllDelimited(units)
  {
    if units != [] {
      assert WellFormedNAL(units[0]);
      WellFormedIsDelimited(units[1..]);
    }
  }

  /** Reframing a LOC payload of well-formed units loses nothing: the stream determines the units. */
  lemma ReframingIsLossless(us: seq<Unit>)
    requires Encodable(us) && forall i :: 0 <= i < |us| ==> WellFormedNAL(us[i])
    ensures Split(Encode(us)).ok && Read(Stream(Split(Encode(us)).units)) == us
  {
    SplitEncode(us);
    WellFormedIsDelimited(us);
    ReadStream(us);
  }

  /** Two lists of well-formed units with the same byte stream are the same list. */
  lemma StreamIsInjective(us: seq<Unit>, vs: seq<Unit>)
    requires forall i :: 0 <= i < |us| ==> WellFormedNAL(us[i])
    requires forall i :: 0 <= i < |vs| ==> WellFormedNAL(vs[i])
    requires Stream(us) == Stream(vs)
    ensures us == vs
  {
    WellFormedIsDelimited(us);
    WellFormedIsDelimited(vs);
    ReadStream(us);
    ReadStream(vs);
  }

  /** A truncated payload still splits into the first units of the whole one. */
  lemma {:induction false} TruncatedPayload(us: seq<Unit>, n: nat)
    requires Encodable(us) && n <= |Encode(us)|
    ensures Split(Encode(us)[..n]).units <= us
    ensures n == |Encode(us)| ==> Split(Encode(us)[..n]) == Parsed(us, true)
  {
    var data := Encode(us)[..n];
    if us == [] {
      assert data == [];
    } else {
      var u, rest := us[0], us[1..];
      assert u in us;
      if n < 4 + |u| {
        if 4 <= n {
          assert data == PutUint32(|u|) + u[..n - 4];
          Uint32RoundTrip(|u|, u[..n - 4]);
        }
      } else {
        var m := n - 4 - |u|;
        assert data == Prefixed(u) + Encode(rest)[..m];
        TruncatedPayload(rest, m);
        SplitCons(u, Encode(rest)[..m]);
        assert us == [u] + rest;
      }
    }
  }
}
