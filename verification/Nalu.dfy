/** The 4-byte length-prefixed format in which samples carry their NAL units. */
module Nalu {
  import opened Arith
  import opened Bytes

  type Unit = seq<byte>

  /** The lowest n base-256 digits of v, most significant first. */
  function BigEndian(v: nat, n: nat): (r: seq<byte>)
    ensures |r| == n
  {
    if n == 0 then [] else BigEndian(v / 256, n - 1) + [LowByte(v)]
  }

  function LowByte(v: nat): byte {
    var r: int := v % 256;
    r
  }

  /** The number with the given base-256 digits. */
  function FromBigEndian(bs: seq<byte>): nat {
    if bs == [] then 0 else FromBigEndian(bs[..|bs| - 1]) * 256 + (bs[|bs| - 1] as int)
  }

  /** v as four bytes, modulo 2^32. */
  function PutUint32(v: nat): (r: seq<byte>)
    ensures |r| == 4
  {
    BigEndian(v, 4)
  }

  function Uint32(bs: seq<byte>): nat
    requires 4 <= |bs|
  {
    FromBigEndian(bs[..4])
  }

  function Pow256(n: nat): nat {
    if n == 0 then 1 else 256 * Pow256(n - 1)
  }

  lemma {:induction false} DigitsRoundTrip(v: nat, n: nat)
    requires v < Pow256(n)
    ensures FromBigEndian(BigEndian(v, n)) == v
  {
    if 0 < n {
      DigitsRoundTrip(v / 256, n - 1);
      assert BigEndian(v, n)[..n - 1] == BigEndian(v / 256, n - 1);
    }
  }

  lemma {:induction false} NumberRoundTrip(bs: seq<byte>)
    ensures FromBigEndian(bs) < Pow256(|bs|)
    ensures BigEndian(FromBigEndian(bs), |bs|) == bs
  {
    if bs != [] {
      NumberRoundTrip(bs[..|bs| - 1]);
      var low: int := bs[|bs| - 1];
      var v := FromBigEndian(bs);
      assert v / 256 == FromBigEndian(bs[..|bs| - 1]) && v % 256 == low;
    }
  }

  lemma Uint32RoundTrip(v: nat, rest: seq<byte>)
    requires v < TWO32
    ensures Uint32(PutUint32(v) + rest) == v
  {
    assert (PutUint32(v) + rest)[..4] == PutUint32(v);
    assert Pow256(2) == 65536 && Pow256(4) == 256 * (256 * Pow256(2));
    DigitsRoundTrip(v, 4);
  }

  lemma PutUint32RoundTrip(bs: seq<byte>)
    requires 4 <= |bs|
    ensures Uint32(bs) < TWO32
    ensures PutUint32(Uint32(bs)) == bs[..4]
  {
    assert Pow256(2) == 65536 && Pow256(4) == 256 * (256 * Pow256(2));
    NumberRoundTrip(bs[..4]);
  }

  /** The first of the four bytes of a length counts most. */
  lemma Uint32Bytes(a: byte, b: byte, c: byte, d: byte, rest: seq<byte>)
    ensures Uint32([a, b, c, d] + rest) == a * 0x100_0000 + b * 0x1_0000 + c * 0x100 + d
  {
    assert ([a, b, c, d] + rest)[..4] == [a, b, c, d];
    assert [a, b, c, d][..3] == [a, b, c] && [a, b, c][..2] == [a, b] && [a, b][..1] == [a];
    assert FromBigEndian([]) == 0;
    assert FromBigEndian([a]) == a && FromBigEndian([a, b]) == a * 0x100 + b;
    assert FromBigEndian([a, b, c]) == a * 0x1_0000 + b * 0x100 + c;
  }

  lemma PutUint32Bytes(v: nat)
    ensures var bs := PutUint32(v);
            && bs[0] == v / 0x100_0000 % 0x100 && bs[1] == v / 0x1_0000 % 0x100
            && bs[2] == v / 0x100 % 0x100 && bs[3] == v % 0x100
  {
    var v1, v2, v3 := v / 256, v / 256 / 256, v / 256 / 256 / 256;
    assert v2 == v / 0x1_0000 && v3 == v / 0x100_0000;
    assert BigEndian(v3, 1) == [] + [LowByte(v3)];
    assert BigEndian(v2, 2) == BigEndian(v3, 1) + [LowByte(v2)];
    assert BigEndian(v1, 3) == BigEndian(v2, 2) + [LowByte(v1)];
    assert BigEndian(v, 4) == BigEndian(v1, 3) + [LowByte(v)];
  }

  /** A unit with its length in front. */
  function Prefixed(u: Unit): (r: seq<byte>)
    ensures |r| == 4 + |u|
  {
    PutUint32(|u|) + u
  }

  function Encode(units: seq<Unit>): seq<byte> {
    if units == [] then [] else Prefixed(units[0]) + Encode(units[1..])
  }

  /** The units read off the front of data, and whether the last length read was within bounds. */
  datatype Parsed = Parsed(units: seq<Unit>, ok: bool)

  /** Reads units while at least four bytes are left; a length beyond the data ends the reading with an error. */
  function Split(data: seq<byte>): Parsed
    decreases |data|
  {
    if |data| < 4 then Parsed([], true)
    else if |data| - 4 < Uint32(data) then Parsed([], false)
    else
      var n := Uint32(data);
      var rest := Split(data[4 + n..]);
      Parsed([data[4..4 + n]] + rest.units, rest.ok)
  }

  lemma {:induction false} EncodeConcat(us: seq<Unit>, vs: seq<Unit>)
    ensures Encode(us + vs) == Encode(us) + Encode(vs)
  {
    if us == [] {
      assert us + vs == vs;
    } else {
      assert (us + vs)[1..] == us[1..] + vs;
      EncodeConcat(us[1..], vs);
    }
  }

  lemma EncodeOne(u: Unit)
    ensures Encode([u]) == Prefixed(u)
  {
    assert [u][1..] == [];
  }

  lemma EncodeCons(u: Unit, us: seq<Unit>)
    ensures Encode([u] + us) == Prefixed(u) + Encode(us)
  {
    assert ([u] + us)[1..] == us;
  }

  lemma EncodeAround(pre: seq<Unit>, u: Unit, post: seq<Unit>)
    ensures Encode(pre + [u] + post) == Encode(pre) + Prefixed(u) + Encode(post)
  {
    EncodeConcat(pre, [u]);
    EncodeConcat(pre + [u], post);
    EncodeOne(u);
  }

  /** Every length fits its four bytes. */
  ghost predicate Encodable(units: seq<Unit>) {
    forall u :: u in units ==> |u| < TWO32
  }

  lemma HeadTail<T>(s: seq<T>, t: seq<T>)
    requires s != []
    ensures [s[0]] + (s[1..] + t) == s + t
  {
  }

  lemma SplitCons(u: Unit, rest: seq<byte>)
    requires |u| < TWO32
    ensures Split(Prefixed(u) + rest) == Parsed([u] + Split(rest).units, Split(rest).ok)
  {
    var data := Prefixed(u) + rest;
    assert data == PutUint32(|u|) + (u + rest);
    Uint32RoundTrip(|u|, u + rest);
    assert data[4..4 + |u|] == u && data[4 + |u|..] == rest;
  }

  /** Four bytes that state the length of u, in front of it, are its encoding, and it is read as the first unit. */
  lemma UnitBytes(a: byte, b: byte, c: byte, d: byte, u: Unit, rest: seq<byte>)
    requires |u| == a * 0x100_0000 + b * 0x1_0000 + c * 0x100 + d
    ensures Encode([u]) == [a, b, c, d] + u
    ensures Split([a, b, c, d] + u + rest) == Parsed([u] + Split(rest).units, Split(rest).ok)
  {
    Uint32Bytes(a, b, c, d, []);
    assert [a, b, c, d] + [] == [a, b, c, d];
    PutUint32RoundTrip([a, b, c, d]);
    assert [a, b, c, d][..4] == [a, b, c, d];
    EncodeOne(u);
    SplitCons(u, rest);
  }

  /** Four bytes that state more than there is are read as an error. */
  lemma ExcessBytes(a: byte, b: byte, c: byte, d: byte, rest: seq<byte>)
    requires |rest| < a * 0x100_0000 + b * 0x1_0000 + c * 0x100 + d
    ensures Split([a, b, c, d] + rest) == Parsed([], false)
  {
    Uint32Bytes(a, b, c, d, rest);
  }

  /** Reading back encoded units yields the units, followed by whatever comes after them. */
  lemma {:induction false} SplitEncoded(units: seq<Unit>, rest: seq<byte>)
    requires Encodable(units)
    ensures Split(Encode(units) + rest) == Parsed(units + Split(rest).units, Split(rest).ok)
  {
    if units == [] {
      assert Encode(units) + rest == rest;
    } else {
      var tail := Encode(units[1..]) + rest;
      assert Encode(units) + rest == Prefixed(units[0]) + tail;
      assert Split(tail) == Parsed(units[1..] + Split(rest).units, Split(rest).ok) by {
        SplitEncoded(units[1..], rest);
      }
      SplitCons(units[0], tail);
      HeadTail(units, Split(rest).units);
    }
  }

  lemma SplitEncode(units: seq<Unit>)
    requires Encodable(units)
    ensures Split(Encode(units)) == Parsed(units, true)
  {
    SplitEncoded(units, []);
    assert Encode(units) + [] == Encode(units);
    assert units + [] == units;
  }

  /** What is left of data behind the units read from it. */
  function Tail(data: seq<byte>): seq<byte>
    decreases |data|
  {
    if |data| < 4 || |data| - 4 < Uint32(data) then data else Tail(data[4 + Uint32(data)..])
  }

  lemma Regroup(a: seq<byte>, b: seq<byte>, c: seq<byte>)
    ensures a + b + c == a + (b + c)
  {
  }

  /** Data that start with a whole unit u, and the rest behind it. */
  lemma FirstOfData(data: seq<byte>, n: nat, u: Unit, rest: seq<byte>)
    requires 4 + n <= |data| && n == Uint32(data) && u == data[4..4 + n] && rest == data[4 + n..]
    ensures |u| < TWO32 && data == Prefixed(u) + rest
    ensures Split(data).units == [u] + Split(rest).units
  {
    PutUint32RoundTrip(data);
  }

  /** The data are the units read, re-encoded, plus a tail too short for a length or for the length it states. */
  lemma {:induction false} EncodeSplit(data: seq<byte>)
    ensures Encodable(Split(data).units)
    ensures Encode(Split(data).units) + Tail(data) == data
    ensures Split(data).ok <==> |Tail(data)| < 4
    ensures !Split(data).ok ==> |Tail(data)| - 4 < Uint32(Tail(data))
    decreases |data|
  {
    if |data| < 4 || |data| - 4 < Uint32(data) {
    } else {
      var u, rest := data[4..4 + Uint32(data)], data[4 + Uint32(data)..];
      EncodeSplit(rest);
      FirstOfData(data, Uint32(data), u, rest);
      EncodeCons(u, Split(rest).units);
      Regroup(Prefixed(u), Encode(Split(rest).units), Tail(rest));
    }
  }
}
