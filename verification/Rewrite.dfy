/**
 * The in-place rewrite of a sample: units that are kept are written, length-prefixed, to the front of the
 * very bytes that are still being read; parameter sets found on the way are captured as slices of them.
 */
module Rewrite {
  import opened Bytes
  import opened Nalu

  datatype Kind = VPS | SPS | PPS | Keep | Drop

  /** What a codec does with a unit; the codecs decide by the type in the unit's first byte. */
  type Kinds = Unit -> Kind

  function Classify(kind: Kinds, u: Unit): Kind {
    kind(u)
  }

  /** The source reads the first byte of every unit; an empty unit is outside its domain. */
  ghost predicate NonEmpty(units: seq<Unit>) {
    forall i :: 0 <= i < |units| ==> units[i] != []
  }

  // ---- What a rewrite keeps ----

  /** The units written back, in order. */
  ghost function Kept(units: seq<Unit>, kind: Kinds): seq<Unit> {
    if units == [] then []
    else if Classify(kind, units[0]) == Keep then [units[0]] + Kept(units[1..], kind)
    else Kept(units[1..], kind)
  }

  lemma {:induction false} KeptAreUnits(us: seq<Unit>, kind: Kinds)
    ensures forall u :: u in Kept(us, kind) <==> u in us && Classify(kind, u) == Keep
    ensures |Encode(Kept(us, kind))| <= |Encode(us)|
  {
    if us != [] {
      KeptAreUnits(us[1..], kind);
      EncodeCons(us[0], Kept(us[1..], kind));
    }
  }

  /** Rewriting the kept units keeps them all. */
  lemma {:induction false} KeptIsStable(us: seq<Unit>, kind: Kinds)
    ensures Kept(Kept(us, kind), kind) == Kept(us, kind)
  {
    if us != [] {
      KeptIsStable(us[1..], kind);
      assert ([us[0]] + Kept(us[1..], kind))[1..] == Kept(us[1..], kind);
    }
  }

  /** Rewriting a rewritten sample changes nothing: its units are exactly the kept ones, and all are kept again. */
  lemma RewriteIsIdempotent(data: seq<byte>, kind: Kinds)
    ensures var out := Encode(Kept(Split(data).units, kind));
            && Split(out) == Parsed(Kept(Split(data).units, kind), true)
            && Encode(Kept(Split(out).units, kind)) == out
  {
    EncodeSplit(data);
    KeptAreUnits(Split(data).units, kind);
    KeptIsStable(Split(data).units, kind);
    SplitEncode(Kept(Split(data).units, kind));
  }

  // ---- Captured parameter sets ----

  /** A parameter set given by the sample entry, or a slice of the sample buffer. */
  datatype NaluRef = Given(unit: Unit) | InSample(off: nat, len: nat)

  /** The bytes a reference stands for, given the present contents of the buffer. */
  function Deref(r: NaluRef, b: seq<byte>): Unit {
    match r
    case Given(u) => u
    case InSample(off, len) => if off + len <= |b| then b[off..off + len] else []
  }

  ghost predicate Present(refs: seq<NaluRef>, u: Unit, b: seq<byte>) {
    exists i :: 0 <= i < |refs| && Deref(refs[i], b) == u
  }

  ghost function AppendNew(refs: seq<NaluRef>, r: NaluRef, b: seq<byte>): seq<NaluRef> {
    if Present(refs, Deref(r, b), b) then refs else refs + [r]
  }

  /** Appends a unit unless its bytes equal those an entry of the list stands for at this moment. */
  method AppendNewNALU(refs: seq<NaluRef>, r: NaluRef, buf: array<byte>) returns (out: seq<NaluRef>)
    ensures out == AppendNew(refs, r, buf[..])
  {
    for i := 0 to |refs|
      invariant forall j :: 0 <= j < i ==> Deref(refs[j], buf[..]) != Deref(r, buf[..])
    {
      if Deref(refs[i], buf[..]) == Deref(r, buf[..]) {
        return refs;
      }
    }
    out := refs + [r];
  }

  datatype ParamSets = ParamSets(vps: seq<NaluRef>, sps: seq<NaluRef>, pps: seq<NaluRef>)

  ghost function Capture(sets: ParamSets, k: Kind, r: NaluRef, b: seq<byte>): ParamSets {
    match k
    case VPS => sets.(vps := AppendNew(sets.vps, r, b))
    case SPS => sets.(sps := AppendNew(sets.sps, r, b))
    case PPS => sets.(pps := AppendNew(sets.pps, r, b))
    case _ => sets
  }

  /** Captures a parameter set; any other unit leaves the sets alone. */
  method CaptureUnit(sets: ParamSets, k: Kind, ref: NaluRef, buf: array<byte>) returns (sets': ParamSets)
    ensures sets' == Capture(sets, k, ref, buf[..])
  {
    sets' := sets;
    match k {
      case VPS =>
        var vps := AppendNewNALU(sets.vps, ref, buf);
        sets' := sets.(vps := vps);
      case SPS =>
        var sps := AppendNewNALU(sets.sps, ref, buf);
        sets' := sets.(sps := sps);
      case PPS =>
        var pps := AppendNewNALU(sets.pps, ref, buf);
        sets' := sets.(pps := pps);
      case _ =>
    }
  }

  // ---- Writing into the buffer ----

  /** b with the bytes s written over it from position w on. */
  ghost function Overwrite(b: seq<byte>, w: nat, s: seq<byte>): (r: seq<byte>)
    requires w + |s| <= |b|
    ensures |r| == |b|
    ensures forall k :: 0 <= k < |b| ==> r[k] == if w <= k < w + |s| then s[k - w] else b[k]
  {
    b[..w] + s + b[w + |s|..]
  }

  /** Writing s and then t right behind it is writing s + t. */
  lemma OverwriteAppend(b: seq<byte>, w: nat, s: seq<byte>, t: seq<byte>)
    requires w + |s| + |t| <= |b|
    ensures Overwrite(Overwrite(b, w, s), w + |s|, t) == Overwrite(b, w, s + t)
  {
  }

  /** What overwriting leaves alone. */
  lemma OverwriteFrame(b: seq<byte>, w: nat, s: seq<byte>, from: nat, to: nat)
    requires w + |s| <= |b| && from <= to <= |b|
    requires to <= w || w + |s| <= from
    ensures Overwrite(b, w, s)[from..to] == b[from..to]
  {
  }

  lemma OverwriteParts(b: seq<byte>, w: nat, s: seq<byte>, end: nat)
    requires w + |s| == end <= |b|
    ensures var r := Overwrite(b, w, s); r[..w] == b[..w] && r[w..end] == s && r[end..] == b[end..]
  {
  }

  method PutBytes(buf: array<byte>, w: nat, s: seq<byte>)
    requires w + |s| <= buf.Length
    modifies buf
    ensures buf[..] == Overwrite(old(buf[..]), w, s)
  {
    ghost var pre := buf[..];
    forall k | 0 <= k < |s| {
      buf[w + k] := s[k];
    }
    forall k | 0 <= k < buf.Length
      ensures buf[k] == if w <= k < w + |s| then s[k - w] else pre[k]
    {
      if w <= k < w + |s| {
        assert buf[w + (k - w)] == s[k - w];
      }
    }
  }

  /** Copies bytes towards the front of the buffer; the two ranges may overlap. */
  method MoveBytes(buf: array<byte>, w: nat, off: nat, len: nat)
    requires w <= off && off + len <= buf.Length
    modifies buf
    ensures buf[..] == Overwrite(old(buf[..]), w, old(buf[off..off + len]))
  {
    ghost var pre := buf[..];
    forall k | 0 <= k < len {
      buf[w + k] := buf[off + k];
    }
    forall k | 0 <= k < buf.Length
      ensures buf[k] == if w <= k < w + len then pre[off + (k - w)] else pre[k]
    {
      if w <= k < w + len {
        assert buf[w + (k - w)] == pre[off + (k - w)];
      }
    }
  }

  /**
   * Appends a length and the len bytes at off to the prefix of the buffer that ends at w. Writing stays
   * behind reading: the length ends at or before off, so no byte is overwritten before it is read.
   */
  method WriteUnit(buf: array<byte>, w: nat, off: nat, len: nat, ghost u: Unit)
    requires w + 4 <= off && off + len <= buf.Length && u == buf[..][off..off + len]
    modifies buf
    ensures buf[..] == Overwrite(old(buf[..]), w, Prefixed(u))
  {
    ghost var pre := buf[..];
    OverwriteFrame(pre, w, PutUint32(len), off, off + len);
    PutBytes(buf, w, PutUint32(len));
    assert buf[off..off + len] == u;
    MoveBytes(buf, w + 4, off, len);
    OverwriteAppend(pre, w, PutUint32(len), u);
  }

  // ---- The rewrite ----

  /** Buffer contents, write position and parameter sets between two units. */
  datatype State = State(now: seq<byte>, w: nat, sets: ParamSets)

  /** The effect of the unit u whose length prefix is at r. */
  ghost function Turn(s: State, r: nat, u: Unit, kind: Kinds): (t: State)
    requires s.w <= r && r + 4 + |u| <= |s.now|
    ensures |t.now| == |s.now| && t.w <= r + 4 + |u|
  {
    var k := Classify(kind, u);
    State(if k == Keep then Overwrite(s.now, s.w, Prefixed(u)) else s.now,
          if k == Keep then s.w + 4 + |u| else s.w,
          Capture(s.sets, k, InSample(r + 4, |u|), s.now))
  }

  /** Where the unit u, whose length prefix is at r, ends. */
  function Behind(r: nat, u: Unit): nat {
    r + 4 + |u|
  }

  /** The effect of the units us, which take up the bytes from r on. */
  ghost function Final(s: State, r: nat, us: seq<Unit>, kind: Kinds): State
    requires s.w <= r && r + |Encode(us)| <= |s.now|
    decreases us
  {
    if us == [] then s else Final(Turn(s, r, us[0], kind), Behind(r, us[0]), us[1..], kind)
  }

  lemma SameSlice(x: seq<byte>, y: seq<byte>, to: nat, from: nat, a: nat, b: nat)
    requires |x| == |y| && to <= |x| && from <= |x| && x[..to] == y[..to] && x[from..] == y[from..]
    requires a <= b <= |x| && (b <= to || from <= a)
    ensures x[a..b] == y[a..b]
  {
    if b <= to {
      assert x[a..b] == x[..to][a..b] && y[a..b] == y[..to][a..b];
    } else {
      forall p | a <= p < b
        ensures x[p] == y[p]
      {
        assert x[p] == x[from..][p - from] && y[p] == y[from..][p - from];
      }
    }
  }

  /** What is left to read between r and hi. */
  ghost function Unread(now: seq<byte>, r: nat, hi: nat): Parsed
    requires r <= hi <= |now|
  {
    Split(now[r..hi])
  }

  lemma SubSlice(s: seq<byte>, from: nat, to: nat, i: nat, j: nat, a: nat, b: nat)
    requires from <= to <= |s| && i <= j <= to - from
    requires a == from + i && b == from + j
    ensures s[from..to][i..j] == s[a..b]
  {
    var inner := s[from..to];
    var x, y := inner[i..j], s[a..b];
    forall k | 0 <= k < |x|
      ensures x[k] == y[k]
    {
      assert x[k] == inner[i + k] == s[from + (i + k)] == y[k];
    }
  }

  /** Handling a unit leaves everything behind it intact. */
  lemma TurnFrame(s: State, r: nat, u: Unit, kind: Kinds, from: nat, to: nat)
    requires s.w <= r && r + 4 + |u| <= |s.now|
    requires from <= to <= |s.now|
    requires to <= s.w || r + 4 + |u| <= from
    ensures Turn(s, r, u, kind).now[from..to] == s.now[from..to]
  {
    if Classify(kind, u) == Keep {
      OverwriteFrame(s.now, s.w, Prefixed(u), from, to);
    }
  }

  lemma TurnParts(s: State, r: nat, u: Unit, kind: Kinds, k: Kind, t: State)
    requires s.w <= r && r + 4 + |u| <= |s.now| && k == Classify(kind, u)
    requires t.now == if k == Keep then Overwrite(s.now, s.w, Prefixed(u)) else s.now
    requires t.w == if k == Keep then s.w + 4 + |u| else s.w
    requires t.sets == Capture(s.sets, k, InSample(r + 4, |u|), s.now)
    ensures t == Turn(s, r, u, kind)
  {
  }

  /** Writes the unit back if it is one to keep. */
  method KeepUnit(buf: array<byte>, w: nat, off: nat, len: nat, k: Kind, ghost u: Unit) returns (w': nat)
    requires w + 4 <= off && off + len <= buf.Length && u == buf[..][off..off + len]
    modifies buf
    ensures buf[..] == if k == Keep then Overwrite(old(buf[..]), w, Prefixed(u)) else old(buf[..])
    ensures w' == if k == Keep then w + 4 + |u| else w
  {
    w' := w;
    if k == Keep {
      WriteUnit(buf, w, off, len, u);
      w' := w + 4 + len;
    }
  }

  /** One turn of the rewrite loop: the unit of length len at r + 4 is captured, written back or dropped. */
  method HandleUnit(buf: array<byte>, w: nat, r: nat, len: nat, kind: Kinds, sets: ParamSets, ghost u: Unit)
    returns (w': nat, sets': ParamSets)
    requires w <= r && r + 4 + len <= buf.Length
    requires u == buf[..][r + 4..r + 4 + len] && u != []
    modifies buf
    ensures State(buf[..], w', sets') == Turn(State(old(buf[..]), w, sets), r, u, kind)
  {
    ghost var s := State(buf[..], w, sets);
    assert |u| == len;
    var unit := buf[..][r + 4..r + 4 + len];
    var k := Classify(kind, unit);
    sets' := CaptureUnit(sets, k, InSample(r + 4, len), buf);
    w' := KeepUnit(buf, w, r + 4, len, k, u);
    TurnParts(s, r, u, kind, k, State(buf[..], w', sets'));
  }

  /** What rewriting the bytes from r to hi leads to, starting from s. */
  ghost function Rewritten(s: State, r: nat, hi: nat, kind: Kinds): State
    requires s.w <= r <= hi <= |s.now|
  {
    EncodeSplit(s.now[r..hi]);
    Final(s, r, Unread(s.now, r, hi).units, kind)
  }

  /** Where the source reads a length that is within bounds, it reads the next unit of the sample. */
  lemma NextUnit(now: seq<byte>, r: nat, hi: nat, n: nat, u: Unit, next: nat)
    requires next == r + 4 + n <= hi <= |now|
    requires n == Uint32(now[r..hi]) && u == now[r + 4..r + 4 + n]
    ensures Unread(now, r, hi) == Parsed([u] + Unread(now, next, hi).units, Unread(now, next, hi).ok)
  {
    SubSlice(now, r, hi, 4, 4 + n, r + 4, next);
    SubSlice(now, r, hi, 4 + n, hi - r, next, hi);
    assert now[r..hi][4 + n..] == now[r..hi][4 + n..hi - r];
  }

  lemma FinalStep(s: State, r: nat, u: Unit, rest: seq<Unit>, next: nat, kind: Kinds)
    requires next == Behind(r, u)
    requires s.w <= r && r + |Encode([u] + rest)| <= |s.now|
    ensures next + |Encode(rest)| <= |s.now|
    ensures Final(s, r, [u] + rest, kind) == Final(Turn(s, r, u, kind), next, rest, kind)
  {
    assert ([u] + rest)[1..] == rest;
  }

  /** Handling that unit does not change what is read behind it, nor where the rewrite leads. */
  lemma TurnKeepsGoal(s: State, r: nat, hi: nat, n: nat, u: Unit, next: nat, kind: Kinds)
    requires s.w <= r && next == r + 4 + n <= hi <= |s.now|
    requires n == Uint32(s.now[r..hi]) && u == s.now[r + 4..r + 4 + n]
    ensures var t := Turn(s, r, u, kind);
            && Unread(s.now, r, hi) == Parsed([u] + Unread(t.now, next, hi).units, Unread(t.now, next, hi).ok)
            && Rewritten(t, next, hi, kind) == Rewritten(s, r, hi, kind)
  {
    NextUnit(s.now, r, hi, n, u, next);
    TurnFrame(s, r, u, kind, next, hi);
    EncodeSplit(s.now[r..hi]);
    FinalStep(s, r, u, Unread(s.now, next, hi).units, next, kind);
  }

  /** The rewrite loop between units: handling what is still unread leads to goal. */
  ghost predicate Midway(s: State, r: nat, hi: nat, kind: Kinds, ok: bool, goal: State) {
    && s.w <= r <= hi <= |s.now|
    && NonEmpty(Unread(s.now, r, hi).units)
    && Unread(s.now, r, hi).ok == ok
    && Rewritten(s, r, hi, kind) == goal
  }

  lemma MidwayStep(s: State, r: nat, hi: nat, n: nat, u: Unit, next: nat, kind: Kinds, ok: bool, goal: State)
    requires Midway(s, r, hi, kind, ok, goal)
    requires next == r + 4 + n <= hi && n == Uint32(s.now[r..hi]) && u == s.now[r + 4..r + 4 + n]
    ensures u != []
    ensures Midway(Turn(s, r, u, kind), next, hi, kind, ok, goal)
  {
    TurnKeepsGoal(s, r, hi, n, u, next, kind);
    var t := Turn(s, r, u, kind);
    var rest := Unread(t.now, next, hi).units;
    assert u == ([u] + rest)[0];
    assert forall i :: 0 <= i < |rest| ==> rest[i] == ([u] + rest)[i + 1];
  }

  /** Handles the unit of length len at r and leaves the loop midway again. */
  method NextTurn(buf: array<byte>, w: nat, r: nat, len: nat, kind: Kinds, sets: ParamSets,
                  hi: nat, ghost ok: bool, ghost goal: State)
    returns (w': nat, sets': ParamSets, next: nat)
    requires Midway(State(buf[..], w, sets), r, hi, kind, ok, goal)
    requires r + 4 + len <= hi && len == Uint32(buf[..][r..hi])
    modifies buf
    ensures next == r + 4 + len <= hi && Unread(buf[..], next, hi) == Unread(old(buf[..]), next, hi)
    ensures Midway(State(buf[..], w', sets'), next, hi, kind, ok, goal)
  {
    next := r + 4 + len;
    ghost var u := buf[..][r + 4..next];
    TurnFrame(State(buf[..], w, sets), r, u, kind, next, hi);
    MidwayStep(State(buf[..], w, sets), r, hi, len, u, next, kind, ok, goal);
    w', sets' := HandleUnit(buf, w, r, len, kind, sets, u);
  }

  /** The bytes that handling the unit u appends. */
  ghost function Appended(u: Unit, kind: Kinds): seq<byte> {
    if Classify(kind, u) == Keep then Prefixed(u) else []
  }

  lemma EncodeKept(us: seq<Unit>, kind: Kinds)
    requires us != []
    ensures Encode(Kept(us, kind)) == Appended(us[0], kind) + Encode(Kept(us[1..], kind))
  {
    EncodeCons(us[0], Kept(us[1..], kind));
  }

  /** Appending the bytes t after one turn is appending both that turn's bytes and t. */
  lemma TurnAppend(s: State, r: nat, u: Unit, kind: Kinds, t: seq<byte>)
    requires s.w <= r && r + 4 + |u| + |t| <= |s.now|
    ensures Turn(s, r, u, kind).w == s.w + |Appended(u, kind)|
    ensures Overwrite(Turn(s, r, u, kind).now, Turn(s, r, u, kind).w, t)
            == Overwrite(s.now, s.w, Appended(u, kind) + t)
  {
    if Classify(kind, u) == Keep {
      OverwriteAppend(s.now, s.w, Prefixed(u), t);
    } else {
      assert [] + t == t;
    }
  }

  lemma {:induction false} FinalMeaning(s: State, r: nat, us: seq<Unit>, kind: Kinds)
    requires s.w <= r && r + |Encode(us)| <= |s.now|
    ensures s.w + |Encode(Kept(us, kind))| <= r + |Encode(us)|
    ensures Final(s, r, us, kind).w == s.w + |Encode(Kept(us, kind))|
    ensures Final(s, r, us, kind).now == Overwrite(s.now, s.w, Encode(Kept(us, kind)))
    decreases us
  {
    if us == [] {
      assert Overwrite(s.now, s.w, []) == s.now;
    } else {
      var u, rest, next := us[0], us[1..], Behind(r, us[0]);
      var k := Encode(Kept(rest, kind));
      KeptAreUnits(rest, kind);
      EncodeKept(us, kind);
      TurnAppend(s, r, u, kind, k);
      var t := Turn(s, r, u, kind);
      FinalMeaning(t, next, rest, kind);
      assert Final(s, r, us, kind) == Final(t, next, rest, kind);
      assert Overwrite(t.now, t.w, k) == Overwrite(s.now, s.w, Encode(Kept(us, kind)));
    }
  }

  /**
   * A rewritten sample is the length-prefixed encoding of its kept units, in order, at the front of where it
   * was; no other byte of the buffer has changed.
   */
  lemma RewriteMeaning(b: seq<byte>, lo: nat, hi: nat, kind: Kinds, sets: ParamSets)
    requires lo <= hi <= |b|
    ensures var f := Rewritten(State(b, lo, sets), lo, hi, kind);
            && |f.now| == |b| && lo <= f.w <= hi
            && f.now[lo..f.w] == Encode(Kept(Split(b[lo..hi]).units, kind))
            && f.now[..lo] == b[..lo] && f.now[f.w..] == b[f.w..]
  {
    EncodeSplit(b[lo..hi]);
    var units := Split(b[lo..hi]).units;
    FinalMeaning(State(b, lo, sets), lo, units, kind);
    var f, k := Rewritten(State(b, lo, sets), lo, hi, kind), Encode(Kept(units, kind));
    assert f.now == Overwrite(b, lo, k) && f.w == lo + |k|;
    OverwriteParts(b, lo, k, f.w);
  }

  /**
   * HEVC: reads and rewrites unit by unit. A length that exceeds what is left of the sample is an error, by
   * which time every unit in front of it has had its effect.
   */
  method RewriteHEVC(buf: array<byte>, lo: nat, hi: nat, kind: Kinds, sets: ParamSets)
    returns (ok: bool, end: nat, sets': ParamSets)
    requires lo <= hi <= buf.Length && NonEmpty(Split(buf[..][lo..hi]).units)
    modifies buf
    ensures ok <==> Split(old(buf[..])[lo..hi]).ok
    ensures State(buf[..], end, sets') == Rewritten(State(old(buf[..]), lo, sets), lo, hi, kind)
  {
    ghost var whole, goal := Unread(buf[..], lo, hi).ok, Rewritten(State(buf[..], lo, sets), lo, hi, kind);
    var r := lo;
    end, sets', ok := lo, sets, true;
    while 4 <= hi - r
      invariant r <= hi && Midway(State(buf[..], end, sets'), r, hi, kind, whole, goal)
      decreases hi - r
    {
      var naluLen := Uint32(buf[..][r..hi]);
      if hi - r - 4 < naluLen {
        ok := false;
        break;
      }
      end, sets', r := NextTurn(buf, end, r, naluLen, kind, sets', hi, whole, goal);
    }
  }

  /** Where the units of a sample that starts at r lie: the slices of the sample they are handed out as. */
  function Places(us: seq<Unit>, r: nat): seq<(nat, nat)> {
    if us == [] then [] else [(r + 4, |us[0]|)] + Places(us[1..], r + 4 + |us[0]|)
  }

  /** The slices left to handle are those of the units left to read. */
  lemma NextPlace(now: seq<byte>, r: nat, hi: nat, places: seq<(nat, nat)>) returns (next: nat)
    requires r <= hi <= |now| && Unread(now, r, hi).ok
    requires places == Places(Unread(now, r, hi).units, r) && places != []
    ensures r + 4 <= hi && places[0] == (r + 4, Uint32(now[r..hi]))
    ensures next == r + 4 + Uint32(now[r..hi]) <= hi && places[1..] == Places(Unread(now, next, hi).units, next)
  {
    var n := Uint32(now[r..hi]);
    next := r + 4 + n;
    var u := now[r + 4..next];
    NextUnit(now, r, hi, n, u, next);
    var rest := Unread(now, next, hi).units;
    assert ([u] + rest)[1..] == rest;
  }

  /**
   * AVC: splits the sample first and leaves it alone when that fails; then handles the slices one by one,
   * each read from the buffer at its turn.
   */
  method RewriteAVC(buf: array<byte>, lo: nat, hi: nat, kind: Kinds, sets: ParamSets)
    returns (ok: bool, end: nat, sets': ParamSets)
    requires lo <= hi <= buf.Length && NonEmpty(Split(buf[..][lo..hi]).units)
    modifies buf
    ensures ok <==> Split(old(buf[..])[lo..hi]).ok
    ensures ok ==> State(buf[..], end, sets') == Rewritten(State(old(buf[..]), lo, sets), lo, hi, kind)
    ensures !ok ==> buf[..] == old(buf[..]) && end == hi && sets' == sets
  {
    var parsed := Split(buf[..][lo..hi]);
    if !parsed.ok {
      return false, hi, sets;
    }
    var nalus := Places(parsed.units, lo);
    ghost var goal := Rewritten(State(buf[..], lo, sets), lo, hi, kind);
    ghost var r := lo;
    end, sets', ok := lo, sets, true;
    for i := 0 to |nalus|
      invariant Midway(State(buf[..], end, sets'), r, hi, kind, true, goal)
      invariant nalus[i..] == Places(Unread(buf[..], r, hi).units, r)
    {
      var (off, len) := nalus[i];
      ghost var next := NextPlace(buf[..], r, hi, nalus[i..]);
      assert nalus[i..][0] == (off, len) && nalus[i..][1..] == nalus[i + 1..];
      end, sets', r := NextTurn(buf, end, off - 4, len, kind, sets', hi, true, goal);
      assert r == next;
    }
  }
}
