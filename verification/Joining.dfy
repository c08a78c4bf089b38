/** Joining a catalog track: a fetch for what was published, a subscription for what comes after it. */
module Joining {
  import opened Arith
  import opened Bytes
  import opened Options

  /** A place in a track: group, then object within the group; both are 64-bit numbers. */
  datatype Location = Location(group: nat, obj: nat) {
    predicate Fits() {
      group < TWO64 && obj < TWO64
    }
  }

  datatype CatalogObject = CatalogObject(loc: Location, payload: seq<byte>)

  // ---- Publisher ----

  predicate LocationLess(a: Location, b: Location) {
    if a.group != b.group then a.group < b.group else a.obj < b.obj
  }

  /** Whether loc is in the fetched range; an end object of 0 stands for the whole end group. */
  predicate LocationInFetchRange(loc: Location, start: Location, end: Location) {
    if LocationLess(loc, start) then false
    else if end.obj == 0 then loc.group <= end.group
    else LocationLess(loc, end)
  }

  /** Start and end of the joining fetch with offset 0 against a subscription whose largest location is given. */
  function JoiningRange(largest: Location): (Location, Location) {
    (Location(largest.group, 0), Location(largest.group, U64(largest.obj + 1)))
  }

  const CATALOG_LOCATION := Location(0, 0)

  /** The objects a fetch is answered with: the one catalog object if it is in range. */
  function ServeFetch(catalog: seq<byte>, start: Location, end: Location): seq<CatalogObject> {
    if LocationInFetchRange(CATALOG_LOCATION, start, end) then [CatalogObject(CATALOG_LOCATION, catalog)] else []
  }

  // ---- Subscriber ----

  predicate AfterLocation(o: Location, loc: Location) {
    if o.group != loc.group then loc.group < o.group else loc.obj < o.obj
  }

  /** Locations are totally ordered, and the two sides order them alike. */
  lemma OneOrder(a: Location, b: Location, c: Location)
    ensures AfterLocation(a, b) <==> LocationLess(b, a)
    ensures LocationLess(a, b) || a == b || LocationLess(b, a)
    ensures !(LocationLess(a, b) && LocationLess(b, a))
    ensures LocationLess(a, b) && LocationLess(b, c) ==> LocationLess(a, c)
  {
  }

  /**
   * The fetch and the filter of the subscription are exact complements: every location at or after the start
   * of the largest group is covered by exactly one of them, and an earlier one by neither. This includes
   * the largest object number, whose successor wraps around to the whole-group end.
   */
  lemma FetchAndFilterAreComplements(loc: Location, largest: Location)
    requires loc.Fits() && largest.Fits()
    ensures var (start, end) := JoiningRange(largest);
            && (LocationInFetchRange(loc, start, end) <==> !LocationLess(loc, start) && !AfterLocation(loc, largest))
            && (AfterLocation(loc, largest) ==> !LocationLess(loc, start))
  {
  }

  /** The payloads of the objects behind the given location, in order. */
  function Later(objs: seq<CatalogObject>, largest: Location): seq<seq<byte>> {
    if objs == [] then []
    else
      var n := |objs| - 1;
      if AfterLocation(objs[n].loc, largest) then Later(objs[..n], largest) + [objs[n].payload]
      else Later(objs[..n], largest)
  }

  /** The payloads of the objects in a fetched range, in order. */
  function Fetched(objs: seq<CatalogObject>, start: Location, end: Location): seq<seq<byte>> {
    if objs == [] then []
    else
      var n := |objs| - 1;
      if LocationInFetchRange(objs[n].loc, start, end) then Fetched(objs[..n], start, end) + [objs[n].payload]
      else Fetched(objs[..n], start, end)
  }

  function Payloads(objs: seq<CatalogObject>): seq<seq<byte>> {
    if objs == [] then [] else Payloads(objs[..|objs| - 1]) + [objs[|objs| - 1].payload]
  }

  /** Objects published in the order of their locations. */
  ghost predicate InOrder(objs: seq<CatalogObject>) {
    && (forall i :: 0 <= i < |objs| ==> objs[i].loc.Fits())
    && (forall i, j :: 0 <= i < j < |objs| ==> LocationLess(objs[i].loc, objs[j].loc))
  }

  lemma {:induction false} AllFetched(objs: seq<CatalogObject>, largest: Location)
    requires InOrder(objs) && largest.Fits()
    requires forall i :: 0 <= i < |objs| ==> !LocationLess(objs[i].loc, Location(largest.group, 0))
    requires forall i :: 0 <= i < |objs| ==> !AfterLocation(objs[i].loc, largest)
    ensures Fetched(objs, JoiningRange(largest).0, JoiningRange(largest).1) == Payloads(objs)
    ensures Later(objs, largest) == []
  {
    if objs != [] {
      var n := |objs| - 1;
      AllFetched(objs[..n], largest);
      FetchAndFilterAreComplements(objs[n].loc, largest);
    }
  }

  /**
   * Exactly once, in order: whatever is published from the start of the largest group on, what the fetch
   * delivers followed by what the subscription's filter lets through is the list of published objects.
   */
  lemma {:induction false} DeliveredOnceInOrder(objs: seq<CatalogObject>, largest: Location)
    requires InOrder(objs) && largest.Fits()
    requires forall i :: 0 <= i < |objs| ==> !LocationLess(objs[i].loc, Location(largest.group, 0))
    ensures Fetched(objs, JoiningRange(largest).0, JoiningRange(largest).1) + Later(objs, largest) == Payloads(objs)
  {
    if objs != [] {
      var n := |objs| - 1;
      var (start, end) := JoiningRange(largest);
      FetchAndFilterAreComplements(objs[n].loc, largest);
      if AfterLocation(objs[n].loc, largest) {
        DeliveredOnceInOrder(objs[..n], largest);
        assert Fetched(objs, start, end) == Fetched(objs[..n], start, end);
      } else {
        forall i | 0 <= i < |objs|
          ensures !AfterLocation(objs[i].loc, largest)
        {
          OneOrder(objs[i].loc, objs[n].loc, largest);
          OneOrder(largest, objs[i].loc, objs[n].loc);
        }
        AllFetched(objs, largest);
      }
    }
  }

  /** The publisher's catalog is one object, so its joining fetch is answered with exactly that. */
  lemma CatalogIsFetched(catalog: seq<byte>, largest: Location)
    ensures ServeFetch(catalog, JoiningRange(largest).0, JoiningRange(largest).1)
            == if largest.group == 0 then [CatalogObject(CATALOG_LOCATION, catalog)] else []
  {
  }

  /**
   * The subscriber: its current catalog, how often writing one out has failed, and, for the proof, every payload it
   * has tried to apply.
   */
  class Handler<C> {
    var catalog: Option<C>
    ghost var failures: nat
    ghost var tried: seq<seq<byte>>

    /** Takes over a catalog that can be parsed, even when writing it out fails afterwards. */
    method ApplyCatalog(payload: seq<byte>, parse: seq<byte> -> Option<C>) returns (ok: bool)
      modifies this
      ensures tried == old(tried) + [payload]
      ensures catalog == if Parsed(parse, payload).Some? then Parsed(parse, payload) else old(catalog)
      ensures ok <==> Parsed(parse, payload).Some? && failures == old(failures)
      ensures failures == old(failures) || (Parsed(parse, payload).Some? && failures == old(failures) + 1)
    {
      tried := tried + [payload];
      var cat := Parsed(parse, payload);
      if cat.None? {
        return false;
      }
      catalog := cat;
      ok := *;
      if !ok {
        failures := failures + 1;
      }
    }

    /**
     * Joins a catalog track. largest is what the subscription reports, fetched the first object of the
     * joining fetch, received what the subscription delivers until it ends.
     */
    method JoiningCatalog(largest: Option<Location>, fetched: Option<CatalogObject>, received: seq<CatalogObject>,
                          parse: seq<byte> -> Option<C>)
      returns (joined: bool)
      modifies this
      ensures largest.None? || fetched.None? ==> !joined && tried == old(tried) && catalog == old(catalog)
      ensures !joined && largest.Some? && fetched.Some? ==>
                && tried == old(tried) + [fetched.value.payload]
                && catalog == if Parsed(parse, fetched.value.payload).Some? then Parsed(parse, fetched.value.payload)
                              else old(catalog)
      ensures joined ==> tried == old(tried) + [fetched.value.payload] + Later(received, largest.value)
      ensures joined ==> catalog == Current(parse, [fetched.value.payload] + Later(received, largest.value))
      ensures joined ==> catalog.Some?
      ensures !joined && largest.Some? && fetched.Some? ==>
                Parsed(parse, fetched.value.payload).None? || failures == old(failures) + 1
    {
      if largest.None? || fetched.None? {
        return false;
      }
      joined := ApplyCatalog(fetched.value.payload, parse);
      if !joined {
        return;
      }
      ghost var first := fetched.value.payload;
      assert received[..0] == [];
      assert [first] + Later([], largest.value) == [first];
      for i := 0 to |received|
        invariant tried == old(tried) + [first] + Later(received[..i], largest.value)
        invariant catalog == Current(parse, [first] + Later(received[..i], largest.value)) && catalog.Some?
      {
        var o := received[i];
        ghost var seen := Later(received[..i], largest.value);
        assert received[..i + 1][..i] == received[..i];
        if AfterLocation(o.loc, largest.value) {
          var applied := ApplyCatalog(o.payload, parse);
          assert [first] + (seen + [o.payload]) == [first] + seen + [o.payload];
          assert ([first] + seen + [o.payload])[..|[first] + seen|] == [first] + seen;
        }
      }
      assert received[..|received|] == received;
    }
  }

  function Parsed<C>(parse: seq<byte> -> Option<C>, payload: seq<byte>): Option<C> {
    parse(payload)
  }

  /** The catalog in force after a list of payloads: the last one that could be parsed. */
  function Current<C>(parse: seq<byte> -> Option<C>, payloads: seq<seq<byte>>): Option<C> {
    if payloads == [] then None
    else
      var n := |payloads| - 1;
      if Parsed(parse, payloads[n]).Some? then Parsed(parse, payloads[n]) else Current(parse, payloads[..n])
  }

  /**
   * A joined subscriber that reads one object from the fetch has tried every published object exactly once
   * and in order, if and only if the fetch had just that one to deliver.
   */
  lemma OneReadSuffices(objs: seq<CatalogObject>, largest: Location)
    requires InOrder(objs) && largest.Fits()
    requires forall i :: 0 <= i < |objs| ==> !LocationLess(objs[i].loc, Location(largest.group, 0))
    requires Fetched(objs, JoiningRange(largest).0, JoiningRange(largest).1) != []
    ensures var fetched := Fetched(objs, JoiningRange(largest).0, JoiningRange(largest).1);
            [fetched[0]] + Later(objs, largest) == Payloads(objs) <==> |fetched| == 1
  {
    DeliveredOnceInOrder(objs, largest);
    var fetched := Fetched(objs, JoiningRange(largest).0, JoiningRange(largest).1);
    if |fetched| == 1 {
      assert fetched == [fetched[0]];
    } else {
      assert |[fetched[0]] + Later(objs, largest)| < |fetched + Later(objs, largest)|;
    }
  }

  lemma {:induction false} LaterConcat(a: seq<CatalogObject>, b: seq<CatalogObject>, largest: Location)
    ensures Later(a + b, largest) == Later(a, largest) + Later(b, largest)
  {
    if b == [] {
      assert a + b == a;
      assert Later(a, largest) + Later([], largest) == Later(a, largest);
    } else {
      var n := |b| - 1;
      assert (a + b)[..|a + b| - 1] == a + b[..n];
      LaterConcat(a, b[..n], largest);
      if AfterLocation(b[n].loc, largest) {
        assert Later(a, largest) + (Later(b[..n], largest) + [b[n].payload])
            == Later(a, largest) + Later(b[..n], largest) + [b[n].payload];
      }
    }
  }

  /**
   * The publisher sends its catalog object again on the subscription, and a joining subscriber may see that
   * any number of times; it applies the catalog once, and every later object once and in order.
   */
  lemma CatalogAppliedOnce(catalog: seq<byte>, replays: nat, updates: seq<CatalogObject>)
    requires forall i :: 0 <= i < |updates| ==> AfterLocation(updates[i].loc, CATALOG_LOCATION)
    ensures var (start, end) := JoiningRange(CATALOG_LOCATION);
            var fetched := ServeFetch(catalog, start, end);
            var received := Replays(catalog, replays) + updates;
            |fetched| == 1 && [fetched[0].payload] + Later(received, CATALOG_LOCATION) == [catalog] + Payloads(updates)
  {
    CatalogIsFetched(catalog, CATALOG_LOCATION);
    LaterConcat(Replays(catalog, replays), updates, CATALOG_LOCATION);
    NoReplayIsLater(catalog, replays);
    AllLater(updates, CATALOG_LOCATION);
    assert [] + Payloads(updates) == Payloads(updates);
  }

  function Replays(catalog: seq<byte>, n: nat): seq<CatalogObject> {
    if n == 0 then [] else Replays(catalog, n - 1) + [CatalogObject(CATALOG_LOCATION, catalog)]
  }

  lemma {:induction false} NoReplayIsLater(catalog: seq<byte>, n: nat)
    ensures Later(Replays(catalog, n), CATALOG_LOCATION) == []
  {
    if n != 0 {
      var r := Replays(catalog, n);
      assert r[..|r| - 1] == Replays(catalog, n - 1);
      NoReplayIsLater(catalog, n - 1);
    }
  }

  lemma {:induction false} AllLater(objs: seq<CatalogObject>, largest: Location)
    requires forall i :: 0 <= i < |objs| ==> AfterLocation(objs[i].loc, largest)
    ensures Later(objs, largest) == Payloads(objs)
  {
    if objs != [] {
      AllLater(objs[..|objs| - 1], largest);
    }
  }
}
