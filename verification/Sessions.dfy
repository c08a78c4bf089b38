/** The publisher's side of a MoQ session: what was written, when, and what can go wrong on the way. */
module Sessions {
  import opened Options

  /** An object on a track, by its group and its number in the group. */
  datatype MediaObject<+P> = MediaObject(group: nat, id: nat, payload: P)

  /**
   * How a publish loop ends: it covered all the groups asked of it, the context was cancelled, the session
   * failed, a chunk could not be encoded, or the track was refused at the start.
   */
  datatype Outcome = Completed | Cancelled | Failed | NotEncoded | Refused

  /** A run that nothing has stopped is complete, and one that was cancelled or has failed says which. */
  predicate Ends(outcome: Outcome, stop: Outcome) {
    outcome == stop && (outcome.Completed? || outcome.Cancelled? || outcome.Failed?)
  }

  /** The first thing that stops a run is what counts. */
  function StoppedBy(stop: Outcome, next: Outcome): Outcome {
    if stop == Completed then next else stop
  }

  /** Why an object went out when it did: a wait for a given time was over, or that time had already passed. */
  datatype Release = Waited(until: int) | AtOnce(now: int)

  /** When an object was written, and what released it. */
  datatype Delivery = Delivery(at: int, release: Release)

  /** The objects of groups g0, ..., g1-1 in order. */
  ghost function Concat<P>(groups: nat -> seq<MediaObject<P>>, g0: nat, g1: nat): seq<MediaObject<P>>
    decreases g1
  {
    if g1 <= g0 then [] else Concat(groups, g0, g1 - 1) + groups(g1 - 1)
  }

  /** A shorter run is an initial part of a longer one. */
  lemma {:induction false} ConcatPrefix<P>(groups: nat -> seq<MediaObject<P>>, g0: nat, g1: nat, g2: nat)
    requires g0 <= g1 <= g2
    ensures Concat(groups, g0, g1) <= Concat(groups, g0, g2)
    decreases g2
  {
    if g1 < g2 {
      ConcatPrefix(groups, g0, g1, g2 - 1);
    }
  }

  /** Every object of a run belongs to one of its groups. */
  lemma {:induction false} ObjectOfRun<P>(groups: nat -> seq<MediaObject<P>>, g0: nat, g1: nat, k: nat)
    returns (g: nat, i: nat)
    requires k < |Concat(groups, g0, g1)|
    ensures g0 <= g < g1 && i < |groups(g)| && Concat(groups, g0, g1)[k] == groups(g)[i]
    decreases g1
  {
    var front := Concat(groups, g0, g1 - 1);
    if k < |front| {
      g, i := ObjectOfRun(groups, g0, g1 - 1, k);
    } else {
      g, i := g1 - 1, k - |front|;
    }
  }

  /** Since before, the first n objects of all have been sent. */
  ghost predicate SentPrefix<P>(sent: seq<MediaObject<P>>, before: seq<MediaObject<P>>,
                                all: seq<MediaObject<P>>, n: nat) {
    n <= |all| && sent == before + all[..n]
  }

  /** Since before, exactly the n objects of groups g0, ..., g-1 have been sent. */
  ghost predicate SentGroups<P>(sent: seq<MediaObject<P>>, before: seq<MediaObject<P>>,
                                groups: nat -> seq<MediaObject<P>>, g0: nat, g: nat, n: nat) {
    n == |Concat(groups, g0, g)| && sent == before + Concat(groups, g0, g)
  }

  /** Groups sent so far are an initial part of the whole run, and the whole run once all groups are sent. */
  lemma GroupsArePrefix<P>(sent: seq<MediaObject<P>>, before: seq<MediaObject<P>>, groups: nat -> seq<MediaObject<P>>,
                           g0: nat, g: nat, g1: nat, n: nat)
    requires g0 <= g <= g1
    requires SentGroups(sent, before, groups, g0, g, n)
    ensures SentPrefix(sent, before, Concat(groups, g0, g1), n)
    ensures g == g1 ==> n == |Concat(groups, g0, g1)|
  {
    ConcatPrefix(groups, g0, g, g1);
    assert Concat(groups, g0, g) == Concat(groups, g0, g1)[..n];
  }

  /** Sending k objects of group g after the groups before it. */
  lemma ExtendSent<P>(sent: seq<MediaObject<P>>, sent': seq<MediaObject<P>>, before: seq<MediaObject<P>>,
                      groups: nat -> seq<MediaObject<P>>, g0: nat, g: nat, g1: nat, n: nat, k: nat)
    requires g0 <= g < g1
    requires SentGroups(sent, before, groups, g0, g, n)
    requires SentPrefix(sent', sent, groups(g), k)
    ensures SentPrefix(sent', before, Concat(groups, g0, g1), n + k)
    ensures k == |groups(g)| ==> SentGroups(sent', before, groups, g0, g + 1, n + k)
  {
    ConcatPrefix(groups, g0, g + 1, g1);
    assert Concat(groups, g0, g) + groups(g)[..k] == Concat(groups, g0, g1)[..n + k];
    assert sent' == before + (Concat(groups, g0, g) + groups(g)[..k]);
  }

  /** Not written early, and held back for exactly the time at which it was due, if it was held back at all. */
  ghost predicate Paced(d: Delivery, due: int) {
    && due <= d.at
    && match d.release
       case Waited(until) => until == due
       case AtOnce(now) => due <= now
  }

  /** Every object from number first on was paced by the time it was due. */
  ghost predicate OnTime<P(!new)>(objects: seq<MediaObject<P>>, times: seq<Delivery>, first: nat,
                                  due: MediaObject<P> -> int) {
    && first <= |objects| == |times|
    && forall i :: first <= i < |objects| ==> Paced(times[i], due(objects[i]))
  }

  /** Times that never decrease and stay at or before the clock. */
  ghost predicate InClockOrder(times: seq<Delivery>, clock: int) {
    && (forall i, j :: 0 <= i <= j < |times| ==> times[i].at <= times[j].at)
    && (times != [] ==> times[|times| - 1].at <= clock)
  }

  /**
   * The environment of a publish loop: the objects delivered so far and the clock times of their
   * delivery. The clock never runs backwards; cancellation and failing calls are free to happen at
   * any point, and stop remembers the first one, Completed standing for none. A failing write delivers nothing.
   * Objects go into the open subgroup, which is that of their group, and only if the context has been looked at,
   * and was not done, since the object before.
   */
  class Session<P(!new)> {
    var sent: seq<MediaObject<P>>
    var times: seq<Delivery>
    var clock: int
    var release: Release
    var stop: Outcome
    var open: Option<nat>
    ghost var checked: bool

    ghost predicate Valid()
      reads this
    {
      |sent| == |times| && InClockOrder(times, clock)
    }

    method ContextDone() returns (done: bool)
      modifies this`stop, this`checked
      ensures stop == if done then StoppedBy(old(stop), Cancelled) else old(stop)
      ensures checked == !done
    {
      done := *;
      checked := !done;
      if done {
        stop := StoppedBy(stop, Cancelled);
      }
    }

    /** Encodes, and if needed encrypts, what an object is to carry. */
    method Encode(payload: P) returns (ok: bool)
      modifies this`stop
      ensures stop == if ok then old(stop) else StoppedBy(old(stop), NotEncoded)
    {
      ok := *;
      if !ok {
        stop := StoppedBy(stop, NotEncoded);
      }
    }

    /** Opens the subgroup that carries the next group. */
    method OpenSubgroup(group: nat) returns (ok: bool)
      requires checked && open == None
      modifies this`stop, this`open
      ensures stop == if ok then old(stop) else StoppedBy(old(stop), Failed)
      ensures open == if ok then Some(group) else None
    {
      ok := *;
      if ok {
        open := Some(group);
      } else {
        stop := StoppedBy(stop, Failed);
      }
    }

    method CloseSubgroup() returns (ok: bool)
      requires open.Some?
      modifies this`stop, this`open
      ensures stop == if ok then old(stop) else StoppedBy(old(stop), Failed)
      ensures open == None
    {
      ok := *;
      open := None;
      if !ok {
        stop := StoppedBy(stop, Failed);
      }
    }

    method PassTime()
      requires Valid()
      modifies this`clock
      ensures Valid() && old(clock) <= clock
    {
      var elapsed: int := *;
      if 0 < elapsed {
        clock := clock + elapsed;
      }
    }

    method Now() returns (now: int)
      requires Valid()
      modifies this`clock, this`release
      ensures Valid() && now == clock && old(clock) <= clock && release == AtOnce(now)
    {
      PassTime();
      now := clock;
      release := AtOnce(now);
    }

    /** Waits for a point in time, which may be overshot, or returns early because of a cancellation. */
    method WaitUntil(t: int) returns (cancelled: bool)
      requires Valid()
      modifies this`clock, this`release, this`stop
      ensures Valid() && old(clock) <= clock
      ensures !cancelled ==> t <= clock && release == Waited(t)
      ensures stop == if cancelled then StoppedBy(old(stop), Cancelled) else old(stop)
    {
      cancelled := *;
      if cancelled {
        stop := StoppedBy(stop, Cancelled);
      } else if clock < t {
        clock := t;
      }
      PassTime();
      release := Waited(t);
    }

    /** Holds an object back until it is due, or not at all when that time has passed. */
    method Pace(dueMS: int) returns (cancelled: bool)
      requires Valid()
      modifies this`clock, this`release, this`stop
      ensures Valid() && old(clock) <= clock
      ensures !cancelled ==> Paced(Delivery(clock, release), dueMS)
      ensures stop == if cancelled then StoppedBy(old(stop), Cancelled) else old(stop)
    {
      cancelled := false;
      var now := Now();
      if now < dueMS {
        cancelled := WaitUntil(dueMS);
      }
    }

    method WriteObject(o: MediaObject<P>) returns (ok: bool)
      requires Valid() && checked && open == Some(o.group)
      modifies this`sent, this`times, this`stop, this`checked
      ensures Valid() && !checked
      ensures ok ==> sent == old(sent) + [o] && times == old(times) + [Delivery(clock, release)]
      ensures !ok ==> sent == old(sent) && times == old(times)
      ensures stop == if ok then old(stop) else StoppedBy(old(stop), Failed)
    {
      ok := *;
      checked := false;
      if ok {
        sent := sent + [o];
        times := times + [Delivery(clock, release)];
      } else {
        stop := StoppedBy(stop, Failed);
      }
    }

    /** Holds back and writes the next object of a group, of which n objects have been sent since before. */
    method SendNext(o: MediaObject<P>, dueMS: int, ghost before: seq<MediaObject<P>>, ghost group: seq<MediaObject<P>>,
                    ghost n: nat, ghost first: nat, ghost due: MediaObject<P> -> int)
      returns (outcome: Outcome, ghost next: nat)
      requires Valid() && stop == Completed && checked && open == Some(o.group)
      requires n < |group| && group[n] == o && due(o) == dueMS
      requires SentPrefix(sent, before, group, n) && OnTime(sent, times, first, due)
      modifies this`sent, this`times, this`clock, this`release, this`stop, this`checked
      ensures Valid() && Ends(outcome, stop)
      ensures next == if outcome == Completed then n + 1 else n
      ensures SentPrefix(sent, before, group, next) && OnTime(sent, times, first, due)
    {
      next := n;
      var cancelled := Pace(dueMS);
      if cancelled {
        return Cancelled, next;
      }
      assert group[..n + 1] == group[..n] + [o];
      var ok := WriteObject(o);
      if !ok {
        return Failed, next;
      }
      next := n + 1;
      outcome := Completed;
    }
  }
}
