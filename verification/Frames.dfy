/** Runs that send one sample per object: what has to be sent, and in which order. */
module Frames {
  import opened Sessions

  /**
   * A schedule of single-sample objects: group g sends samples starts(g), ..., starts(g+1)-1 as
   * groups(g), sample n as frame(n) and not before clock time dueAt(n), which is due(o) for its object o.
   */
  datatype FramePlan<!P(!new)> = FramePlan(starts: nat -> nat, frame: nat -> P, dueAt: nat -> int,
                                           groups: nat -> seq<MediaObject<P>>, due: MediaObject<P> -> int) {

    ghost predicate Monotone() {
      forall g: nat, h: nat :: g <= h ==> starts(g) <= starts(h)
    }

    /** Samples a, ..., b-1 as the objects of group g, numbered from 0. */
    ghost function Objects(g: nat, a: nat, b: nat): (r: seq<MediaObject<P>>)
      ensures |r| == if a <= b then b - a else 0
      decreases b
    {
      if a < b then Objects(g, a, b - 1) + [MediaObject(g, b - 1 - a, frame(b - 1))] else []
    }

    ghost function Group(g: nat): seq<MediaObject<P>> {
      Objects(g, starts(g), starts(g + 1))
    }

    ghost function DueMS(o: MediaObject<P>): int {
      dueAt(starts(o.group) + o.id)
    }

    /** groups and due are right about group g. */
    ghost predicate Consistent(g: nat) {
      groups(g) == Group(g) && forall o :: o in Group(g) ==> due(o) == DueMS(o)
    }

    ghost predicate Valid() {
      Monotone() && forall g: nat :: Consistent(g)
    }
  }

  /** Any starts, frames and due times make up a schedule. */
  lemma PlanFrom<P(!new)>(starts: nat -> nat, frame: nat -> P, dueAt: nat -> int) returns (p: FramePlan<P>)
    requires forall g: nat, h: nat :: g <= h ==> starts(g) <= starts(h)
    ensures p.Valid() && p.starts == starts && p.frame == frame && p.dueAt == dueAt
  {
    var q := FramePlan(starts, frame, dueAt, (g: nat) => [], (o: MediaObject<P>) => 0);
    p := q.(groups := (g: nat) => q.Group(g), due := (o: MediaObject<P>) => q.DueMS(o));
    forall g: nat
      ensures p.Consistent(g)
    {
      SameObjects(p, q, g, starts(g), starts(g + 1));
    }
  }

  lemma {:induction false} SameObjects<P(!new)>(p: FramePlan<P>, q: FramePlan<P>, g: nat, a: nat, b: nat)
    requires p.frame == q.frame
    ensures p.Objects(g, a, b) == q.Objects(g, a, b)
    decreases b
  {
    if a < b {
      SameObjects(p, q, g, a, b - 1);
    }
  }

  lemma {:induction false} ObjectAt<P(!new)>(p: FramePlan<P>, g: nat, a: nat, b: nat, n: nat)
    requires a <= n < b
    ensures p.Objects(g, a, b)[n - a] == MediaObject(g, n - a, p.frame(n))
    decreases b
  {
    if n < b - 1 {
      ObjectAt(p, g, a, b - 1, n);
    }
  }

  lemma GroupLength<P(!new)>(p: FramePlan<P>, g: nat)
    requires p.Valid()
    ensures |p.groups(g)| == p.starts(g + 1) - p.starts(g)
  {
    assert p.Consistent(g) && p.starts(g) <= p.starts(g + 1);
  }

  /** Object i of a group carries the group's i-th sample and is due when that sample is. */
  lemma GroupAt<P(!new)>(p: FramePlan<P>, g: nat, n: nat)
    requires p.Valid()
    requires p.starts(g) <= n < p.starts(g + 1)
    ensures |p.groups(g)| == p.starts(g + 1) - p.starts(g)
    ensures p.groups(g)[n - p.starts(g)] == MediaObject(g, n - p.starts(g), p.frame(n))
    ensures p.due(MediaObject(g, n - p.starts(g), p.frame(n))) == p.dueAt(n)
  {
    assert p.Consistent(g);
    ObjectAt(p, g, p.starts(g), p.starts(g + 1), n);
    assert p.Group(g)[n - p.starts(g)] in p.Group(g);
  }

  /** A run over groups g0, ..., g1-1 has one object for every sample from starts(g0) to starts(g1). */
  lemma {:induction false} RunLength<P(!new)>(p: FramePlan<P>, g0: nat, g1: nat)
    requires p.Valid() && g0 <= g1
    ensures p.starts(g0) <= p.starts(g1)
    ensures |Concat(p.groups, g0, g1)| == p.starts(g1) - p.starts(g0)
    decreases g1
  {
    if g0 < g1 {
      RunLength(p, g0, g1 - 1);
      GroupLength(p, g1 - 1);
    }
  }

  /** Sample n of group g is sent at position n - starts(g0) of the run, with its number in the group. */
  lemma {:induction false} RunAt<P(!new)>(p: FramePlan<P>, g0: nat, g1: nat, g: nat, n: nat)
    requires p.Valid()
    requires g0 <= g < g1
    requires p.starts(g) <= n < p.starts(g + 1)
    ensures p.starts(g0) <= n < p.starts(g1)
    ensures |Concat(p.groups, g0, g1)| == p.starts(g1) - p.starts(g0)
    ensures Concat(p.groups, g0, g1)[n - p.starts(g0)] == MediaObject(g, n - p.starts(g), p.frame(n))
    decreases g1
  {
    var last := g1 - 1;
    RunLength(p, g0, g1);
    RunLength(p, g0, last);
    assert p.starts(g0) <= p.starts(g) && p.starts(g + 1) <= p.starts(g1);
    if g == last {
      GroupAt(p, g, n);
    } else {
      RunAt(p, g0, last, g, n);
    }
  }

  /** Every sample of the run lies in one of its groups. */
  lemma {:induction false} GroupOfSample<P(!new)>(p: FramePlan<P>, g0: nat, g1: nat, n: nat) returns (g: nat)
    requires p.Valid() && g0 <= g1
    requires p.starts(g0) <= n < p.starts(g1)
    ensures g0 <= g < g1 && p.starts(g) <= n < p.starts(g + 1)
    decreases g1
  {
    g := g1 - 1;
    if n < p.starts(g) {
      g := GroupOfSample(p, g0, g, n);
    }
  }

  /** The run sends exactly the samples starts(g0), ..., starts(g1)-1, each once, in order and when it is due. */
  lemma RunSendsEverySample<P(!new)>(p: FramePlan<P>, g0: nat, g1: nat, i: nat)
    requires p.Valid() && g0 <= g1
    requires i < |Concat(p.groups, g0, g1)|
    ensures |Concat(p.groups, g0, g1)| == p.starts(g1) - p.starts(g0)
    ensures var o := Concat(p.groups, g0, g1)[i];
            && o.payload == p.frame(p.starts(g0) + i) && p.starts(o.group) + o.id == p.starts(g0) + i
            && p.due(o) == p.dueAt(p.starts(g0) + i)
  {
    RunLength(p, g0, g1);
    var n := p.starts(g0) + i;
    var g := GroupOfSample(p, g0, g1, n);
    RunAt(p, g0, g1, g, n);
    GroupAt(p, g, n);
  }
}
