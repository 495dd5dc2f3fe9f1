/**
 * The event algebra of prob2.rs: an event over real outcomes is a tree of open
 * intervals joined by unions, with membership, intersection, union and a
 * Lebesgue-length measure. The operations follow the source literally,
 * including the branches where a `Union` on the left reuses its left child
 * twice; corrected variants are defined beside them for comparison.
 */
module Events {
  import opened Wrappers

  /** An event: no outcome, the open interval (lo, hi), or the union of two events. */
  datatype Range = Simple(lo: real, hi: real) | Union(s: Range, t: Range) | Empty

  /** f32::max and f32::min over the reals. */
  function Max(a: real, b: real): real { if a >= b then a else b }
  function Min(a: real, b: real): real { if a <= b then a else b }

  /** Every interval of the tree has lo <= hi, as ranges built by NewRange do. */
  predicate WellFormed(r: Range) {
    match r
    case Empty => true
    case Simple(a, b) => a <= b
    case Union(s, t) => WellFormed(s) && WellFormed(t)
  }

  predicate IsLeaf(r: Range) { !r.Union? }

  /** A leaf, or a union of two leaves: the events on which the literal operations are exact. */
  predicate Shallow(r: Range) { IsLeaf(r) || (IsLeaf(r.s) && IsLeaf(r.t)) }

  function Size(r: Range): nat {
    match r
    case Union(s, t) => 1 + Size(s) + Size(t)
    case _ => 1
  }

  /** Range::new: an empty event when the bounds are reversed, the interval otherwise. */
  function NewRange(a: real, b: real): (r: Range)
    ensures r.Empty? <==> a > b
    ensures WellFormed(r) && IsLeaf(r)
    ensures forall x :: ContainsOutcome(r, x) <==> a < x < b
    ensures forall x :: Covers(r, x) <==> a <= x <= b
  {
    if a > b then Empty else Simple(a, b)
  }

  /** Event::contains_outcome: intervals are open, so endpoints are never contained. */
  function ContainsOutcome(r: Range, x: real): bool {
    match r
    case Empty => false
    case Simple(a, b) => a < x && x < b
    case Union(s, t) => ContainsOutcome(s, x) || ContainsOutcome(t, x)
  }

  /** Closed-interval membership: the reading under which the merge in UnionWith is exact. */
  function Covers(r: Range, x: real): bool {
    match r
    case Empty => false
    case Simple(a, b) => a <= x && x <= b
    case Union(s, t) => Covers(s, x) || Covers(t, x)
  }

  /** The intervals of an event, left to right: an independent reading of what the tree denotes. */
  function Intervals(r: Range): seq<(real, real)> {
    match r
    case Empty => []
    case Simple(a, b) => [(a, b)]
    case Union(s, t) => Intervals(s) + Intervals(t)
  }

  /** Range::unmesaurable: a single interval of length zero. */
  function Unmeasurable(r: Range): (u: bool)
    ensures u ==> forall x :: !ContainsOutcome(r, x)
    ensures WellFormed(r) && r.Simple? ==> (u <==> LebesgueMeasure(r, 1) == Some(0.0))
  {
    if r.Simple? then r.lo == r.hi else false
  }

  /** Event::intersection, as written: a `Union` on the left intersects its left child twice. */
  function Intersect(r: Range, other: Range): (res: Range)
    ensures WellFormed(r) && WellFormed(other) ==> WellFormed(res)
    decreases Size(r) + Size(other)
  {
    match r
    case Empty => Empty
    case Union(s, _) => Union(Intersect(s, other), Intersect(s, other))
    case Simple(a, b) =>
      match other
      case Empty => Empty
      case Union(s, t) => Union(Intersect(s, r), Intersect(t, r))
      case Simple(c, d) => if a > d || b < c then Empty else Simple(Max(a, c), Min(b, d))
  }

  /** Event::union, as written: a `Union` on the left unites its left child twice. */
  function UnionWith(r: Range, other: Range): (res: Range)
    ensures WellFormed(r) && WellFormed(other) ==> WellFormed(res)
    decreases Size(r) + Size(other)
  {
    match r
    case Empty => other
    case Union(s, _) => Union(UnionWith(s, other), UnionWith(s, other))
    case Simple(a, b) =>
      match other
      case Empty => r
      case Union(s, t) => Union(UnionWith(s, r), UnionWith(t, r))
      case Simple(c, d) => if a > d || b < c then Union(r, other) else Simple(Min(a, c), Max(b, d))
  }

  /**
   * Event::lebesgue_measure by inclusion–exclusion. The source recursion need not
   * end (see MeasureDiverges), so each nested call spends one unit of fuel and
   * None means the recursion had not finished when the fuel ran out.
   */
  function LebesgueMeasure(r: Range, fuel: nat): Option<real>
    decreases fuel
  {
    if fuel == 0 then None
    else
      match r
      case Empty => Some(0.0)
      case Simple(a, b) => Some(b - a)
      case Union(s, t) =>
        var ms, mt, mst := LebesgueMeasure(s, fuel - 1), LebesgueMeasure(t, fuel - 1),
                           LebesgueMeasure(Intersect(s, t), fuel - 1);
        if ms.Some? && mt.Some? && mst.Some? then Some(ms.value + mt.value - mst.value) else None
  }

  /** Length of a leaf. */
  function IntervalLength(r: Range): real
    requires IsLeaf(r)
  {
    if r.Simple? then r.hi - r.lo else 0.0
  }

  /** Length of the set union of two leaves, read off the endpoints (no inclusion–exclusion). */
  function CoverLength(x: Range, y: Range): real
    requires IsLeaf(x) && IsLeaf(y)
  {
    if x.Empty? then IntervalLength(y)
    else if y.Empty? then IntervalLength(x)
    else if x.hi <= y.lo || y.hi <= x.lo then (x.hi - x.lo) + (y.hi - y.lo)
    else Max(x.hi, y.hi) - Min(x.lo, y.lo)
  }

  /** Length of the set of outcomes of a shallow event. */
  function ShallowLength(r: Range): real
    requires Shallow(r)
  {
    if IsLeaf(r) then IntervalLength(r) else CoverLength(r.s, r.t)
  }

  /** p is an interval that contains x in its interior. */
  predicate InInterval(p: (real, real), x: real) { p.0 < x < p.1 }

  // ---------------------------------------------------------------------------
  // Membership

  /** An outcome is in an event exactly when it lies inside one of the event's intervals. */
  lemma {:induction false} ContainsIffInSomeInterval(r: Range, x: real)
    ensures ContainsOutcome(r, x) <==> exists i :: 0 <= i < |Intervals(r)| && InInterval(Intervals(r)[i], x)
  {
    match r
    case Empty =>
    case Simple(a, b) =>
      assert Intervals(r)[0] == (a, b);
    case Union(s, t) =>
      ContainsIffInSomeInterval(s, x);
      ContainsIffInSomeInterval(t, x);
      var ls, rs := Intervals(s), Intervals(t);
      assert Intervals(r) == ls + rs;
      if ContainsOutcome(s, x) {
        var i :| 0 <= i < |ls| && InInterval(ls[i], x);
        assert Intervals(r)[i] == ls[i];
      } else if ContainsOutcome(t, x) {
        var i :| 0 <= i < |rs| && InInterval(rs[i], x);
        assert Intervals(r)[|ls| + i] == rs[i];
      }
      if exists i :: 0 <= i < |Intervals(r)| && InInterval(Intervals(r)[i], x) {
        var i :| 0 <= i < |Intervals(r)| && InInterval(Intervals(r)[i], x);
        if i < |ls| {
          assert Intervals(r)[i] == ls[i];
        } else {
          assert Intervals(r)[i] == rs[i - |ls|];
        }
      }
  }

  // ---------------------------------------------------------------------------
  // Intersection

  /** Intersection of two intervals, and intersection with the empty event. */
  lemma IntersectOfIntervals(a: real, b: real, c: real, d: real, r: Range)
    ensures Intersect(Simple(a, b), Simple(c, d)).Empty? <==> (a > d || b < c)
    ensures !(a > d || b < c) ==> Intersect(Simple(a, b), Simple(c, d)) == Simple(Max(a, c), Min(b, d))
    ensures a <= b && c <= d && !(a > d || b < c) ==>
      a <= Max(a, c) <= Min(b, d) <= b && c <= Max(a, c) && Min(b, d) <= d
    ensures Intersect(Empty, r) == Empty
    ensures IsLeaf(r) ==> Intersect(r, Empty) == Empty
  {
  }

  /** Whatever the shape of the operands, the intersection contains only outcomes of both. */
  lemma {:induction false} IntersectSound(x: Range, y: Range, o: real)
    ensures ContainsOutcome(Intersect(x, y), o) ==> ContainsOutcome(x, o) && ContainsOutcome(y, o)
    decreases Size(x) + Size(y)
  {
    match x
    case Empty =>
    case Union(s, _) => IntersectSound(s, y, o);
    case Simple(_, _) =>
      match y
      case Empty =>
      case Union(s, t) =>
        IntersectSound(s, x, o);
        IntersectSound(t, x, o);
      case Simple(_, _) =>
  }

  /** With a leaf on the left and a shallow event on the right, intersection is exact. */
  lemma IntersectExactOnShallow(x: Range, y: Range, o: real)
    requires IsLeaf(x) && Shallow(y)
    ensures ContainsOutcome(Intersect(x, y), o) <==> ContainsOutcome(x, o) && ContainsOutcome(y, o)
  {
    if x.Simple? && y.Union? {
      assert Intersect(x, y) == Union(Intersect(y.s, x), Intersect(y.t, x));
    }
  }

  /** Intersecting anything with the empty event yields an event with no outcome. */
  lemma IntersectWithEmptyContainsNothing(x: Range, o: real)
    ensures !ContainsOutcome(Intersect(x, Empty), o)
  {
    IntersectSound(x, Empty, o);
  }

  /** A `Union` on the left: the right child never influences intersection or union. */
  lemma LeftUnionIgnoresRightChild(s: Range, t1: Range, t2: Range, o: Range)
    ensures Intersect(Union(s, t1), o) == Intersect(Union(s, t2), o)
    ensures UnionWith(Union(s, t1), o) == UnionWith(Union(s, t2), o)
  {
  }

  /** Outcome 1 is in both operands but not in their literal intersection. */
  lemma IntersectDropsRightChild()
    ensures ContainsOutcome(Union(Empty, Simple(0.0, 2.0)), 1.0)
    ensures ContainsOutcome(Simple(0.0, 2.0), 1.0)
    ensures !ContainsOutcome(Intersect(Union(Empty, Simple(0.0, 2.0)), Simple(0.0, 2.0)), 1.0)
  {
  }

  // ---------------------------------------------------------------------------
  // Union

  /** Union of two intervals, and union with the empty event. */
  lemma UnionWithOfIntervals(a: real, b: real, c: real, d: real, r: Range)
    ensures (a > d || b < c) ==> UnionWith(Simple(a, b), Simple(c, d)) == Union(Simple(a, b), Simple(c, d))
    ensures !(a > d || b < c) ==> UnionWith(Simple(a, b), Simple(c, d)) == Simple(Min(a, c), Max(b, d))
    ensures Min(a, c) <= a && Min(a, c) <= c && b <= Max(b, d) && d <= Max(b, d)
    ensures UnionWith(Empty, r) == r
    ensures UnionWith(Simple(a, b), Empty) == Simple(a, b)
  {
  }

  /** With a leaf on the left and a shallow event on the right, the union keeps every outcome of both. */
  lemma UnionWithCoversOperands(x: Range, y: Range, o: real)
    requires IsLeaf(x) && Shallow(y)
    ensures ContainsOutcome(x, o) || ContainsOutcome(y, o) ==> ContainsOutcome(UnionWith(x, y), o)
    ensures Covers(x, o) || Covers(y, o) ==> Covers(UnionWith(x, y), o)
  {
    if y.Union? {
      UnionOfLeavesCovers(y.s, x, o);
      UnionOfLeavesCovers(y.t, x, o);
    } else {
      UnionOfLeavesCovers(x, y, o);
    }
  }

  lemma UnionOfLeavesCovers(x: Range, y: Range, o: real)
    requires IsLeaf(x) && IsLeaf(y)
    ensures ContainsOutcome(x, o) || ContainsOutcome(y, o) ==> ContainsOutcome(UnionWith(x, y), o)
    ensures Covers(x, o) || Covers(y, o) ==> Covers(UnionWith(x, y), o)
  {
  }

  /** Whatever the shape of the operands, every point of the union lies in the closure of an operand. */
  lemma {:induction false} UnionWithSound(x: Range, y: Range, o: real)
    ensures Covers(UnionWith(x, y), o) ==> Covers(x, o) || Covers(y, o)
    decreases Size(x) + Size(y)
  {
    match x
    case Empty =>
    case Union(s, _) => UnionWithSound(s, y, o);
    case Simple(_, _) =>
      match y
      case Empty =>
      case Union(s, t) =>
        UnionWithSound(s, x, o);
        UnionWithSound(t, x, o);
      case Simple(_, _) =>
  }

  /** Open intervals that touch merge into one that also holds the shared endpoint. */
  lemma UnionTouchingGainsEndpoint()
    ensures !ContainsOutcome(Simple(0.0, 1.0), 1.0) && !ContainsOutcome(Simple(1.0, 2.0), 1.0)
    ensures ContainsOutcome(UnionWith(Simple(0.0, 1.0), Simple(1.0, 2.0)), 1.0)
  {
  }

  /** Outcome 1 is in the left operand but not in its literal union with the empty event. */
  lemma UnionDropsRightChild()
    ensures ContainsOutcome(Union(Empty, Simple(0.0, 2.0)), 1.0)
    ensures !ContainsOutcome(UnionWith(Union(Empty, Simple(0.0, 2.0)), Empty), 1.0)
  {
  }

  // ---------------------------------------------------------------------------
  // Measure

  /** More fuel never changes a measure that has already been reached. */
  lemma {:induction false} MeasureFuelMonotone(r: Range, f: nat, g: nat)
    requires f <= g && LebesgueMeasure(r, f).Some?
    ensures LebesgueMeasure(r, g) == LebesgueMeasure(r, f)
    decreases f
  {
    if r.Union? {
      MeasureFuelMonotone(r.s, f - 1, g - 1);
      MeasureFuelMonotone(r.t, f - 1, g - 1);
      MeasureFuelMonotone(Intersect(r.s, r.t), f - 1, g - 1);
    }
  }

  /** The intersection of two intervals is an interval no longer than either, and
      inclusion–exclusion over two intervals gives the length of their set union. */
  lemma IntersectOfLeavesMeasure(x: Range, y: Range)
    requires WellFormed(x) && WellFormed(y) && IsLeaf(x) && IsLeaf(y)
    ensures IsLeaf(Intersect(x, y)) && WellFormed(Intersect(x, y))
    ensures 0.0 <= IntervalLength(Intersect(x, y)) <= Min(IntervalLength(x), IntervalLength(y))
    ensures IntervalLength(x) + IntervalLength(y) - IntervalLength(Intersect(x, y)) == CoverLength(x, y)
  {
  }

  /** On a shallow event the measure terminates and is the length of the event's set of outcomes. */
  lemma MeasureOfShallow(r: Range, fuel: nat)
    requires WellFormed(r) && Shallow(r) && fuel >= 2
    ensures LebesgueMeasure(r, fuel) == Some(ShallowLength(r))
    ensures 0.0 <= ShallowLength(r)
  {
    if r.Union? {
      IntersectOfLeavesMeasure(r.s, r.t);
    }
  }

  /** Uniting two intervals gives the length of their set union, whichever operand comes first. */
  lemma UnionWithOfLeavesMeasure(x: Range, y: Range, fuel: nat)
    requires WellFormed(x) && WellFormed(y) && IsLeaf(x) && IsLeaf(y) && fuel >= 2
    ensures LebesgueMeasure(UnionWith(x, y), fuel) == Some(CoverLength(x, y))
    ensures LebesgueMeasure(UnionWith(y, x), fuel) == Some(CoverLength(x, y))
  {
    MeasureOfShallow(UnionWith(x, y), fuel);
    MeasureOfShallow(UnionWith(y, x), fuel);
  }

  /** The literal union is not symmetric in measure once the left operand is a `Union`. */
  lemma UnionMeasureNotSymmetric()
    ensures LebesgueMeasure(UnionWith(Union(Simple(0.0, 1.0), Simple(2.0, 3.0)), Empty), 3) == Some(1.0)
    ensures LebesgueMeasure(UnionWith(Empty, Union(Simple(0.0, 1.0), Simple(2.0, 3.0))), 3) == Some(2.0)
  {
  }

  /** With q = Union(A, A), q ∩ q is Union(q, q) again, so measuring Union(q, q) never ends. */
  lemma {:induction false} MeasureDiverges(a: real, b: real, fuel: nat)
    requires a <= b
    ensures LebesgueMeasure(Union(Union(Simple(a, b), Simple(a, b)), Union(Simple(a, b), Simple(a, b))), fuel).None?
    decreases fuel
  {
    var q := Union(Simple(a, b), Simple(a, b));
    if fuel > 0 {
      assert Intersect(Simple(a, b), q) == q;
      assert Intersect(q, q) == Union(q, q);
      MeasureDiverges(a, b, fuel - 1);
    }
  }

  /** With p = Union((0,1), Empty), p ∩ p is Union(p, p), so measuring Union(p, p) never ends. */
  lemma {:induction false} DoubledHalfEmptyDiverges(fuel: nat)
    ensures LebesgueMeasure(Union(Union(Simple(0.0, 1.0), Empty), Union(Simple(0.0, 1.0), Empty)), fuel).None?
    decreases fuel
  {
    var p := Union(Simple(0.0, 1.0), Empty);
    if fuel > 0 {
      assert Intersect(Simple(0.0, 1.0), p) == p;
      assert Intersect(p, p) == Union(p, p);
      DoubledHalfEmptyDiverges(fuel - 1);
    }
  }

  /**
   * Measuring an event against itself: e ∩ e for e = (0,1) ∪ (2,3) is Union(p, p)
   * with p = Union((0,1), Empty), whose measure never ends.
   */
  lemma SelfIntersectionDiverges(fuel: nat)
    ensures NewRange(0.0, 1.0) == Simple(0.0, 1.0) && NewRange(2.0, 3.0) == Simple(2.0, 3.0)
    ensures LebesgueMeasure(Intersect(Union(NewRange(0.0, 1.0), NewRange(2.0, 3.0)),
                                      Union(NewRange(0.0, 1.0), NewRange(2.0, 3.0))), fuel).None?
  {
    var e := Union(Simple(0.0, 1.0), Simple(2.0, 3.0));
    var p := Union(Simple(0.0, 1.0), Empty);
    assert Intersect(Simple(0.0, 1.0), e) == p;
    assert Intersect(e, e) == Union(p, p);
    DoubledHalfEmptyDiverges(fuel);
  }

  /**
   * Events built from Range::new and union alone can have no measure: the union of
   * (0,1), (2,3) and (4,5), taken left to right, never finishes measuring.
   */
  lemma ThreeIntervalUnionDiverges(fuel: nat)
    ensures LebesgueMeasure(UnionWith(UnionWith(NewRange(0.0, 1.0), NewRange(2.0, 3.0)), NewRange(4.0, 5.0)), fuel).None?
  {
    var a, c := Simple(0.0, 1.0), Simple(4.0, 5.0);
    var q := Union(a, c);
    var p := Union(a, Empty);
    assert UnionWith(Simple(0.0, 1.0), Simple(2.0, 3.0)) == Union(a, Simple(2.0, 3.0));
    assert UnionWith(Union(a, Simple(2.0, 3.0)), c) == Union(q, q);
    if fuel > 0 {
      assert Intersect(a, q) == p;
      assert Intersect(q, q) == Union(p, p);
      DoubledHalfEmptyDiverges(fuel - 1);
    }
  }

  // ---------------------------------------------------------------------------
  // Corrected operations: a left `Union` distributes over both of its children

  /** Intersection as evidently intended: exact for every pair of events. */
  function IntersectFixed(r: Range, other: Range): (res: Range)
    ensures forall o :: ContainsOutcome(res, o) <==> ContainsOutcome(r, o) && ContainsOutcome(other, o)
    decreases Size(r) + Size(other)
  {
    match r
    case Empty => Empty
    case Union(s, t) => Union(IntersectFixed(s, other), IntersectFixed(t, other))
    case Simple(a, b) =>
      match other
      case Empty => Empty
      case Union(s, t) => Union(IntersectFixed(s, r), IntersectFixed(t, r))
      case Simple(c, d) => if a > d || b < c then Empty else Simple(Max(a, c), Min(b, d))
  }

  /** Union as evidently intended: keeps every outcome of both operands and, read as
      closed intervals, adds nothing else. */
  function UnionWithFixed(r: Range, other: Range): (res: Range)
    ensures forall o :: ContainsOutcome(r, o) || ContainsOutcome(other, o) ==> ContainsOutcome(res, o)
    ensures forall o :: Covers(res, o) <==> Covers(r, o) || Covers(other, o)
    decreases Size(r) + Size(other)
  {
    match r
    case Empty => other
    case Union(s, t) => Union(UnionWithFixed(s, other), UnionWithFixed(t, other))
    case Simple(a, b) =>
      match other
      case Empty => r
      case Union(s, t) => Union(UnionWithFixed(s, r), UnionWithFixed(t, r))
      case Simple(c, d) => if a > d || b < c then Union(r, other) else Simple(Min(a, c), Max(b, d))
  }

  /** Where the literal operations never meet a left `Union`, they agree with the corrected ones. */
  lemma LiteralAgreesWithFixedOnShallow(x: Range, y: Range)
    requires IsLeaf(x) && Shallow(y)
    ensures Intersect(x, y) == IntersectFixed(x, y)
    ensures UnionWith(x, y) == UnionWithFixed(x, y)
  {
  }
}
