/**
 * The uniform random variable of prob2.rs and its probability_of query, which
 * measures the part of an event inside the support and divides by the length
 * of the support; plus the additive-shift decorator AddedConstantVariable.
 */
module Probability {
  import opened Wrappers
  import opened Events

  /** Unif: the uniform distribution on the support [a, b]. */
  datatype Unif = Unif(a: real, b: real)

  /** The support of a uniform variable as an event, as probability_of builds it. */
  function Support(u: Unif): Range { Simple(u.a, u.b) }

  /** Unif::new: the source panics when a > b (None here) and accepts a == b. */
  function NewUnif(a: real, b: real): (u: Option<Unif>)
    ensures u.Some? <==> a <= b
    ensures u.Some? ==> u.value.a == a && u.value.b == b && WellFormed(Support(u.value))
  {
    if a > b then None else Some(Unif(a, b))
  }

  /**
   * Outcome of probability_of: the ratio; the division by a support of length
   * zero (a NaN in f32); or a measure recursion that had not finished within
   * the fuel (the source does not return).
   */
  datatype Probability = Ratio(p: real) | DegenerateSupport | Undetermined

  /** Unif::probability_of: measure(support ∩ ev) / measure(support). */
  function ProbabilityOf(u: Unif, ev: Range, fuel: nat): Probability {
    var s := Support(u);
    var num, den := LebesgueMeasure(Intersect(s, ev), fuel), LebesgueMeasure(s, fuel);
    if num.None? || den.None? then Undetermined
    else if den.value == 0.0 then DegenerateSupport
    else Ratio(num.value / den.value)
  }

  /** A leaf event that lies inside [a, b]. */
  predicate Within(r: Range, a: real, b: real) {
    IsLeaf(r) && (r.Simple? ==> a <= r.lo && r.hi <= b)
  }

  lemma IntersectWithSupportIsWithin(x: Range, a: real, b: real)
    requires IsLeaf(x) && WellFormed(x) && a <= b
    ensures Within(Intersect(x, Simple(a, b)), a, b) && Within(Intersect(Simple(a, b), x), a, b)
  {
  }

  lemma CoverLengthWithin(x: Range, y: Range, a: real, b: real)
    requires Within(x, a, b) && Within(y, a, b) && WellFormed(x) && WellFormed(y) && a <= b
    ensures CoverLength(x, y) <= b - a
  {
    if x.Empty? {
      assert IntervalLength(y) <= b - a;
    } else if y.Empty? {
      assert IntervalLength(x) <= b - a;
    } else {
      assert a <= x.lo && x.hi <= b && a <= y.lo && y.hi <= b;
      if x.hi <= y.lo || y.hi <= x.lo {
      } else {
        assert Max(x.hi, y.hi) <= b && a <= Min(x.lo, y.lo);
      }
    }
  }

  /** A part over a positive whole is a ratio in [0, 1]. */
  lemma RatioInUnit(n: real, d: real)
    requires 0.0 <= n <= d && 0.0 < d
    ensures 0.0 <= n / d <= 1.0
  {
  }

  /** A positive length over itself is 1. */
  lemma DivSelf(w: real)
    requires 0.0 < w
    ensures w / w == 1.0
  {
  }

  /** Probability of an interval event: a ratio in [0, 1]; 0 when the event misses the
      support, 1 when it covers it, and the length ratio when it lies inside it. */
  lemma ProbabilityOfInterval(u: Unif, c: real, d: real, fuel: nat)
    requires u.a < u.b && c <= d && fuel >= 1
    ensures ProbabilityOf(u, Simple(c, d), fuel).Ratio?
    ensures 0.0 <= ProbabilityOf(u, Simple(c, d), fuel).p <= 1.0
    ensures d <= u.a || u.b <= c ==> ProbabilityOf(u, Simple(c, d), fuel) == Ratio(0.0)
    ensures c <= u.a && u.b <= d ==> ProbabilityOf(u, Simple(c, d), fuel) == Ratio(1.0)
    ensures u.a <= c && d <= u.b ==> ProbabilityOf(u, Simple(c, d), fuel) == Ratio((d - c) / (u.b - u.a))
  {
    var s := Support(u);
    var i := Intersect(s, Simple(c, d));
    IntersectOfLeavesMeasure(s, Simple(c, d));
    var len := IntervalLength(i);
    assert LebesgueMeasure(i, fuel) == Some(len);
    assert LebesgueMeasure(s, fuel) == Some(u.b - u.a);
    assert ProbabilityOf(u, Simple(c, d), fuel) == Ratio(len / (u.b - u.a));
    RatioInUnit(len, u.b - u.a);
    if d <= u.a || u.b <= c {
      assert len == 0.0;
    }
    if c <= u.a && u.b <= d {
      assert len == u.b - u.a;
      DivSelf(len);
    }
    if u.a <= c && d <= u.b {
      assert len == d - c;
    }
  }

  /** For a shallow event the query terminates with a ratio in [0, 1]: the length of the
      part of the event inside the support over the length of the support. */
  lemma ProbabilityOfShallowEvent(u: Unif, ev: Range, fuel: nat)
    requires u.a < u.b && WellFormed(ev) && Shallow(ev) && fuel >= 2
    ensures Shallow(Intersect(Support(u), ev))
    ensures ProbabilityOf(u, ev, fuel) == Ratio(ShallowLength(Intersect(Support(u), ev)) / (u.b - u.a))
    ensures 0.0 <= ProbabilityOf(u, ev, fuel).p <= 1.0
  {
    var s := Support(u);
    var i := Intersect(s, ev);
    if ev.Union? {
      IntersectWithSupportIsWithin(ev.s, u.a, u.b);
      IntersectWithSupportIsWithin(ev.t, u.a, u.b);
      CoverLengthWithin(Intersect(ev.s, s), Intersect(ev.t, s), u.a, u.b);
    } else {
      IntersectOfLeavesMeasure(s, ev);
    }
    MeasureOfShallow(i, fuel);
    assert 0.0 <= ShallowLength(i) <= u.b - u.a;
    RatioInUnit(ShallowLength(i), u.b - u.a);
  }

  /** A support of length zero never yields a ratio; for a shallow event it is reported as such. */
  lemma ProbabilityOfDegenerateSupport(u: Unif, ev: Range, fuel: nat)
    requires u.a == u.b
    ensures !ProbabilityOf(u, ev, fuel).Ratio?
    ensures WellFormed(ev) && Shallow(ev) && fuel >= 2 ==> ProbabilityOf(u, ev, fuel) == DegenerateSupport
  {
    if WellFormed(ev) && Shallow(ev) && fuel >= 2 {
      var i := Intersect(Support(u), ev);
      if ev.Union? {
        IntersectWithSupportIsWithin(ev.s, u.a, u.b);
        IntersectWithSupportIsWithin(ev.t, u.a, u.b);
      } else {
        IntersectOfLeavesMeasure(Support(u), ev);
      }
      MeasureOfShallow(i, fuel);
    }
  }

  /** An event Union(q, q) with q = Union(A, A) and A meeting the support makes the query
      run forever: no amount of fuel yields an answer. */
  lemma ProbabilityUndeterminedOnDoubledUnion(u: Unif, c: real, d: real, fuel: nat)
    requires u.a <= u.b && c <= d && !(c > u.b || d < u.a)
    ensures ProbabilityOf(u, Union(Union(Simple(c, d), Simple(c, d)), Union(Simple(c, d), Simple(c, d))), fuel) == Undetermined
  {
    var s := Support(u);
    var a := Simple(c, d);
    var q := Union(a, a);
    var a' := Simple(Max(c, u.a), Min(d, u.b));
    assert Intersect(a, s) == a';
    assert Intersect(q, s) == Union(a', a');
    assert Intersect(s, Union(q, q)) == Union(Union(a', a'), Union(a', a'));
    MeasureDiverges(Max(c, u.a), Min(d, u.b), fuel);
  }

  /** The expectation of the source's test desired_continuous_usage. */
  lemma DesiredUsageExpectation()
    ensures NewUnif(0.0, 1.0) == Some(Unif(0.0, 1.0))
    ensures ProbabilityOf(Unif(0.0, 1.0), NewRange(0.0, 0.3), 1) == Ratio(0.3)
  {
    ProbabilityOfInterval(Unif(0.0, 1.0), 0.0, 0.3, 1);
  }

  /** The expectations of the test more_assertions on Unif(0, 80). */
  lemma MoreAssertionsExpectations()
    ensures NewUnif(0.0, 80.0) == Some(Unif(0.0, 80.0))
    ensures ProbabilityOf(Unif(0.0, 80.0), NewRange(0.0, 80.0), 1) == Ratio(1.0)
    ensures ProbabilityOf(Unif(0.0, 80.0), NewRange(-20.0, 20.0), 1) == Ratio(0.25)
    ensures ProbabilityOf(Unif(0.0, 80.0), NewRange(0.0, 20.0), 1) == Ratio(0.25)
    ensures ProbabilityOf(Unif(0.0, 80.0), NewRange(0.0, 100.0), 1) == Ratio(1.0)
  {
    ProbabilityOfInterval(Unif(0.0, 80.0), 0.0, 80.0, 1);
    ProbabilityOfInterval(Unif(0.0, 80.0), -20.0, 20.0, 1);
    ProbabilityOfInterval(Unif(0.0, 80.0), 0.0, 20.0, 1);
    ProbabilityOfInterval(Unif(0.0, 80.0), 0.0, 100.0, 1);
  }

  // ---------------------------------------------------------------------------
  // The additive-shift decorator

  /** AddedConstantVariable: a random variable meant to be v + k. */
  datatype AddedConstantVariable = AddedConstantVariable(v: Unif, k: real)

  /** AddConstant::add_constant: wraps a copy of the variable with the constant. */
  function AddConstant(v: Unif, k: real): AddedConstantVariable {
    AddedConstantVariable(v, k)
  }

  /** AddedConstantVariable::probability_of as written: the event is passed on unshifted. */
  function AddedProbabilityOf(x: AddedConstantVariable, ev: Range, fuel: nat): Probability {
    ProbabilityOf(x.v, ev, fuel)
  }

  /** The constant never influences the literal decorator: it answers as the wrapped variable. */
  lemma AddedIgnoresConstant(v: Unif, k1: real, k2: real, ev: Range, fuel: nat)
    ensures AddedProbabilityOf(AddConstant(v, k1), ev, fuel) == AddedProbabilityOf(AddConstant(v, k2), ev, fuel)
    ensures AddedProbabilityOf(AddConstant(v, k1), ev, fuel) == ProbabilityOf(v, ev, fuel)
  {
  }

  /** Both expectations of the ignored test transform_random_variables fail on the literal decorator. */
  lemma ShiftTestExpectationsFail()
    ensures ProbabilityOf(Unif(0.0, 10.0), NewRange(2.0, 4.0), 1) == Ratio(0.2)
    ensures AddedProbabilityOf(AddConstant(Unif(0.0, 10.0), 10.0), NewRange(12.0, 14.0), 1) == Ratio(0.0)
    ensures AddedProbabilityOf(AddConstant(Unif(0.0, 10.0), 10.0), NewRange(0.0, 8.0), 1) == Ratio(0.8)
  {
    ProbabilityOfInterval(Unif(0.0, 10.0), 2.0, 4.0, 1);
    ProbabilityOfInterval(Unif(0.0, 10.0), 12.0, 14.0, 1);
    ProbabilityOfInterval(Unif(0.0, 10.0), 0.0, 8.0, 1);
  }

  /** Moves every interval of an event by k. */
  function Shift(r: Range, k: real): (res: Range)
    ensures forall o :: ContainsOutcome(res, o) <==> ContainsOutcome(r, o - k)
    ensures Size(res) == Size(r)
  {
    match r
    case Empty => Empty
    case Simple(a, b) => Simple(a + k, b + k)
    case Union(s, t) => Union(Shift(s, k), Shift(t, k))
  }

  lemma {:induction false} ShiftRoundTrip(r: Range, k: real)
    ensures Shift(Shift(r, k), -k) == r
  {
    if r.Union? {
      ShiftRoundTrip(r.s, k);
      ShiftRoundTrip(r.t, k);
    }
  }

  /** Shifting commutes with the literal intersection. */
  lemma {:induction false} ShiftIntersect(x: Range, y: Range, k: real)
    ensures Intersect(Shift(x, k), Shift(y, k)) == Shift(Intersect(x, y), k)
    decreases Size(x) + Size(y)
  {
    match x
    case Empty =>
    case Union(s, _) => ShiftIntersect(s, y, k);
    case Simple(_, _) =>
      match y
      case Empty =>
      case Union(s, t) =>
        ShiftIntersect(s, x, k);
        ShiftIntersect(t, x, k);
      case Simple(_, _) =>
  }

  /** Shifting an event does not change its measure, with the same fuel. */
  lemma {:induction false} ShiftMeasure(r: Range, k: real, fuel: nat)
    ensures LebesgueMeasure(Shift(r, k), fuel) == LebesgueMeasure(r, fuel)
    decreases fuel
  {
    if fuel > 0 && r.Union? {
      var s, t := Shift(r.s, k), Shift(r.t, k);
      assert Shift(r, k) == Union(s, t);
      ShiftMeasure(r.s, k, fuel - 1);
      ShiftMeasure(r.t, k, fuel - 1);
      ShiftIntersect(r.s, r.t, k);
      ShiftMeasure(Intersect(r.s, r.t), k, fuel - 1);
      assert LebesgueMeasure(Intersect(s, t), fuel - 1) == LebesgueMeasure(Intersect(r.s, r.t), fuel - 1);
    }
  }

  /** The decorator as evidently intended: v + k behaves as the uniform variable on the
      shifted support [a + k, b + k]. */
  function ShiftedProbabilityOf(x: AddedConstantVariable, ev: Range, fuel: nat): (p: Probability)
    ensures p == ProbabilityOf(Unif(x.v.a + x.k, x.v.b + x.k), ev, fuel)
  {
    var back := Shift(ev, -x.k);
    ShiftRoundTrip(ev, -x.k);
    assert Shift(back, x.k) == ev by { assert --x.k == x.k; }
    ShiftIntersect(Support(x.v), back, x.k);
    ShiftMeasure(Intersect(Support(x.v), back), x.k, fuel);
    ShiftMeasure(Support(x.v), x.k, fuel);
    ProbabilityOf(x.v, back, fuel)
  }

  /** Both expectations of transform_random_variables hold for the corrected decorator. */
  lemma ShiftTestExpectationsHold()
    ensures ShiftedProbabilityOf(AddConstant(Unif(0.0, 10.0), 10.0), NewRange(12.0, 14.0), 1)
         == ProbabilityOf(Unif(0.0, 10.0), NewRange(2.0, 4.0), 1)
    ensures ShiftedProbabilityOf(AddConstant(Unif(0.0, 10.0), 10.0), NewRange(0.0, 8.0), 1) == Ratio(0.0)
  {
  }
}
