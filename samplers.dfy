/**
 * The samplers of prob.rs. Each sample is arithmetic over calls to a supplied
 * uniform source `u`; the calls are modelled as a sequence of draws that the
 * sampler consumes from the front, and each sampler returns what it left.
 */
module Samplers {

  /** A sample and the draws left after taking it. */
  datatype Sampled = Sampled(value: real, rest: seq<real>)

  /** Unif of prob.rs: Unif::new stores the bounds without checking a <= b. */
  datatype Unif = Unif(a: real, b: real)

  datatype Bern = Bern(p: real)

  datatype Bin = Bin(n: nat, p: real)

  /** Unif::sample: a + u·(b − a) for one draw u; a draw in [0, 1] lands between a and b,
      and the draw can be read back from the sample. */
  function UnifSample(v: Unif, draws: seq<real>): (s: Sampled)
    requires |draws| >= 1
    ensures s.rest == draws[1..]
    ensures v.a <= v.b && 0.0 <= draws[0] <= 1.0 ==> v.a <= s.value <= v.b
    ensures v.b < v.a && 0.0 <= draws[0] <= 1.0 ==> v.b <= s.value <= v.a
    ensures v.a != v.b ==> (s.value - v.a) / (v.b - v.a) == draws[0]
  {
    SampleBetween(v.a, v.b, draws[0]);
    SampleReadBack(v.a, v.b, draws[0]);
    Sampled(SampleValue(v.a, v.b, draws[0]), draws[1..])
  }

  /** The value Unif::sample computes from the bounds and one draw. */
  function SampleValue(a: real, b: real, u: real): real {
    a + u * (b - a)
  }

  /** For u in [0, 1] the sample lies between a and b, whichever is larger. */
  lemma SampleBetween(a: real, b: real, u: real)
    ensures a <= b && 0.0 <= u <= 1.0 ==> a <= SampleValue(a, b, u) <= b
    ensures b < a && 0.0 <= u <= 1.0 ==> b <= SampleValue(a, b, u) <= a
  {
    if 0.0 <= u <= 1.0 {
      if a <= b {
        SampleRising(a, b, u);
      } else {
        SampleFalling(a, b, u);
      }
    }
  }

  lemma SampleRising(a: real, b: real, u: real)
    requires a <= b && 0.0 <= u <= 1.0
    ensures a <= SampleValue(a, b, u) <= b
  {
    var p := u * (b - a);
    Portion(u, b - a, p);
    assert SampleValue(a, b, u) == a + p;
  }

  lemma SampleFalling(a: real, b: real, u: real)
    requires b < a && 0.0 <= u <= 1.0
    ensures b <= SampleValue(a, b, u) <= a
  {
    var p := u * (a - b);
    Portion(u, a - b, p);
    StepDown(a, b, u, p);
  }

  /** The product p = u·w, for u in [0, 1] and w >= 0, lies in [0, w]. */
  lemma Portion(u: real, w: real, p: real)
    requires 0.0 <= u <= 1.0 && 0.0 <= w && p == u * w
    ensures 0.0 <= p <= w
  {
    ScaleNonNegative(u, w);
  }

  /** The sample as a step of p = u·(a − b) down from a. */
  lemma StepDown(a: real, b: real, u: real, p: real)
    requires p == u * (a - b)
    ensures SampleValue(a, b, u) == a - p
  {
  }

  /** The draw can be read back from the sample whenever b differs from a. */
  lemma SampleReadBack(a: real, b: real, u: real)
    ensures a != b ==> (SampleValue(a, b, u) - a) / (b - a) == u
  {
    var w := b - a;
    var p := u * w;
    if a != b {
      ScaleReadBack(u, w);
      assert p / w == u;
      assert a + p - a == p;
    }
  }

  /** A product of two non-negative reals is non-negative. */
  lemma MulNonNegative(x: real, y: real)
    requires 0.0 <= x && 0.0 <= y
    ensures 0.0 <= x * y
  {
  }

  /** A fraction u of a non-negative width w lies between 0 and w. */
  lemma ScaleNonNegative(u: real, w: real)
    requires 0.0 <= u <= 1.0 && 0.0 <= w
    ensures 0.0 <= u * w <= w
  {
    var rest := 1.0 - u;
    assert w - u * w == rest * w;
    MulNonNegative(u, w);
    MulNonNegative(rest, w);
  }

  /** A fraction u of a non-zero width w gives u back when divided by w. */
  lemma ScaleReadBack(u: real, w: real)
    ensures w != 0.0 ==> (u * w) / w == u
  {
  }

  /** Bern::sample: exactly 1 when the draw is below p and exactly 0 otherwise, one draw consumed. */
  function BernSample(b: Bern, draws: seq<real>): (s: Sampled)
    requires |draws| >= 1
    ensures s.rest == draws[1..]
    ensures s.value == 1.0 || s.value == 0.0
    ensures s.value == 1.0 <==> draws[0] < b.p
  {
    Sampled(if draws[0] < b.p then 1.0 else 0.0, draws[1..])
  }

  /** Bern::sucess: the sample reaches 1, that is, the draw was below p. */
  function BernSuccess(b: Bern, draws: seq<real>): (ok: bool)
    requires |draws| >= 1
    ensures ok <==> draws[0] < b.p
  {
    BernSample(b, draws).value >= 1.0
  }

  /**
   * The count of the pipeline (0..n).map(Bern::new(p)).filter(sucess).count():
   * trial i is a fresh Bern(p) that succeeds on draw i. Counted from the last
   * trial backwards; the count does not depend on the order.
   */
  function Successes(p: real, trials: seq<real>): (k: nat)
    ensures k <= |trials|
    decreases |trials|
  {
    if trials == [] then 0
    else
      var last := |trials| - 1;
      Successes(p, trials[..last]) + (if BernSuccess(Bern(p), trials[last..]) then 1 else 0)
  }

  /** Positions of the trials whose draw falls below p. */
  function SuccessIndices(p: real, trials: seq<real>): set<nat> {
    set i: nat | i < |trials| && trials[i] < p
  }

  /** Bin::sample: the number of successes among n trials, one draw each, as a real. */
  function BinSample(v: Bin, draws: seq<real>): (s: Sampled)
    requires |draws| >= v.n
    ensures s.rest == draws[v.n..]
    ensures 0.0 <= s.value <= v.n as real
    ensures s.value == |SuccessIndices(v.p, draws[..v.n])| as real
  {
    SuccessesCountsIndices(v.p, draws[..v.n]);
    Sampled(Successes(v.p, draws[..v.n]) as real, draws[v.n..])
  }

  /** The pipeline's count is the number of positions whose draw is below p. */
  lemma {:induction false} SuccessesCountsIndices(p: real, trials: seq<real>)
    ensures Successes(p, trials) == |SuccessIndices(p, trials)|
    decreases |trials|
  {
    if trials != [] {
      var last := |trials| - 1;
      var front := trials[..last];
      SuccessesCountsIndices(p, front);
      var extra: set<nat> := if trials[last] < p then {last} else {};
      assert SuccessIndices(p, trials) == SuccessIndices(p, front) + extra by {
        forall i: nat | i < last ensures front[i] == trials[i] { }
      }
      assert last !in SuccessIndices(p, front);
    }
  }

  /** Raising p never lowers the count. */
  lemma {:induction false} SuccessesMonotone(p: real, q: real, trials: seq<real>)
    requires p <= q
    ensures Successes(p, trials) <= Successes(q, trials)
    decreases |trials|
  {
    if trials != [] {
      SuccessesMonotone(p, q, trials[..|trials| - 1]);
    }
  }

  /** With p <= 0 and draws >= 0 no trial succeeds; with p > 1 and draws < 1 every trial does. */
  lemma {:induction false} SuccessesExtremes(p: real, trials: seq<real>)
    ensures p <= 0.0 && (forall i :: 0 <= i < |trials| ==> 0.0 <= trials[i]) ==> Successes(p, trials) == 0
    ensures p > 1.0 && (forall i :: 0 <= i < |trials| ==> trials[i] < 1.0) ==> Successes(p, trials) == |trials|
    decreases |trials|
  {
    if trials != [] {
      var front := trials[..|trials| - 1];
      assert forall i :: 0 <= i < |front| ==> front[i] == trials[i];
      SuccessesExtremes(p, front);
    }
  }

  /** Bin::sample at the extremes of p, for draws in [0, 1). */
  lemma BinSampleExtremes(v: Bin, draws: seq<real>)
    requires |draws| >= v.n
    requires forall i :: 0 <= i < |draws| ==> 0.0 <= draws[i] < 1.0
    ensures v.p <= 0.0 ==> BinSample(v, draws).value == 0.0
    ensures v.p > 1.0 ==> BinSample(v, draws).value == v.n as real
  {
    SuccessesExtremes(v.p, draws[..v.n]);
  }
}
