/** The upper-confidence score that ranks siblings during descent. */
module Uct {

  /** The two floating-point functions inside the exploration term
      `sqrt(log(total) / visits)`: `lg` stands for `log` and `sq` for
      `sqrt`. */
  datatype Term = Term(lg: nat -> real, sq: real -> real)

  /** What the model assumes of them: the logarithm of a count of at least
      one is non-negative, and the square root is non-negative and
      monotone on non-negative arguments. */
  ghost predicate TermLaw(x: Term) {
    && (forall total: nat :: 1 <= total ==> 0.0 <= x.lg(total))
    && (forall y: real :: 0.0 <= y ==> 0.0 <= x.sq(y))
    && (forall y1: real, y2: real :: 0.0 <= y1 <= y2 ==> x.sq(y1) <= x.sq(y2))
  }

  type Exploration = x: Term | TermLaw(x)
    witness Term((n: nat) => 0.0, (y: real) => 0.0)

  /** `sqrt(log(total) / current)`. The source raises on a zero count:
      `log(0)` is undefined and `current` is a divisor. */
  function ExplorationTerm(x: Exploration, total: nat, visits: nat): (r: real)
    requires 1 <= total && 1 <= visits
    ensures 0.0 <= r
  {
    x.sq(x.lg(total) / (visits as real))
  }

  /** The exploration weight the agent passes to every score. */
  const Temperature: real := 1.5

  /** `uct_score`: the exploitation value (the child's win rate) plus the
      weighted exploration term. */
  function UctScore(rate: real, total: nat, visits: nat, temperature: real, explore: Exploration): (r: real)
    requires 1 <= total && 1 <= visits
    ensures 0.0 <= temperature ==> rate <= r
  {
    rate + temperature * ExplorationTerm(explore, total, visits)
  }

  /** A better win rate never lowers the score, and a strictly better one
      strictly raises it. */
  lemma UctMonotoneInRate(r1: real, r2: real, total: nat, visits: nat, temperature: real, explore: Exploration)
    requires 1 <= total && 1 <= visits
    ensures r1 <= r2 ==> UctScore(r1, total, visits, temperature, explore) <= UctScore(r2, total, visits, temperature, explore)
    ensures r1 < r2 ==> UctScore(r1, total, visits, temperature, explore) < UctScore(r2, total, visits, temperature, explore)
  {
  }

  /** With the sibling total fixed, more visits never raise the score:
      the logarithm is divided by a larger count, and the square root is
      monotone. */
  lemma UctNonIncreasingInVisits(rate: real, total: nat, v1: nat, v2: nat, temperature: real, explore: Exploration)
    requires 1 <= total && 1 <= v1 <= v2 && 0.0 <= temperature
    ensures UctScore(rate, total, v2, temperature, explore) <= UctScore(rate, total, v1, temperature, explore)
  {
    var a := explore.lg(total);
    QuotientNonIncreasing(a, v1 as real, v2 as real);
    var d := ExplorationTerm(explore, total, v1) - ExplorationTerm(explore, total, v2);
    assert 0.0 <= d;
    assert temperature * ExplorationTerm(explore, total, v1) - temperature * ExplorationTerm(explore, total, v2)
        == temperature * d;
  }

  /** A non-negative numerator over a larger divisor gives a smaller quotient. */
  lemma QuotientNonIncreasing(a: real, v1: real, v2: real)
    requires 0.0 <= a && 0.0 < v1 <= v2
    ensures 0.0 <= a / v2 <= a / v1
  {
    var q1 := a / v1;
    var q2 := a / v2;
    assert q1 * v1 == a && q2 * v2 == a;
    assert 0.0 <= q1 * (v2 - v1);
    assert q2 * v2 <= q1 * v2;
  }
}
