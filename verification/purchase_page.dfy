/**
 * The purchase page's price breakdown: the base fare, a 7% service fee, an
 * optional 3% insurance, each fee rounded with JavaScript's `Math.round`.
 */
module PurchasePage {
  import opened UiModel

  /** The service fee, 7% of the base fare. */
  const ServiceFeeRate: real := 0.07

  /** The insurance, 3% of the base fare. */
  const InsuranceRate: real := 0.03

  /** JavaScript `Math.round`: the nearest integer, halves rounded up (towards +∞). */
  function MathRound(x: real): (r: int)
    ensures x - 0.5 < r as real <= x + 0.5
  {
    (x + 0.5).Floor
  }

  /** The integer part of a real is the one integer `k` with `k <= x < k + 1`. */
  lemma FloorUnique(x: real, k: int)
    requires k as real <= x < k as real + 1.0
    ensures x.Floor == k
  {
  }

  /** Rounding a percentage of a whole number of roubles is integer arithmetic:
    * `Math.round(n * p / 100)` is `(p * n + 50) div 100`. */
  lemma {:induction false} RoundPercent(n: int, p: int)
    ensures MathRound(n as real * (p as real / 100.0)) == (p * n + 50) / 100
  {
    var q, m := (p * n + 50) / 100, (p * n + 50) % 100;
    assert p * n + 50 == 100 * q + m && 0 <= m < 100;
    var x := n as real * (p as real / 100.0) + 0.5;
    assert x == (p * n + 50) as real / 100.0;
    assert x == q as real + m as real / 100.0;
    FloorUnique(x, q);
  }

  /** The amounts the page shows. */
  datatype Prices = Prices(base: real, serviceFee: int, insurance: int, total: real)

  /** The `prices` memo for a route's `total_price` and the insurance checkbox. */
  function Breakdown(base: real, withInsurance: bool): (p: Prices)
    ensures p.base == base
    ensures p.total == p.base + p.serviceFee as real + p.insurance as real
    ensures base * ServiceFeeRate - 0.5 < p.serviceFee as real <= base * ServiceFeeRate + 0.5
    ensures withInsurance ==> base * InsuranceRate - 0.5 < p.insurance as real <= base * InsuranceRate + 0.5
    ensures !withInsurance ==> p.insurance == 0
  {
    var serviceFee := MathRound(base * ServiceFeeRate);
    var insurance := if withInsurance then MathRound(base * InsuranceRate) else 0;
    Prices(base, serviceFee, insurance, base + serviceFee as real + insurance as real)
  }

  /** For a whole-rouble fare the fees are the integer formulas `(7n + 50) div 100` and `(3n + 50) div 100`. */
  lemma WholeRoubleFees(n: int, withInsurance: bool)
    ensures Breakdown(n as real, withInsurance).serviceFee == (7 * n + 50) / 100
    ensures withInsurance ==> Breakdown(n as real, withInsurance).insurance == (3 * n + 50) / 100
  {
    RoundPercent(n, 7);
    RoundPercent(n, 3);
  }

  /** Fees are never negative on a non-negative fare, so the total is at least the fare. */
  lemma TotalAtLeastBase(base: real, withInsurance: bool)
    requires base >= 0.0
    ensures Breakdown(base, withInsurance).serviceFee >= 0
    ensures Breakdown(base, withInsurance).insurance >= 0
    ensures Breakdown(base, withInsurance).total >= base
  {
  }

  /** The amount printed next to the insurance checkbox, computed from the route's fare. */
  function InsuranceLabelAmount(route: UiRoute): (a: int)
    ensures route.totalPrice * InsuranceRate - 0.5 < a as real <= route.totalPrice * InsuranceRate + 0.5
  {
    MathRound(route.totalPrice * InsuranceRate)
  }

  /** Ticking the box adds exactly the amount the label promises, and adds it to the
    * insurance line and to the total alike; the service fee does not move. */
  lemma InsuranceToggle(route: UiRoute)
    ensures var on, off := Breakdown(route.totalPrice, true), Breakdown(route.totalPrice, false);
      && on.insurance == InsuranceLabelAmount(route)
      && on.serviceFee == off.serviceFee
      && on.total - off.total == InsuranceLabelAmount(route) as real
  {
  }
}
