/**
 * The route records the React front end receives from the search endpoint,
 * and the "first stop → last stop" caption that several components print.
 */
module UiModel {
  import opened Wrappers

  /** One leg as the front end reads it: `id`, `from_name`, `to_name`, `type`,
    * `operator` and `price` (absent or a number). */
  datatype UiSegment = UiSegment(
    id: Option<string>,
    fromName: string,
    toName: string,
    kind: string,
    operator: string,
    price: Option<real>)

  /** One itinerary: `id`, `segments`, `total_price` and `recommended_label`. */
  datatype UiRoute = UiRoute(
    id: string,
    segments: seq<UiSegment>,
    totalPrice: real,
    recommendedLabel: Option<string>)

  /** The arrow the components put between two stop names. */
  const Arrow: string := " → "

  /** `first.from_name → last.to_name`. Every component that prints it indexes
    * `segments[0]`, so a route without segments is outside what they handle. */
  function RouteTitle(segs: seq<UiSegment>): (r: string)
    requires |segs| > 0
  {
    segs[0].fromName + Arrow + segs[|segs| - 1].toName
  }

  /** The caption starts with the first leg's origin and ends with the last leg's destination. */
  lemma RouteTitleEnds(segs: seq<UiSegment>)
    requires |segs| > 0
    ensures var r, from, to := RouteTitle(segs), segs[0].fromName, segs[|segs| - 1].toName;
      |r| == |from| + |Arrow| + |to| && r[..|from|] == from && r[|r| - |to|..] == to
  {
  }

  /** A route put together from two parts is captioned by the first part's origin
    * and the second part's destination: the legs in between do not matter. */
  lemma RouteTitleConcat(a: seq<UiSegment>, b: seq<UiSegment>)
    requires |a| > 0 && |b| > 0
    ensures RouteTitle(a + b) == a[0].fromName + Arrow + b[|b| - 1].toName
  {
    assert (a + b)[0] == a[0];
    assert (a + b)[|a + b| - 1] == b[|b| - 1];
  }
}
