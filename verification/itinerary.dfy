/**
 * The records the itinerary search works on (backend/main.py): stops, timetable
 * segments, timed legs and built itineraries, with the arithmetic of `build_route`.
 * Time is counted in whole minutes from midnight of the fixed base date
 * (2025-02-10) on which every itinerary is laid out.
 */
module Itineraries {
  import opened Wrappers
  import Text

  /** `MIN_TRANSFER`: the connection time between two legs, in minutes. */
  const MinTransfer: int := 30
  /** `MAX_LEGS`: the longest itinerary the search builds. */
  const MaxLegs: nat := 5
  /** 07:00 on the base date: the first departure when no schedule time parses. */
  const DefaultDeparture: int := 7 * 60

  /** A time of day, as `datetime.time()` of a parsed schedule timestamp. */
  type MinuteOfDay = m: int | 0 <= m < 1440

  /** A stop of the stop list; a field missing from the record is `None`. */
  datatype Stop = Stop(id: string, name: Option<string>, city: Option<string>)

  /**
   * A timetable segment as loaded at start-up. `duration` is `duration_hours` in
   * minutes; `schedDep`/`schedArr` are the time of day of `schedule_dep_time` and
   * `schedule_arr_time` when those are strings that parse, else `None`.
   */
  datatype Segment = Segment(
    id: string,
    fromId: string,
    toId: string,
    fromName: Option<string>,
    toName: Option<string>,
    kind: string,
    operator: string,
    source: string,
    price: int,
    delayRisk: real,
    duration: int,
    schedDep: Option<MinuteOfDay>,
    schedArr: Option<MinuteOfDay>)

  /** One leg of a built itinerary: the segment plus display names and its times. */
  datatype Leg = Leg(seg: Segment, fromName: string, toName: string, departure: int, arrival: int)

  /** `recommended_label`: `None`, `"fastest"`, `"cheapest"` or `"reliable"`. */
  datatype Label = NoLabel | Fastest | Cheapest | Reliable

  /** The dictionary `build_route` returns. */
  datatype Itinerary = Itinerary(
    id: string,
    legs: seq<Leg>,
    totalPrice: int,
    totalMinutes: int,
    totalRisk: real,
    recommended: Label)

  /** The segments an itinerary was built from, in order. */
  function PathOf(r: Itinerary): (p: seq<Segment>)
    ensures |p| == |r.legs|
    ensures forall i :: 0 <= i < |p| ==> p[i] == r.legs[i].seg
  {
    seq(|r.legs|, i requires 0 <= i < |r.legs| => r.legs[i].seg)
  }

  /** `sum(s["price"] for s in path)`. */
  function TotalPrice(path: seq<Segment>): int {
    if path == [] then 0 else TotalPrice(path[..|path| - 1]) + path[|path| - 1].price
  }

  /** The sum of the legs' durations (the fallback total of `build_route`). */
  function SumDurations(path: seq<Segment>): int {
    if path == [] then 0 else SumDurations(path[..|path| - 1]) + path[|path| - 1].duration
  }

  /** The product of `1 - delay_risk` over the path, computed exactly. */
  function RiskProduct(path: seq<Segment>): real {
    if path == [] then 1.0 else RiskProduct(path[..|path| - 1]) * (1.0 - path[|path| - 1].delayRisk)
  }

  function SegmentIds(path: seq<Segment>): (ids: seq<string>)
    ensures |ids| == |path|
    ensures forall i :: 0 <= i < |path| ==> ids[i] == path[i].id
  {
    seq(|path|, i requires 0 <= i < |path| => path[i].id)
  }

  /** The route id: `"route_"` and the segment ids joined with `"__"`. */
  function RouteId(path: seq<Segment>): string {
    "route_" + Text.Join(SegmentIds(path), "__")
  }

  /** The first leg's departure: the schedule time of day, else 07:00. */
  function FirstDeparture(s: Segment): int {
    match s.schedDep
    case Some(t) => t
    case None => DefaultDeparture
  }

  /** A single-leg route arrives at its schedule time when that is after departure. */
  function SingleLegArrival(s: Segment, dep: int): int {
    match s.schedArr
    case Some(a) => if a > dep then a else dep + s.duration
    case None => dep + s.duration
  }

  /** The name shown for a stop: the stop list's name, else the segment's, else the id. */
  function StopName(stopsById: map<string, Stop>, id: string, fallback: Option<string>): string {
    if id in stopsById && stopsById[id].name.Some? then stopsById[id].name.value
    else fallback.GetOr(id)
  }

  /**
   * The timing rule of `build_route`: each later leg departs `MinTransfer` after
   * the previous arrival, and arrives after its duration, except that a
   * single-leg route may use its schedule arrival.
   */
  ghost predicate TimedLegs(legs: seq<Leg>) {
    && (forall i :: 0 < i < |legs| ==> legs[i].departure == legs[i - 1].arrival + MinTransfer)
    && (|legs| == 1 ==> legs[0].arrival == SingleLegArrival(legs[0].seg, legs[0].departure))
    && (|legs| != 1 ==> forall i :: 0 <= i < |legs| ==> legs[i].arrival == legs[i].departure + legs[i].seg.duration)
  }

  /** Everything `build_route` establishes about a route, the label aside. */
  ghost predicate WellBuilt(r: Itinerary) {
    var path := PathOf(r);
    && r.id == RouteId(path)
    && r.totalPrice == TotalPrice(path)
    && r.totalRisk == 1.0 - RiskProduct(path)
    && TimedLegs(r.legs)
    && (|path| > 0 ==> r.legs[0].departure == FirstDeparture(path[0]))
    && r.totalMinutes == (if path == [] then SumDurations(path) else r.legs[|path| - 1].arrival - r.legs[0].departure)
  }

  lemma {:induction false} ArrivalSpan(legs: seq<Leg>, k: nat)
    requires 1 <= k <= |legs|
    requires forall i :: 0 < i < |legs| ==> legs[i].departure == legs[i - 1].arrival + MinTransfer
    requires forall i :: 0 <= i < |legs| ==> legs[i].arrival == legs[i].departure + legs[i].seg.duration
    ensures legs[k - 1].arrival - legs[0].departure
      == SumDurations(PathOf(Itinerary("", legs[..k], 0, 0, 0.0, NoLabel))) + MinTransfer * (k - 1)
  {
    var p := PathOf(Itinerary("", legs[..k], 0, 0, 0.0, NoLabel));
    if k > 1 {
      ArrivalSpan(legs, k - 1);
      var q := PathOf(Itinerary("", legs[..k - 1], 0, 0, 0.0, NoLabel));
      assert p[..k - 1] == q;
    }
  }

  /**
   * For a route of two or more legs, the total time is the sum of the leg
   * durations plus one `MinTransfer` for every change.
   */
  lemma TotalTimeIsDurationsPlusTransfers(r: Itinerary)
    requires WellBuilt(r)
    requires |r.legs| >= 2
    ensures r.totalMinutes == SumDurations(PathOf(r)) + MinTransfer * (|r.legs| - 1)
  {
    ArrivalSpan(r.legs, |r.legs|);
    assert r.legs[..|r.legs|] == r.legs;
  }

  /** With leg risks between 0 and 1, the route's combined risk is between 0 and 1. */
  lemma {:induction false} RiskProductBounds(path: seq<Segment>)
    requires forall i :: 0 <= i < |path| ==> 0.0 <= path[i].delayRisk <= 1.0
    ensures 0.0 <= RiskProduct(path) <= 1.0
  {
    if path != [] {
      var n := |path| - 1;
      RiskProductBounds(path[..n]);
      var a := RiskProduct(path[..n]);
      var b := 1.0 - path[n].delayRisk;
      assert 0.0 <= b <= 1.0;
      assert 0.0 <= a * b by {
        assert 0.0 <= a && 0.0 <= b;
      }
      assert a * b <= 1.0 by {
        assert a * b <= a * 1.0;
      }
    }
  }

  /** With non-negative leg prices, the route price is at least each leg's price. */
  lemma {:induction false} TotalPriceCoversLegs(path: seq<Segment>, i: nat)
    requires forall j :: 0 <= j < |path| ==> path[j].price >= 0
    requires i < |path|
    ensures TotalPrice(path) >= path[i].price
  {
    var n := |path| - 1;
    if i < n {
      TotalPriceCoversLegs(path[..n], i);
      NonNegativeTotal(path[..n]);
    } else {
      NonNegativeTotal(path[..n]);
    }
  }

  lemma {:induction false} NonNegativeTotal(path: seq<Segment>)
    requires forall j :: 0 <= j < |path| ==> path[j].price >= 0
    ensures TotalPrice(path) >= 0
  {
    if path != [] {
      NonNegativeTotal(path[..|path| - 1]);
    }
  }
}
