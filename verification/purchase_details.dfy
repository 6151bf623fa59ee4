/**
 * The confirmation page after a purchase: one ticket per passenger, the total
 * split evenly between them, each ticket carrying the whole route.
 */
module PurchaseDetails {
  import opened Wrappers
  import Text
  import opened UiModel

  /** A passenger as entered on the purchase form: `name`, document `type` and `number`. */
  datatype Passenger = Passenger(name: string, docType: string, number: string)

  /** One issued ticket. */
  datatype Ticket = Ticket(
    id: string,
    passengerName: string,
    documentType: string,
    documentNumber: string,
    price: real,
    segments: seq<UiSegment>,
    routeTitle: string)

  /** Shown instead of the tickets when the page is opened without purchase data. */
  const MissingDataText: string := "Ошибка: нет данных о покупке."

  /** `ticket_<index>`. */
  function TicketId(i: nat): string {
    "ticket_" + Text.NatToString(i)
  }

  /** Different passengers get different ticket ids. */
  lemma TicketIdsDistinct(i: nat, j: nat)
    requires TicketId(i) == TicketId(j)
    ensures i == j
  {
    assert TicketId(i)[7..] == Text.NatToString(i);
    assert TicketId(j)[7..] == Text.NatToString(j);
    Text.NatToStringInjective(i, j);
  }

  /** The ticket of the `i`-th passenger. */
  function TicketFor(i: nat, p: Passenger, share: real, segs: seq<UiSegment>): Ticket
    requires |segs| > 0
  {
    Ticket(TicketId(i), p.name, p.docType, p.number, share, segs, RouteTitle(segs))
  }

  /** The page's `tickets` for the navigation state's `route`, `passengers` and
    * `prices.total`. A missing route or passenger list gives the error message.
    * A ticket's title indexes `route.segments[0]`, so once there is a passenger
    * the route must have a segment. */
  function Tickets(route: Option<UiRoute>, passengers: Option<seq<Passenger>>, total: real): (r: Result<seq<Ticket>, string>)
    requires route.Some? && passengers.Some? && |passengers.value| > 0 ==> |route.value.segments| > 0
    ensures r.Err? <==> route.None? || passengers.None?
    ensures r.Err? ==> r.error == MissingDataText
    ensures r.Ok? ==> |r.value| == |passengers.value|
    ensures r.Ok? ==> forall i :: 0 <= i < |r.value| ==>
      var t, p, segs := r.value[i], passengers.value[i], route.value.segments;
      && t.id == TicketId(i)
      && t.passengerName == p.name && t.documentType == p.docType && t.documentNumber == p.number
      && t.price == total / |r.value| as real
      && t.segments == segs && t.routeTitle == RouteTitle(segs)
  {
    if route.None? || passengers.None? then Err(MissingDataText)
    else
      var ps, segs := passengers.value, route.value.segments;
      var n := |ps|;
      Ok(seq(n, i requires 0 <= i < n => TicketFor(i, ps[i], total / n as real, segs)))
  }

  /** The sum of the ticket prices. */
  function PriceSum(ts: seq<Ticket>): real {
    if ts == [] then 0.0 else PriceSum(ts[..|ts| - 1]) + ts[|ts| - 1].price
  }

  /** Tickets that all cost `c` sum to `|ts| * c`. */
  lemma {:induction false} PriceSumEqual(ts: seq<Ticket>, c: real)
    requires forall i :: 0 <= i < |ts| ==> ts[i].price == c
    ensures PriceSum(ts) == |ts| as real * c
  {
    if ts != [] {
      PriceSumEqual(ts[..|ts| - 1], c);
    }
  }

  /** The ticket prices add up to the purchase total, and no two tickets share an id. */
  lemma TicketsSplitTotal(route: UiRoute, passengers: seq<Passenger>, total: real)
    requires |passengers| > 0 && |route.segments| > 0
    ensures Tickets(Some(route), Some(passengers), total).Ok?
    ensures var ts := Tickets(Some(route), Some(passengers), total).value;
      && PriceSum(ts) == total
      && forall i, j :: 0 <= i < j < |ts| ==> ts[i].id != ts[j].id
  {
    var ts := Tickets(Some(route), Some(passengers), total).value;
    var n := |passengers|;
    PriceSumEqual(ts, total / n as real);
    assert n as real * (total / n as real) == total;
    forall i, j | 0 <= i < j < |ts|
      ensures ts[i].id != ts[j].id
    {
      if ts[i].id == ts[j].id {
        TicketIdsDistinct(i, j);
      }
    }
  }

  /** What a segment's price line shows. */
  datatype PriceCell = Amount(value: real) | NotGiven

  /** Shown for a segment without a price. */
  const NotGivenText: string := "Цена не указана"

  /** `seg.price ? ... : "Цена не указана"`: a missing price and a price of 0 are both falsy. */
  function SegmentPrice(price: Option<real>): (c: PriceCell)
    ensures c.NotGiven? <==> price.None? || price.value == 0.0
    ensures c.Amount? ==> c.value == price.value
  {
    if price.Some? && price.value != 0.0 then Amount(price.value) else NotGiven
  }
}
