/**
 * backend/gars_tariffs.py: the tariff store built from the GARS register of
 * tariffs in force, and the choice of the tariff that applies on a date.
 *
 * Calendar dates are day ordinals (`date.toordinal()`, so `date.min` is day 1).
 * Converting a string to a float and parsing an ISO date are done by code
 * outside this model; they are the parameters `parseFloat` and `parseDate`.
 */
module Tariffs {
  import opened Wrappers
  import opened Json

  /** A calendar date as its ordinal. */
  type Day = d: int | d >= 1 witness 1

  /** `date.min`, the date an undated row sorts as. */
  const DateMin: Day := 1

  /** Alternative spellings of each field; the second is the same name read in the wrong code page. */
  const RouteFields: seq<string> := ["Маршрут_Key", "╠рЁ°ЁєЄ_Key"]
  const FromFields: seq<string> := ["ПунктОтправления_Key", "╧єэъЄ╬ЄяЁртыхэш\U{00A0}_Key"]
  const ToFields: seq<string> := ["ПунктНазначения_Key", "╧єэъЄ═рчэрўхэш\U{00A0}_Key"]
  const PriceFields: seq<string> := ["Тариф", "╥рЁшЇ"]
  const PeriodField: string := "Period"

  // ---------------------------------------------------------------------------
  // One register row
  // ---------------------------------------------------------------------------

  /** Whether field `n` is present in `row` with a true value. */
  predicate PresentTruthy(row: Row, n: string) {
    n in row && Truthy(row[n])
  }

  /** The value of the first of `names` that is present and true in `row`. */
  function FirstTruthy(row: Row, names: seq<string>): Option<Value> {
    if names == [] then None
    else if PresentTruthy(row, names[0]) then Some(row[names[0]])
    else FirstTruthy(row, names[1..])
  }

  /**
   * `FirstTruthy` finds nothing exactly when no listed field is present and
   * true; otherwise it gives the value of the first such field.
   */
  lemma {:induction false} FirstTruthySpec(row: Row, names: seq<string>)
    ensures FirstTruthy(row, names).None? <==> forall i :: 0 <= i < |names| ==> !PresentTruthy(row, names[i])
    ensures FirstTruthy(row, names).Some? ==>
      exists i :: 0 <= i < |names| && PresentTruthy(row, names[i]) && row[names[i]] == FirstTruthy(row, names).value
        && forall j :: 0 <= j < i ==> !PresentTruthy(row, names[j])
  {
    if names != [] && !PresentTruthy(row, names[0]) {
      FirstTruthySpec(row, names[1..]);
      if FirstTruthy(row, names).Some? {
        var i :| 0 <= i < |names[1..]| && PresentTruthy(row, names[1..][i]) && row[names[1..][i]] == FirstTruthy(row, names).value
          && forall j :: 0 <= j < i ==> !PresentTruthy(row, names[1..][j]);
        assert PresentTruthy(row, names[i + 1]);
      } else {
        forall i | 0 <= i < |names| ensures !PresentTruthy(row, names[i]) {
          if i > 0 { assert names[i] == names[1..][i - 1]; }
        }
      }
    } else if names != [] {
      assert PresentTruthy(row, names[0]);
    }
  }

  /** `_get_first`: the early-return loop over the alternative field names. */
  method GetFirst(row: Row, names: seq<string>) returns (v: Option<Value>)
    ensures v == FirstTruthy(row, names)
  {
    for i := 0 to |names|
      invariant FirstTruthy(row, names) == FirstTruthy(row, names[i..])
    {
      assert names[i..][1..] == names[i + 1..];
      if names[i] in row && Truthy(row[names[i]]) {
        return Some(row[names[i]]);
      }
    }
    return None;
  }

  /** `_parse_date(row.get("Period"))`: a false value and a non-string give `None`. */
  function ParseDate(v: Value, parseDate: string -> Option<Day>): Option<Day> {
    if !Truthy(v) then None
    else match v
      case Str(s) => parseDate(s)
      case _ => None
  }

  /** An accepted tariff row; the raw record it came from is not kept. */
  datatype TariffRow = TariffRow(routeKey: Value, fromKey: Option<Value>, toKey: Option<Value>, price: real, start: Option<Day>)

  /** The tariff row the constructor makes of a register row, or `None` when it skips it. */
  function RowOf(row: Row, parseFloat: string -> Option<real>, parseDate: string -> Option<Day>): (r: Option<TariffRow>)
    ensures r.Some? ==> Truthy(r.value.routeKey)
  {
    if Get(row, "Active") == Bool(false) then None
    else
      var route := FirstTruthy(row, RouteFields);
      var priceVal := FirstTruthy(row, PriceFields);
      if route.None? || priceVal.None? then None
      else
        FirstTruthySpec(row, RouteFields);
        match PyFloat(priceVal.value, parseFloat)
        case None => None
        case Some(p) =>
          Some(TariffRow(route.value, FirstTruthy(row, FromFields), FirstTruthy(row, ToFields), p,
                         ParseDate(Get(row, PeriodField), parseDate)))
  }

  /**
   * A row is skipped exactly when its `Active` field is the boolean false, or
   * it has no present and true route key, or no present and true price, or
   * the price is not a number.
   */
  lemma RowOfSkips(row: Row, parseFloat: string -> Option<real>, parseDate: string -> Option<Day>)
    ensures RowOf(row, parseFloat, parseDate).None? <==>
      || Get(row, "Active") == Bool(false)
      || (forall i :: 0 <= i < |RouteFields| ==> !PresentTruthy(row, RouteFields[i]))
      || (forall i :: 0 <= i < |PriceFields| ==> !PresentTruthy(row, PriceFields[i]))
      || (FirstTruthy(row, PriceFields).Some? && PyFloat(FirstTruthy(row, PriceFields).value, parseFloat).None?)
  {
    FirstTruthySpec(row, RouteFields);
    FirstTruthySpec(row, PriceFields);
  }

  /** A tariff of zero counts as missing: such a row is skipped however its other fields read. */
  lemma ZeroTariffSkipped(row: Row, parseFloat: string -> Option<real>, parseDate: string -> Option<Day>)
    requires forall i :: 0 <= i < |PriceFields| ==> PriceFields[i] !in row || row[PriceFields[i]] == Num(0.0)
    ensures RowOf(row, parseFloat, parseDate).None?
  {
    RowOfSkips(row, parseFloat, parseDate);
  }

  /** The row a register row converts to when none of the skip conditions holds. */
  lemma RowOfAccepts(row: Row, parseFloat: string -> Option<real>, parseDate: string -> Option<Day>)
    requires Get(row, "Active") != Bool(false)
    requires FirstTruthy(row, RouteFields).Some? && FirstTruthy(row, PriceFields).Some?
    requires PyFloat(FirstTruthy(row, PriceFields).value, parseFloat).Some?
    ensures RowOf(row, parseFloat, parseDate) ==
      Some(TariffRow(FirstTruthy(row, RouteFields).value, FirstTruthy(row, FromFields), FirstTruthy(row, ToFields),
                     PyFloat(FirstTruthy(row, PriceFields).value, parseFloat).value, ParseDate(Get(row, PeriodField), parseDate)))
  {
  }

  /** The rows accepted from one `RecordSet`, in order. */
  function AcceptedRows(rows: seq<Row>, parseFloat: string -> Option<real>, parseDate: string -> Option<Day>): seq<TariffRow>
  {
    if rows == [] then []
    else
      AcceptedRows(rows[..|rows| - 1], parseFloat, parseDate)
        + match RowOf(rows[|rows| - 1], parseFloat, parseDate)
          case None => []
          case Some(tr) => [tr]
  }

  /** A row is accepted exactly when some register row converts to it. */
  lemma {:induction false} AcceptedRowsMembers(rows: seq<Row>, parseFloat: string -> Option<real>, parseDate: string -> Option<Day>, tr: TariffRow)
    ensures tr in AcceptedRows(rows, parseFloat, parseDate) <==>
      exists j :: 0 <= j < |rows| && RowOf(rows[j], parseFloat, parseDate) == Some(tr)
  {
    if rows != [] {
      var init := rows[..|rows| - 1];
      AcceptedRowsMembers(init, parseFloat, parseDate, tr);
      if exists j :: 0 <= j < |rows| && RowOf(rows[j], parseFloat, parseDate) == Some(tr) {
        var j :| 0 <= j < |rows| && RowOf(rows[j], parseFloat, parseDate) == Some(tr);
        if j < |rows| - 1 { assert init[j] == rows[j]; }
      }
      if tr in AcceptedRows(init, parseFloat, parseDate) {
        var j :| 0 <= j < |init| && RowOf(init[j], parseFloat, parseDate) == Some(tr);
        assert rows[j] == init[j];
      }
    }
  }

  lemma AcceptedRowsStep(rows: seq<Row>, j: nat, parseFloat: string -> Option<real>, parseDate: string -> Option<Day>)
    requires j < |rows|
    ensures AcceptedRows(rows[..j + 1], parseFloat, parseDate) ==
      AcceptedRows(rows[..j], parseFloat, parseDate) +
        (if RowOf(rows[j], parseFloat, parseDate).Some? then [RowOf(rows[j], parseFloat, parseDate).value] else [])
  {
    assert rows[..j + 1][..j] == rows[..j];
  }

  lemma AcceptedStep(docs: seq<Doc>, d: nat, parseFloat: string -> Option<real>, parseDate: string -> Option<Day>)
    requires d < |docs|
    ensures Accepted(docs[..d + 1], parseFloat, parseDate) ==
      Accepted(docs[..d], parseFloat, parseDate) + AcceptedRows(docs[d].recordSet, parseFloat, parseDate)
  {
    assert docs[..d + 1][..d] == docs[..d];
  }

  /** The rows accepted from every document, documents first, rows within each. */
  function Accepted(docs: seq<Doc>, parseFloat: string -> Option<real>, parseDate: string -> Option<Day>): seq<TariffRow>
  {
    if docs == [] then []
    else Accepted(docs[..|docs| - 1], parseFloat, parseDate) + AcceptedRows(docs[|docs| - 1].recordSet, parseFloat, parseDate)
  }

  // ---------------------------------------------------------------------------
  // The two indexes
  // ---------------------------------------------------------------------------

  /** The key of the direct index: route, departure point, destination point. */
  type DirectKey = (Value, Value, Value)

  predicate HasDirect(tr: TariffRow) {
    tr.fromKey.Some? && tr.toKey.Some?
  }

  function DirectKeyOf(tr: TariffRow): DirectKey
    requires HasDirect(tr)
  {
    (tr.routeKey, tr.fromKey.value, tr.toKey.value)
  }

  /** `m.get(k)`, with a missing key as the empty list. */
  function Lookup<K>(m: map<K, seq<TariffRow>>, k: K): seq<TariffRow> {
    if k in m then m[k] else []
  }

  /** The rows `keep` accepts, in order. */
  function Filter(trs: seq<TariffRow>, keep: TariffRow -> bool): (r: seq<TariffRow>)
    ensures |r| <= |trs|
  {
    if trs == [] then []
    else Filter(trs[..|trs| - 1], keep) + (if keep(trs[|trs| - 1]) then [trs[|trs| - 1]] else [])
  }

  lemma {:induction false} FilterMembers(trs: seq<TariffRow>, keep: TariffRow -> bool, x: TariffRow)
    ensures x in Filter(trs, keep) <==> x in trs && keep(x)
  {
    if trs != [] {
      FilterMembers(trs[..|trs| - 1], keep, x);
      assert trs == trs[..|trs| - 1] + [trs[|trs| - 1]];
    }
  }

  lemma {:induction false} FilterConcat(a: seq<TariffRow>, b: seq<TariffRow>, keep: TariffRow -> bool)
    ensures Filter(a + b, keep) == Filter(a, keep) + Filter(b, keep)
  {
    if b != [] {
      assert (a + b)[..|a + b| - 1] == a + b[..|b| - 1];
      FilterConcat(a, b[..|b| - 1], keep);
    } else {
      assert a + b == a;
    }
  }

  /** `route_fares` before sorting: every accepted row under its route key. */
  function RouteIndex(trs: seq<TariffRow>): map<Value, seq<TariffRow>> {
    if trs == [] then map[]
    else
      var m := RouteIndex(trs[..|trs| - 1]);
      var tr := trs[|trs| - 1];
      m[tr.routeKey := Lookup(m, tr.routeKey) + [tr]]
  }

  /** `direct_fares` before sorting: the rows with both points, under their direct key. */
  function DirectIndex(trs: seq<TariffRow>): map<DirectKey, seq<TariffRow>> {
    if trs == [] then map[]
    else
      var m := DirectIndex(trs[..|trs| - 1]);
      var tr := trs[|trs| - 1];
      if HasDirect(tr) then m[DirectKeyOf(tr) := Lookup(m, DirectKeyOf(tr)) + [tr]] else m
  }

  /** Indexing one more row appends it to its lists. */
  lemma IndexesSnoc(acc: seq<TariffRow>, tr: TariffRow)
    ensures RouteIndex(acc + [tr]) == RouteIndex(acc)[tr.routeKey := Lookup(RouteIndex(acc), tr.routeKey) + [tr]]
    ensures DirectIndex(acc + [tr]) ==
      if HasDirect(tr) then DirectIndex(acc)[DirectKeyOf(tr) := Lookup(DirectIndex(acc), DirectKeyOf(tr)) + [tr]]
      else DirectIndex(acc)
  {
    assert (acc + [tr])[..|acc|] == acc;
  }

  function OnRoute(k: Value): TariffRow -> bool {
    (tr: TariffRow) => tr.routeKey == k
  }

  function OnDirect(k: DirectKey): TariffRow -> bool {
    (tr: TariffRow) => HasDirect(tr) && DirectKeyOf(tr) == k
  }

  /** The route index lists, under each key, exactly the rows of that route in order, and has no empty list. */
  lemma {:induction false} RouteIndexSpec(trs: seq<TariffRow>, k: Value)
    ensures Lookup(RouteIndex(trs), k) == Filter(trs, OnRoute(k))
    ensures k in RouteIndex(trs) <==> Filter(trs, OnRoute(k)) != []
  {
    if trs != [] {
      RouteIndexSpec(trs[..|trs| - 1], k);
    }
  }

  /** The direct index lists, under each key, exactly the rows with both points and that key, and has no empty list. */
  lemma {:induction false} DirectIndexSpec(trs: seq<TariffRow>, k: DirectKey)
    ensures Lookup(DirectIndex(trs), k) == Filter(trs, OnDirect(k))
    ensures k in DirectIndex(trs) <==> Filter(trs, OnDirect(k)) != []
  {
    if trs != [] {
      DirectIndexSpec(trs[..|trs| - 1], k);
    }
  }

  // ---------------------------------------------------------------------------
  // Ordering by start date
  // ---------------------------------------------------------------------------

  /** The sort key `tr.start_date or date.min`. */
  function DateKey(tr: TariffRow): Day {
    tr.start.GetOr(DateMin)
  }

  /** Latest start date first. */
  predicate SortedDesc(trs: seq<TariffRow>) {
    forall i, j :: 0 <= i < j < |trs| ==> DateKey(trs[i]) >= DateKey(trs[j])
  }

  function OnDay(d: Day): TariffRow -> bool {
    (tr: TariffRow) => DateKey(tr) == d
  }

  /** Puts `x` before the first row that does not start later than it. */
  function Insert(x: TariffRow, trs: seq<TariffRow>): seq<TariffRow> {
    if trs == [] || DateKey(x) >= DateKey(trs[0]) then [x] + trs
    else [trs[0]] + Insert(x, trs[1..])
  }

  /** `lst.sort(key=..., reverse=True)`, a stable sort by descending start date. */
  function SortByDate(trs: seq<TariffRow>): seq<TariffRow> {
    if trs == [] then [] else Insert(trs[0], SortByDate(trs[1..]))
  }

  /** A row that starts no earlier than every row of a sorted list can go in front of it. */
  lemma SortedCons(h: TariffRow, t: seq<TariffRow>)
    requires SortedDesc(t)
    requires forall j :: 0 <= j < |t| ==> DateKey(h) >= DateKey(t[j])
    ensures SortedDesc([h] + t)
  {
    var s := [h] + t;
    forall i, j | 0 <= i < j < |s| ensures DateKey(s[i]) >= DateKey(s[j]) {
      if i > 0 {
        assert s[i] == t[i - 1] && s[j] == t[j - 1];
      }
    }
  }

  lemma {:induction false} InsertFacts(x: TariffRow, trs: seq<TariffRow>)
    requires SortedDesc(trs)
    ensures SortedDesc(Insert(x, trs))
    ensures multiset(Insert(x, trs)) == multiset(trs) + multiset{x}
  {
    if trs == [] || DateKey(x) >= DateKey(trs[0]) {
      SortedCons(x, trs);
    } else {
      var tail := Insert(x, trs[1..]);
      InsertFacts(x, trs[1..]);
      assert trs == [trs[0]] + trs[1..];
      forall j | 0 <= j < |tail| ensures DateKey(trs[0]) >= DateKey(tail[j]) {
        assert tail[j] in multiset(tail);
        if tail[j] != x {
          assert tail[j] in multiset(trs[1..]);
          var k :| 0 <= k < |trs[1..]| && trs[1..][k] == tail[j];
          assert trs[k + 1] == tail[j];
        }
      }
      SortedCons(trs[0], tail);
    }
  }

  /** Inserting keeps, for every date, the rows of that date in their order, with `x` first among them. */
  lemma {:induction false} InsertStable(x: TariffRow, trs: seq<TariffRow>, d: Day)
    ensures Filter(Insert(x, trs), OnDay(d)) == Filter([x], OnDay(d)) + Filter(trs, OnDay(d))
  {
    if trs == [] || DateKey(x) >= DateKey(trs[0]) {
      FilterConcat([x], trs, OnDay(d));
    } else {
      InsertStable(x, trs[1..], d);
      FilterConcat([trs[0]], Insert(x, trs[1..]), OnDay(d));
      FilterConcat([trs[0]], trs[1..], OnDay(d));
      assert [trs[0]] + trs[1..] == trs;
      assert [x][..0] == [] && [trs[0]][..0] == [];
    }
  }

  /**
   * The sort orders the rows by descending start date, is a permutation, and
   * is stable: the rows of each date keep their input order.
   */
  lemma {:induction false} SortByDateCorrect(trs: seq<TariffRow>)
    ensures SortedDesc(SortByDate(trs))
    ensures multiset(SortByDate(trs)) == multiset(trs)
    ensures forall d: Day :: Filter(SortByDate(trs), OnDay(d)) == Filter(trs, OnDay(d))
  {
    if trs != [] {
      SortByDateCorrect(trs[1..]);
      InsertFacts(trs[0], SortByDate(trs[1..]));
      assert trs == [trs[0]] + trs[1..];
      forall d: Day ensures Filter(SortByDate(trs), OnDay(d)) == Filter(trs, OnDay(d)) {
        InsertStable(trs[0], SortByDate(trs[1..]), d);
        FilterConcat([trs[0]], trs[1..], OnDay(d));
      }
    }
  }

  /** Every list of an index, sorted. */
  function SortAll<K>(m: map<K, seq<TariffRow>>): map<K, seq<TariffRow>> {
    map k | k in m :: SortByDate(m[k])
  }

  /** The loops `for lst in ...values(): lst.sort(...)`. */
  method SortEach<K>(m: map<K, seq<TariffRow>>) returns (r: map<K, seq<TariffRow>>)
    ensures r == SortAll(m)
  {
    r := m;
    var todo := m.Keys;
    while todo != {}
      invariant todo <= m.Keys && r.Keys == m.Keys
      invariant forall k :: k in m && k !in todo ==> r[k] == SortByDate(m[k])
      invariant forall k :: k in todo ==> r[k] == m[k]
      decreases |todo|
    {
      var k :| k in todo;
      r := r[k := SortByDate(r[k])];
      todo := todo - {k};
    }
    assert r.Keys == SortAll(m).Keys;
  }

  // ---------------------------------------------------------------------------
  // Choosing a row by date
  // ---------------------------------------------------------------------------

  /** A row with a start date on or before `when`. */
  predicate DatedBy(tr: TariffRow, when: Day) {
    tr.start.Some? && tr.start.value <= when
  }

  /** A row in force on `when`: undated, or started on or before it. */
  predicate InForce(tr: TariffRow, when: Day) {
    tr.start.None? || tr.start.value <= when
  }

  /** The index of the first row `keep` accepts, `|trs|` when there is none. */
  function FirstIndex(trs: seq<TariffRow>, keep: TariffRow -> bool): (k: nat)
    ensures k <= |trs|
    ensures forall j :: 0 <= j < k ==> !keep(trs[j])
    ensures k < |trs| ==> keep(trs[k])
  {
    if trs == [] then 0
    else if keep(trs[0]) then 0
    else 1 + FirstIndex(trs[1..], keep)
  }

  function DatedByOn(when: Day): TariffRow -> bool {
    (tr: TariffRow) => DatedBy(tr, when)
  }

  function Undated(): TariffRow -> bool {
    (tr: TariffRow) => tr.start.None?
  }

  /** `_pick_by_date` as a function. */
  function PickedByDate(trs: seq<TariffRow>, when: Day): (r: Option<TariffRow>)
    ensures r.None? <==> trs == []
    ensures r.Some? ==> r.value in trs
  {
    if trs == [] then None
    else
      var i := FirstIndex(trs, DatedByOn(when));
      if i < |trs| then Some(trs[i])
      else
        var u := FirstIndex(trs, Undated());
        if u < |trs| then Some(trs[u]) else Some(trs[0])
  }

  /** `_pick_by_date`: two early-return scans, then the first row. */
  method PickByDate(trs: seq<TariffRow>, when: Day) returns (r: Option<TariffRow>)
    ensures r == PickedByDate(trs, when)
  {
    if trs == [] {
      return None;
    }
    for i := 0 to |trs|
      invariant forall j :: 0 <= j < i ==> !DatedBy(trs[j], when)
    {
      if trs[i].start.Some? && trs[i].start.value <= when {
        return Some(trs[i]);
      }
    }
    for i := 0 to |trs|
      invariant forall j :: 0 <= j < i ==> trs[j].start.Some?
    {
      if trs[i].start.None? {
        return Some(trs[i]);
      }
    }
    return Some(trs[0]);
  }

  /**
   * On a list sorted by descending date: when some row has a start date on or
   * before `when`, the pick is the one that started last among them; when none
   * has, the pick is an undated row if there is one, and otherwise the row
   * with the latest date.
   */
  lemma PickedByDateSpec(trs: seq<TariffRow>, when: Day)
    requires SortedDesc(trs) && trs != []
    ensures var p := PickedByDate(trs, when).value;
      (exists i :: 0 <= i < |trs| && DatedBy(trs[i], when)) ==>
        DatedBy(p, when) && forall i :: 0 <= i < |trs| && DatedBy(trs[i], when) ==> trs[i].start.value <= p.start.value
    ensures var p := PickedByDate(trs, when).value;
      (forall i :: 0 <= i < |trs| ==> !DatedBy(trs[i], when)) ==>
        && ((exists i :: 0 <= i < |trs| && trs[i].start.None?) ==> p.start.None?)
        && ((forall i :: 0 <= i < |trs| ==> trs[i].start.Some?) ==> forall i :: 0 <= i < |trs| ==> DateKey(trs[i]) <= DateKey(p))
  {
    var k := FirstIndex(trs, DatedByOn(when));
  }

  // ---------------------------------------------------------------------------
  // The store
  // ---------------------------------------------------------------------------

  /** The smallest of a non-empty list of prices. */
  function MinOf(xs: seq<real>): (m: real)
    requires xs != []
    ensures m in xs
    ensures forall x :: x in xs ==> m <= x
  {
    if |xs| == 1 then xs[0]
    else
      var rest := MinOf(xs[1..]);
      assert forall x :: x in xs ==> x == xs[0] || x in xs[1..];
      if xs[0] <= rest then xs[0] else rest
  }

  function Prices(trs: seq<TariffRow>): (ps: seq<real>)
    ensures |ps| == |trs| && forall i :: 0 <= i < |trs| ==> ps[i] == trs[i].price
  {
    seq(|trs|, i requires 0 <= i < |trs| => trs[i].price)
  }

  function InForceOn(when: Day): TariffRow -> bool {
    (tr: TariffRow) => InForce(tr, when)
  }

  /** `TariffStore`: the direct index and the route index. */
  class TariffStore {
    var directFares: map<DirectKey, seq<TariffRow>>
    var routeFares: map<Value, seq<TariffRow>>

    /**
     * Every list is non-empty, sorted by descending start date and holds only
     * rows of its own key; every direct row is also a row of its route.
     */
    ghost predicate Valid()
      reads this
    {
      && (forall k :: k in routeFares ==>
            && routeFares[k] != []
            && SortedDesc(routeFares[k])
            && forall tr :: tr in routeFares[k] ==> tr.routeKey == k)
      && (forall k :: k in directFares ==>
            && directFares[k] != []
            && SortedDesc(directFares[k])
            && k.0 in routeFares
            && forall tr :: tr in directFares[k] ==> HasDirect(tr) && DirectKeyOf(tr) == k && tr in routeFares[k.0])
    }

    /** `TariffStore.__init__`: index every accepted row, then sort every list. */
    constructor(docs: seq<Doc>, parseFloat: string -> Option<real>, parseDate: string -> Option<Day>)
      ensures routeFares == SortAll(RouteIndex(Accepted(docs, parseFloat, parseDate)))
      ensures directFares == SortAll(DirectIndex(Accepted(docs, parseFloat, parseDate)))
      ensures Valid()
    {
      directFares := map[];
      routeFares := map[];
      new;
      ghost var acc: seq<TariffRow> := [];
      for d := 0 to |docs|
        invariant acc == Accepted(docs[..d], parseFloat, parseDate)
        invariant routeFares == RouteIndex(acc) && directFares == DirectIndex(acc)
      {
        acc := AddRecordSet(docs[d].recordSet, parseFloat, parseDate, acc);
        AcceptedStep(docs, d, parseFloat, parseDate);
      }
      assert docs[..|docs|] == docs;
      SortLists(acc);
    }

    /** The closing loops of `TariffStore.__init__`: sort every list of both indexes by descending date. */
    method SortLists(ghost acc: seq<TariffRow>)
      requires routeFares == RouteIndex(acc) && directFares == DirectIndex(acc)
      modifies this
      ensures routeFares == SortAll(RouteIndex(acc)) && directFares == SortAll(DirectIndex(acc))
      ensures Valid()
    {
      IndexesValid(acc);
      directFares := SortEach(directFares);
      routeFares := SortEach(routeFares);
    }

    /** The row loop of `TariffStore.__init__` over one document's `RecordSet`. */
    method AddRecordSet(recs: seq<Row>, parseFloat: string -> Option<real>, parseDate: string -> Option<Day>, ghost acc: seq<TariffRow>)
      returns (ghost acc': seq<TariffRow>)
      requires routeFares == RouteIndex(acc) && directFares == DirectIndex(acc)
      modifies this
      ensures acc' == acc + AcceptedRows(recs, parseFloat, parseDate)
      ensures routeFares == RouteIndex(acc') && directFares == DirectIndex(acc')
    {
      acc' := acc;
      for j := 0 to |recs|
        invariant acc' == acc + AcceptedRows(recs[..j], parseFloat, parseDate)
        invariant routeFares == RouteIndex(acc') && directFares == DirectIndex(acc')
      {
        AcceptedRowsStep(recs, j, parseFloat, parseDate);
        ghost var conv := RowOf(recs[j], parseFloat, parseDate);
        AddRow(recs[j], parseFloat, parseDate);
        if conv.Some? {
          IndexesSnoc(acc', conv.value);
          acc' := acc' + [conv.value];
        }
      }
      assert recs[..|recs|] == recs;
    }

    /** The body of the row loop of `TariffStore.__init__`: one register row into both indexes, or skipped. */
    method AddRow(row: Row, parseFloat: string -> Option<real>, parseDate: string -> Option<Day>)
      modifies this
      ensures RowOf(row, parseFloat, parseDate).None? ==> routeFares == old(routeFares) && directFares == old(directFares)
      ensures RowOf(row, parseFloat, parseDate).Some? ==>
        var tr := RowOf(row, parseFloat, parseDate).value;
        && routeFares == old(routeFares)[tr.routeKey := Lookup(old(routeFares), tr.routeKey) + [tr]]
        && directFares == if HasDirect(tr) then old(directFares)[DirectKeyOf(tr) := Lookup(old(directFares), DirectKeyOf(tr)) + [tr]]
                          else old(directFares)
    {
      if "Active" in row && row["Active"] == Bool(false) {
        return;
      }
      var routeKey := GetFirst(row, RouteFields);
      var priceVal := GetFirst(row, PriceFields);
      var fromKey := GetFirst(row, FromFields);
      var toKey := GetFirst(row, ToFields);
      if routeKey.None? || priceVal.None? {
        return;
      }
      var price := PyFloat(priceVal.value, parseFloat);
      if price.None? {
        return;
      }
      var start := ParseDate(Get(row, PeriodField), parseDate);
      var tr := TariffRow(routeKey.value, fromKey, toKey, price.value, start);
      RowOfAccepts(row, parseFloat, parseDate);
      if fromKey.Some? && toKey.Some? {
        var key := (tr.routeKey, fromKey.value, toKey.value);
        directFares := directFares[key := Lookup(directFares, key) + [tr]];
      }
      routeFares := routeFares[tr.routeKey := Lookup(routeFares, tr.routeKey) + [tr]];
    }

    /** `get_min_price_for_route` */
    function MinPriceForRoute(routeKey: Value, when: Day): (r: Option<real>)
      reads this
      ensures var trs := Lookup(routeFares, routeKey);
        && (r.None? <==> trs == [])
        && (r.Some? && (exists tr :: tr in trs && InForce(tr, when)) ==>
              && (exists tr :: tr in trs && InForce(tr, when) && tr.price == r.value)
              && forall tr :: tr in trs && InForce(tr, when) ==> r.value <= tr.price)
        && (r.Some? && (forall tr :: tr in trs ==> !InForce(tr, when)) ==>
              && (exists tr :: tr in trs && tr.price == r.value)
              && forall tr :: tr in trs ==> r.value <= tr.price)
    {
      var trs := Lookup(routeFares, routeKey);
      if trs == [] then None
      else
        var inForce := Filter(trs, InForceOn(when));
        var valid := Prices(inForce);
        if valid != [] then
          var m := MinOf(valid);
          assert forall tr :: tr in trs && InForce(tr, when) ==> tr in inForce by {
            forall tr | tr in trs && InForce(tr, when) ensures tr in inForce {
              FilterMembers(trs, InForceOn(when), tr);
            }
          }
          assert forall tr :: tr in inForce ==> tr.price in valid by {
            forall tr | tr in inForce ensures tr.price in valid {
              var i :| 0 <= i < |inForce| && inForce[i] == tr;
              assert valid[i] == tr.price;
            }
          }
          var i :| 0 <= i < |valid| && valid[i] == m;
          FilterMembers(trs, InForceOn(when), inForce[i]);
          Some(m)
        else
          var all := Prices(trs);
          var m := MinOf(all);
          assert forall tr :: tr in trs ==> !InForce(tr, when) by {
            forall tr | tr in trs ensures !InForce(tr, when) {
              FilterMembers(trs, InForceOn(when), tr);
            }
          }
          assert forall tr :: tr in trs ==> tr.price in all by {
            forall tr | tr in trs ensures tr.price in all {
              var i :| 0 <= i < |trs| && trs[i] == tr;
              assert all[i] == tr.price;
            }
          }
          var i :| 0 <= i < |all| && all[i] == m;
          assert trs[i] in trs;
          Some(m)
    }

    /** `get_base_price` as a function: direct, then reversed, then the route minimum. */
    function BasePrice(routeKey: Value, fromKey: Value, toKey: Value, when: Day): Option<real>
      reads this
    {
      var direct := Lookup(directFares, (routeKey, fromKey, toKey));
      var reversed := Lookup(directFares, (routeKey, toKey, fromKey));
      if direct != [] then Some(PickedByDate(direct, when).value.price)
      else if reversed != [] then Some(PickedByDate(reversed, when).value.price)
      else MinPriceForRoute(routeKey, when)
    }

    /** `get_base_price`, with the date passed in. */
    method GetBasePrice(routeKey: Value, fromKey: Value, toKey: Value, when: Day) returns (price: Option<real>)
      ensures price == BasePrice(routeKey, fromKey, toKey, when)
    {
      var trs := Lookup(directFares, (routeKey, fromKey, toKey));
      if trs != [] {
        var tr := PickByDate(trs, when);
        if tr.Some? {
          return Some(tr.value.price);
        }
      }
      var rev := Lookup(directFares, (routeKey, toKey, fromKey));
      if rev != [] {
        var tr := PickByDate(rev, when);
        if tr.Some? {
          return Some(tr.value.price);
        }
      }
      return MinPriceForRoute(routeKey, when);
    }

    /**
     * In a valid store the base price is missing exactly when the route has no
     * accepted row, and otherwise it is the price of one of the route's rows:
     * of the direct pair when there is one, else of the reversed pair.
     */
    lemma BasePriceSpec(routeKey: Value, fromKey: Value, toKey: Value, when: Day)
      requires Valid()
      ensures BasePrice(routeKey, fromKey, toKey, when).None? <==> routeKey !in routeFares
      ensures var p := BasePrice(routeKey, fromKey, toKey, when);
        p.Some? ==> exists tr :: tr in routeFares[routeKey] && tr.price == p.value
      ensures var p := BasePrice(routeKey, fromKey, toKey, when);
        (routeKey, fromKey, toKey) in directFares ==>
          exists tr :: tr in directFares[(routeKey, fromKey, toKey)] && tr.price == p.value
      ensures var p := BasePrice(routeKey, fromKey, toKey, when);
        (routeKey, fromKey, toKey) !in directFares && (routeKey, toKey, fromKey) in directFares ==>
          exists tr :: tr in directFares[(routeKey, toKey, fromKey)] && tr.price == p.value
    {
      var direct := (routeKey, fromKey, toKey);
      var reversed := (routeKey, toKey, fromKey);
      if direct in directFares {
        var tr := PickedByDate(directFares[direct], when).value;
        assert tr in routeFares[routeKey];
      } else if reversed in directFares {
        var tr := PickedByDate(directFares[reversed], when).value;
        assert tr in routeFares[routeKey];
      }
    }
  }

  /** A list of the sorted route index: non-empty, sorted, and only rows of that route, each one accepted. */
  lemma RouteListValid(acc: seq<TariffRow>, k: Value)
    requires k in RouteIndex(acc)
    ensures var rows := SortByDate(RouteIndex(acc)[k]);
      && rows != [] && SortedDesc(rows)
      && forall tr :: tr in rows ==> tr.routeKey == k && tr in acc
  {
    RouteIndexSpec(acc, k);
    var raw := RouteIndex(acc)[k];
    var rows := SortByDate(raw);
    SortByDateCorrect(raw);
    forall tr | tr in rows ensures tr.routeKey == k && tr in acc {
      assert tr in multiset(rows);
      FilterMembers(acc, OnRoute(k), tr);
    }
    assert raw[0] in multiset(rows);
  }

  /** A list of the sorted direct index: non-empty, sorted, and only rows of that key, each in its route's list. */
  lemma DirectListValid(acc: seq<TariffRow>, k: DirectKey)
    requires k in DirectIndex(acc)
    ensures k.0 in RouteIndex(acc)
    ensures var rows := SortByDate(DirectIndex(acc)[k]);
      && rows != [] && SortedDesc(rows)
      && forall tr :: tr in rows ==> HasDirect(tr) && DirectKeyOf(tr) == k && tr in SortByDate(RouteIndex(acc)[k.0])
  {
    DirectIndexSpec(acc, k);
    RouteIndexSpec(acc, k.0);
    var raw := DirectIndex(acc)[k];
    var rows := SortByDate(raw);
    SortByDateCorrect(raw);
    FilterMembers(acc, OnDirect(k), raw[0]);
    FilterMembers(acc, OnRoute(k.0), raw[0]);
    assert k.0 in RouteIndex(acc);
    var routeRows := RouteIndex(acc)[k.0];
    SortByDateCorrect(routeRows);
    forall tr | tr in rows ensures HasDirect(tr) && DirectKeyOf(tr) == k && tr in SortByDate(routeRows) {
      assert tr in multiset(rows);
      FilterMembers(acc, OnDirect(k), tr);
      FilterMembers(acc, OnRoute(k.0), tr);
      assert tr in multiset(routeRows);
    }
    assert raw[0] in multiset(rows);
  }

  /** The sorted indexes of any list of accepted rows satisfy the store invariant. */
  lemma IndexesValid(acc: seq<TariffRow>)
    ensures var routes := SortAll(RouteIndex(acc));
      var directs: map<DirectKey, seq<TariffRow>> := SortAll(DirectIndex(acc));
      && (forall k :: k in routes ==>
            && routes[k] != []
            && SortedDesc(routes[k])
            && forall tr :: tr in routes[k] ==> tr.routeKey == k)
      && (forall k :: k in directs ==>
            && directs[k] != []
            && SortedDesc(directs[k])
            && k.0 in routes
            && forall tr :: tr in directs[k] ==> HasDirect(tr) && DirectKeyOf(tr) == k && tr in routes[k.0])
  {
    forall k | k in RouteIndex(acc) {
      RouteListValid(acc, k);
    }
    forall k | k in DirectIndex(acc) {
      DirectListValid(acc, k);
    }
  }

  /**
   * `get_price_for_segment` on a given store: the base price, whatever the
   * benefit codes and the fee flag say.
   */
  method PriceForSegment(store: TariffStore, routeKey: Value, fromKey: Value, toKey: Value, when: Day,
                         benefitCodes: seq<string>, includeFees: bool) returns (price: Option<real>)
    ensures price == store.BasePrice(routeKey, fromKey, toKey, when)
  {
    var base := store.GetBasePrice(routeKey, fromKey, toKey, when);
    if base.None? {
      return None;
    }
    price := base;
  }
}
