/**
 * backend/gars_client.py: the OData filter of the schedule request, the map
 * of schedules by route, and the bus segments built from the GARS tariffs and
 * stops. What the HTTP requests return is passed in.
 */
module GarsClient {
  import opened Wrappers
  import opened Json
  import Text

  // ---------------------------------------------------------------------------
  // The schedule request
  // ---------------------------------------------------------------------------

  /** A calendar date; `date` only holds years 1 to 9999. */
  datatype Date = Date(year: nat, month: nat, day: nat)

  predicate ValidDate(d: Date) {
    1 <= d.year <= 9999 && 1 <= d.month <= 12 && 1 <= d.day <= 31
  }

  /** `%Y-%m-%d` of a date. */
  function DateText(d: Date): (t: string)
    ensures |t| == 10
  {
    Text.PadNat(d.year, 4) + "-" + Text.PadNat(d.month, 2) + "-" + Text.PadNat(d.day, 2)
  }

  /** Reads a date back from its `%Y-%m-%d` text. */
  function ReadDate(t: string): Date
    requires |t| == 10 && Text.AllDigits(t[..4]) && Text.AllDigits(t[5..7]) && Text.AllDigits(t[8..])
  {
    Date(Text.DigitsValue(t[..4]), Text.DigitsValue(t[5..7]), Text.DigitsValue(t[8..]))
  }

  /** The date text of a valid date reads back as that date. */
  lemma DateTextRoundTrip(d: Date)
    requires ValidDate(d)
    ensures var t := DateText(d);
      Text.AllDigits(t[..4]) && Text.AllDigits(t[5..7]) && Text.AllDigits(t[8..]) && ReadDate(t) == d
  {
    var t := DateText(d);
    assert t[..4] == Text.PadNat(d.year, 4);
    assert t[5..7] == Text.PadNat(d.month, 2);
    assert t[8..] == Text.PadNat(d.day, 2);
    assert Text.Pow10(4) == 10000 && Text.Pow10(2) == 100;
    Text.PadNatRoundTrip(d.year, 4);
    Text.PadNatRoundTrip(d.month, 2);
    Text.PadNatRoundTrip(d.day, 2);
  }

  const FilterHead: string := "Period ge datetime'"
  const FilterMiddle: string := "T00:00:00' and Period le datetime'"
  const FilterTail: string := "T23:59:59'"

  /** The `$filter` of `get_schedule_for_period`: from midnight of the first day to the last second of the second. */
  function ScheduleFilter(from: Date, to: Date): (f: string)
    ensures |f| == |FilterHead| + 10 + |FilterMiddle| + 10 + |FilterTail|
  {
    FilterHead + DateText(from) + FilterMiddle + DateText(to) + FilterTail
  }

  /** Both dates can be read back from the filter: different periods never give the same filter. */
  lemma ScheduleFilterInjective(a: Date, b: Date, c: Date, d: Date)
    requires ValidDate(a) && ValidDate(b) && ValidDate(c) && ValidDate(d)
    requires ScheduleFilter(a, b) == ScheduleFilter(c, d)
    ensures a == c && b == d
  {
    var f := ScheduleFilter(a, b);
    var i := |FilterHead|;
    var j := i + 10 + |FilterMiddle|;
    assert f[i..i + 10] == DateText(a);
    assert f[j..j + 10] == DateText(b);
    assert ScheduleFilter(c, d)[i..i + 10] == DateText(c);
    assert ScheduleFilter(c, d)[j..j + 10] == DateText(d);
    DateTextRoundTrip(a);
    DateTextRoundTrip(b);
    DateTextRoundTrip(c);
    DateTextRoundTrip(d);
  }

  /** What a request to the service ends in. */
  datatype Fetch = Fetched(rows: seq<Row>) | StatusError | OtherError

  /**
   * `get_schedule_for_period`, with the request as `fetch` applied to the
   * filter: an HTTP status error gives the empty list, any other failure
   * propagates (`None`).
   */
  function ScheduleForPeriod(from: Date, to: Date, fetch: string -> Fetch): (r: Option<seq<Row>>)
    ensures r.None? <==> fetch(ScheduleFilter(from, to)).OtherError?
    ensures fetch(ScheduleFilter(from, to)).StatusError? ==> r == Some([])
    ensures fetch(ScheduleFilter(from, to)).Fetched? ==> r == Some(fetch(ScheduleFilter(from, to)).rows)
  {
    match fetch(ScheduleFilter(from, to))
    case Fetched(rows) => Some(rows)
    case StatusError => Some([])
    case OtherError => None
  }

  // ---------------------------------------------------------------------------
  // Schedules by route
  // ---------------------------------------------------------------------------

  const RouteKeyField: string := "Маршрут_Key"
  const DepartureField: string := "ВремяОтправления"
  const ArrivalField: string := "ВремяПрибытия"

  /** The entry kept for a route: `{"departure_time": ..., "arrival_time": ...}`. */
  datatype ScheduleEntry = ScheduleEntry(departureTime: Value, arrivalTime: Value)

  /** A row with a route key and both times. */
  predicate Complete(row: Row) {
    Truthy(Get(row, RouteKeyField)) && Truthy(Get(row, DepartureField)) && Truthy(Get(row, ArrivalField))
  }

  function EntryOf(row: Row): ScheduleEntry {
    ScheduleEntry(Get(row, DepartureField), Get(row, ArrivalField))
  }

  /** The map the loop of `get_reis_schedules_map` builds from `rows`. */
  function ScheduleOf(rows: seq<Row>): map<Value, ScheduleEntry> {
    if rows == [] then map[]
    else
      var m := ScheduleOf(rows[..|rows| - 1]);
      var row := rows[|rows| - 1];
      if Complete(row) && Get(row, RouteKeyField) !in m then m[Get(row, RouteKeyField) := EntryOf(row)] else m
  }

  /** Whether `rows[i]` is the first complete row of route `k`. */
  predicate FirstCompleteAt(rows: seq<Row>, k: Value, i: int) {
    && 0 <= i < |rows|
    && Complete(rows[i]) && Get(rows[i], RouteKeyField) == k
    && forall j :: 0 <= j < i ==> !(Complete(rows[j]) && Get(rows[j], RouteKeyField) == k)
  }

  /** A route has an entry exactly when some row of it is complete. */
  lemma {:induction false} ScheduleOfKeys(rows: seq<Row>, k: Value)
    ensures k in ScheduleOf(rows) <==> exists i :: 0 <= i < |rows| && Complete(rows[i]) && Get(rows[i], RouteKeyField) == k
  {
    if rows != [] {
      var init := rows[..|rows| - 1];
      ScheduleOfKeys(init, k);
      forall i | 0 <= i < |init| ensures init[i] == rows[i] { }
    }
  }

  /**
   * The entry of a route holds the times of its first complete row:
   * incomplete rows neither count nor block later ones.
   */
  lemma {:induction false} ScheduleOfFirst(rows: seq<Row>, k: Value)
    requires k in ScheduleOf(rows)
    ensures exists i :: FirstCompleteAt(rows, k, i) && ScheduleOf(rows)[k] == EntryOf(rows[i])
  {
    var init := rows[..|rows| - 1];
    var n := |rows| - 1;
    forall i | 0 <= i < |init| ensures init[i] == rows[i] { }
    if k in ScheduleOf(init) {
      ScheduleOfFirst(init, k);
      var i :| FirstCompleteAt(init, k, i) && ScheduleOf(init)[k] == EntryOf(init[i]);
      assert FirstCompleteAt(rows, k, i);
    } else {
      ScheduleOfKeys(init, k);
      assert FirstCompleteAt(rows, k, n);
    }
  }

  /**
   * `get_reis_schedules_map`, with the catalogue request's rows passed in
   * (`None` when the request raised): a failed request gives the empty map.
   */
  method ScheduleMap(catalogue: Option<seq<Row>>) returns (m: map<Value, ScheduleEntry>)
    ensures catalogue.None? ==> m == map[]
    ensures catalogue.Some? ==> m == ScheduleOf(catalogue.value)
  {
    if catalogue.None? {
      return map[];
    }
    var rows := catalogue.value;
    m := map[];
    for i := 0 to |rows|
      invariant m == ScheduleOf(rows[..i])
    {
      assert rows[..i + 1][..i] == rows[..i];
      var row := rows[i];
      var routeKey := Get(row, RouteKeyField);
      if !Truthy(routeKey) {
        continue;
      }
      if routeKey in m {
        continue;
      }
      var dep := Get(row, DepartureField);
      var arr := Get(row, ArrivalField);
      if !Truthy(dep) || !Truthy(arr) {
        continue;
      }
      m := m[routeKey := ScheduleEntry(dep, arr)];
    }
    assert rows[..|rows|] == rows;
  }

  // ---------------------------------------------------------------------------
  // Segments from tariffs and stops
  // ---------------------------------------------------------------------------

  const RefKeyField: string := "Ref_Key"
  const IsFolderField: string := "IsFolder"
  const ShortNameField: string := "НаименованиеКраткое"
  const DescriptionField: string := "Description"
  const DefaultStopName: string := "Остановка"
  const RecorderKeyField: string := "Recorder_Key"
  const LineNumberField: string := "LineNumber"
  const FromKeyField: string := "ПунктОтправления_Key"
  const ToKeyField: string := "ПунктНазначения_Key"
  const PriceField: string := "Тариф"

  /** `not s.get("IsFolder", False)` */
  predicate NotFolder(s: Row) {
    !Truthy(Get(s, IsFolderField))
  }

  /**
   * `stop_by_key`: the non-folder stops by `Ref_Key`, a later stop replacing
   * an earlier one; `None` when a non-folder stop has no `Ref_Key`, where
   * Python raises `KeyError`.
   */
  function StopIndex(stops: seq<Row>): Option<map<Value, Row>> {
    if stops == [] then Some(map[])
    else
      var m := StopIndex(stops[..|stops| - 1]);
      var s := stops[|stops| - 1];
      if m.None? || !NotFolder(s) then m
      else if RefKeyField !in s then None
      else Some(m.value[s[RefKeyField] := s])
  }

  /** Whether `stops[i]` is the last non-folder stop with key `k`. */
  predicate LastStopAt(stops: seq<Row>, k: Value, i: int) {
    && 0 <= i < |stops| && NotFolder(stops[i]) && RefKeyField in stops[i] && stops[i][RefKeyField] == k
    && forall j :: i < j < |stops| ==> !(NotFolder(stops[j]) && RefKeyField in stops[j] && stops[j][RefKeyField] == k)
  }

  /**
   * The index fails exactly when a non-folder stop has no key; otherwise it
   * holds exactly the keys of non-folder stops, each with the last such stop.
   * Folder stops never enter it.
   */
  lemma {:induction false} StopIndexSpec(stops: seq<Row>, k: Value)
    ensures StopIndex(stops).None? <==> exists i :: 0 <= i < |stops| && NotFolder(stops[i]) && RefKeyField !in stops[i]
    ensures StopIndex(stops).Some? ==>
      (k in StopIndex(stops).value <==> exists i :: 0 <= i < |stops| && NotFolder(stops[i]) && RefKeyField in stops[i] && stops[i][RefKeyField] == k)
    ensures StopIndex(stops).Some? && k in StopIndex(stops).value ==>
      exists i :: LastStopAt(stops, k, i) && StopIndex(stops).value[k] == stops[i]
  {
    if stops != [] {
      var init := stops[..|stops| - 1];
      var n := |stops| - 1;
      StopIndexSpec(init, k);
      forall i | 0 <= i < n ensures init[i] == stops[i] { }
      var s := stops[n];
      if StopIndex(init).Some? && NotFolder(s) && RefKeyField in s && s[RefKeyField] == k {
        assert LastStopAt(stops, k, n);
      } else if StopIndex(stops).Some? && k in StopIndex(stops).value {
        var i :| LastStopAt(init, k, i) && StopIndex(init).value[k] == init[i];
        assert LastStopAt(stops, k, i);
      }
    }
  }

  /** `get("НаименованиеКраткое") or get("Description") or "Остановка"`: never a false value. */
  function StopName(s: Row): (r: Value)
    ensures Truthy(r)
    ensures Truthy(Get(s, ShortNameField)) ==> r == Get(s, ShortNameField)
    ensures !Truthy(Get(s, ShortNameField)) && Truthy(Get(s, DescriptionField)) ==> r == Get(s, DescriptionField)
    ensures !Truthy(Get(s, ShortNameField)) && !Truthy(Get(s, DescriptionField)) ==> r == Str(DefaultStopName)
  {
    if Truthy(Get(s, ShortNameField)) then Get(s, ShortNameField)
    else if Truthy(Get(s, DescriptionField)) then Get(s, DescriptionField)
    else Str(DefaultStopName)
  }

  /** A segment dictionary as `build_demo_segments_from_gars` emits it. */
  datatype GarsSegment = GarsSegment(
    id: string, fromId: Value, toId: Value, fromName: Value, toName: Value,
    kind: string, operator: string, departure: string, arrival: string,
    price: real, delayRisk: real, source: string,
    scheduleDepTime: Value, scheduleArrTime: Value)

  /** What one tariff row turns into: nothing, a segment, or an exception from `float(price)`. */
  datatype RowOutcome = Skip | Emit(seg: GarsSegment) | Raise

  /** `d.get(name, default)` */
  function GetOr(d: Row, name: string, default: Value): Value {
    if name in d then d[name] else default
  }

  /** Whether a tariff row names a route, both points and a non-zero tariff, and both points are known stops. */
  predicate Usable(row: Row, stops: map<Value, Row>) {
    && Truthy(Get(row, RouteKeyField)) && Truthy(Get(row, FromKeyField)) && Truthy(Get(row, ToKeyField))
    && Truthy(GetOr(row, PriceField, Num(0.0)))
    && Get(row, FromKeyField) in stops && Get(row, ToKeyField) in stops
  }

  /** The body of the row loop of `build_demo_segments_from_gars`. */
  function SegmentOfRow(row: Row, recorderKey: Value, stops: map<Value, Row>, schedule: map<Value, ScheduleEntry>,
                        parseFloat: string -> Option<real>, show: Value -> string): (r: RowOutcome)
    ensures r.Skip? <==> !Usable(row, stops)
    ensures r.Raise? <==> Usable(row, stops) && PyFloat(GetOr(row, PriceField, Num(0.0)), parseFloat).None?
    ensures r.Emit? ==>
      var fromKey := Get(row, FromKeyField);
      var toKey := Get(row, ToKeyField);
      var routeKey := Get(row, RouteKeyField);
      && r.seg.id == "gars_" + Format(recorderKey, show) + "_" + Format(GetOr(row, LineNumberField, Str("")), show)
      && r.seg.fromId == fromKey && r.seg.toId == toKey
      && r.seg.fromName == StopName(stops[fromKey]) && r.seg.toName == StopName(stops[toKey])
      && r.seg.kind == "bus" && r.seg.source == "gars"
      && Some(r.seg.price) == PyFloat(GetOr(row, PriceField, Num(0.0)), parseFloat)
      && (routeKey in schedule ==>
            r.seg.scheduleDepTime == schedule[routeKey].departureTime && r.seg.scheduleArrTime == schedule[routeKey].arrivalTime)
      && (routeKey !in schedule ==> r.seg.scheduleDepTime == Null && r.seg.scheduleArrTime == Null)
  {
    var routeKey := Get(row, RouteKeyField);
    var fromKey := Get(row, FromKeyField);
    var toKey := Get(row, ToKeyField);
    var price := GetOr(row, PriceField, Num(0.0));
    if !Truthy(routeKey) || !Truthy(fromKey) || !Truthy(toKey) || !Truthy(price) then Skip
    else if fromKey !in stops || toKey !in stops then Skip
    else
      var sch := if routeKey in schedule then Some(schedule[routeKey]) else None;
      match PyFloat(price, parseFloat)
      case None => Raise
      case Some(p) =>
        Emit(GarsSegment(
          "gars_" + Format(recorderKey, show) + "_" + Format(GetOr(row, LineNumberField, Str("")), show),
          fromKey, toKey, StopName(stops[fromKey]), StopName(stops[toKey]),
          "bus", "Автобусы Якутии", "2025-02-10T08:00:00", "2025-02-10T12:00:00",
          p, 0.15, "gars",
          if sch.Some? then sch.value.departureTime else Null,
          if sch.Some? then sch.value.arrivalTime else Null))
  }

  /** The segments of one document's rows in order, or `None` when one raises. */
  function RowsSegments(rows: seq<Row>, recorderKey: Value, stops: map<Value, Row>, schedule: map<Value, ScheduleEntry>,
                        parseFloat: string -> Option<real>, show: Value -> string): Option<seq<GarsSegment>>
  {
    if rows == [] then Some([])
    else
      var prev := RowsSegments(rows[..|rows| - 1], recorderKey, stops, schedule, parseFloat, show);
      match SegmentOfRow(rows[|rows| - 1], recorderKey, stops, schedule, parseFloat, show)
      case Raise => None
      case Skip => prev
      case Emit(seg) => if prev.None? then None else Some(prev.value + [seg])
  }

  /** `fare_doc.get("Recorder_Key", "")` */
  function RecorderKey(doc: Doc): Value {
    GetOr(doc.fields, RecorderKeyField, Str(""))
  }

  /** The segments of all documents, documents first and rows within each, or `None` when a row raises. */
  function DocsSegments(docs: seq<Doc>, stops: map<Value, Row>, schedule: map<Value, ScheduleEntry>,
                        parseFloat: string -> Option<real>, show: Value -> string): Option<seq<GarsSegment>>
  {
    if docs == [] then Some([])
    else
      var prev := DocsSegments(docs[..|docs| - 1], stops, schedule, parseFloat, show);
      var last := docs[|docs| - 1];
      var cur := RowsSegments(last.recordSet, RecorderKey(last), stops, schedule, parseFloat, show);
      if prev.None? || cur.None? then None else Some(prev.value + cur.value)
  }

  /** A document's rows fail exactly when one of them raises. */
  lemma {:induction false} RowsSegmentsFail(rows: seq<Row>, recorderKey: Value, stops: map<Value, Row>, schedule: map<Value, ScheduleEntry>,
                                            parseFloat: string -> Option<real>, show: Value -> string)
    ensures RowsSegments(rows, recorderKey, stops, schedule, parseFloat, show).None? <==>
      exists j :: 0 <= j < |rows| && SegmentOfRow(rows[j], recorderKey, stops, schedule, parseFloat, show).Raise?
  {
    if rows != [] {
      var init := rows[..|rows| - 1];
      RowsSegmentsFail(init, recorderKey, stops, schedule, parseFloat, show);
      forall j | 0 <= j < |init| ensures init[j] == rows[j] { }
      if RowsSegments(rows, recorderKey, stops, schedule, parseFloat, show).None? {
        if RowsSegments(init, recorderKey, stops, schedule, parseFloat, show).None? {
          var j :| 0 <= j < |init| && SegmentOfRow(init[j], recorderKey, stops, schedule, parseFloat, show).Raise?;
          assert SegmentOfRow(rows[j], recorderKey, stops, schedule, parseFloat, show).Raise?;
        }
      }
    }
  }

  /** When a document's rows succeed, a segment comes out exactly when some row emits it. */
  lemma {:induction false} RowsSegmentsMembers(rows: seq<Row>, recorderKey: Value, stops: map<Value, Row>, schedule: map<Value, ScheduleEntry>,
                                               parseFloat: string -> Option<real>, show: Value -> string, seg: GarsSegment)
    requires RowsSegments(rows, recorderKey, stops, schedule, parseFloat, show).Some?
    ensures seg in RowsSegments(rows, recorderKey, stops, schedule, parseFloat, show).value <==>
      exists j :: 0 <= j < |rows| && SegmentOfRow(rows[j], recorderKey, stops, schedule, parseFloat, show) == Emit(seg)
  {
    if rows != [] {
      var init := rows[..|rows| - 1];
      RowsSegmentsMembers(init, recorderKey, stops, schedule, parseFloat, show, seg);
      forall j | 0 <= j < |init| ensures init[j] == rows[j] { }
    }
  }

  function OutcomeAt(docs: seq<Doc>, d: nat, j: nat, stops: map<Value, Row>, schedule: map<Value, ScheduleEntry>,
                     parseFloat: string -> Option<real>, show: Value -> string): RowOutcome
    requires d < |docs| && j < |docs[d].recordSet|
  {
    SegmentOfRow(docs[d].recordSet[j], RecorderKey(docs[d]), stops, schedule, parseFloat, show)
  }

  /** Over all documents, the build fails only when some row of some document raises. */
  lemma {:induction false} DocsSegmentsFailSound(docs: seq<Doc>, stops: map<Value, Row>, schedule: map<Value, ScheduleEntry>,
                                                 parseFloat: string -> Option<real>, show: Value -> string)
    requires DocsSegments(docs, stops, schedule, parseFloat, show).None?
    ensures exists d, j :: 0 <= d < |docs| && 0 <= j < |docs[d].recordSet| && OutcomeAt(docs, d, j, stops, schedule, parseFloat, show).Raise?
  {
    var n := |docs| - 1;
    var init := docs[..n];
    var last := docs[n];
    if DocsSegments(init, stops, schedule, parseFloat, show).None? {
      DocsSegmentsFailSound(init, stops, schedule, parseFloat, show);
      var d, j :| 0 <= d < |init| && 0 <= j < |init[d].recordSet| && OutcomeAt(init, d, j, stops, schedule, parseFloat, show).Raise?;
      assert init[d] == docs[d];
      assert OutcomeAt(docs, d, j, stops, schedule, parseFloat, show).Raise?;
    } else {
      RowsSegmentsFail(last.recordSet, RecorderKey(last), stops, schedule, parseFloat, show);
      var j :| 0 <= j < |last.recordSet| && SegmentOfRow(last.recordSet[j], RecorderKey(last), stops, schedule, parseFloat, show).Raise?;
      assert OutcomeAt(docs, n, j, stops, schedule, parseFloat, show).Raise?;
    }
  }

  /** A row that raises, in any document, makes the whole build fail. */
  lemma DocsSegmentsFailComplete(docs: seq<Doc>, d: nat, j: nat, stops: map<Value, Row>, schedule: map<Value, ScheduleEntry>,
                                 parseFloat: string -> Option<real>, show: Value -> string)
    requires d < |docs| && j < |docs[d].recordSet| && OutcomeAt(docs, d, j, stops, schedule, parseFloat, show).Raise?
    ensures DocsSegments(docs, stops, schedule, parseFloat, show).None?
  {
    RowsSegmentsFail(docs[d].recordSet, RecorderKey(docs[d]), stops, schedule, parseFloat, show);
    assert docs[..d + 1][..d] == docs[..d];
    assert DocsSegments(docs[..d + 1], stops, schedule, parseFloat, show).None?;
    DocsSegmentsPrefix(docs, d + 1, stops, schedule, parseFloat, show);
  }

  /** A failure in a prefix of the rows is a failure of all of them. */
  lemma {:induction false} RowsSegmentsPrefix(rows: seq<Row>, j: nat, recorderKey: Value, stops: map<Value, Row>, schedule: map<Value, ScheduleEntry>,
                                              parseFloat: string -> Option<real>, show: Value -> string)
    requires j <= |rows|
    requires RowsSegments(rows[..j], recorderKey, stops, schedule, parseFloat, show).None?
    ensures RowsSegments(rows, recorderKey, stops, schedule, parseFloat, show).None?
  {
    if j < |rows| {
      var init := rows[..|rows| - 1];
      assert init[..j] == rows[..j];
      RowsSegmentsPrefix(init, j, recorderKey, stops, schedule, parseFloat, show);
    } else {
      assert rows[..j] == rows;
    }
  }

  /** A failure in a prefix of the documents is a failure of all of them. */
  lemma {:induction false} DocsSegmentsPrefix(docs: seq<Doc>, d: nat, stops: map<Value, Row>, schedule: map<Value, ScheduleEntry>,
                                              parseFloat: string -> Option<real>, show: Value -> string)
    requires d <= |docs|
    requires DocsSegments(docs[..d], stops, schedule, parseFloat, show).None?
    ensures DocsSegments(docs, stops, schedule, parseFloat, show).None?
  {
    if d < |docs| {
      var init := docs[..|docs| - 1];
      assert init[..d] == docs[..d];
      DocsSegmentsPrefix(init, d, stops, schedule, parseFloat, show);
    } else {
      assert docs[..d] == docs;
    }
  }

  /** What `build_demo_segments_from_gars` produces from the fetched stops, tariff documents and schedule map. */
  function DemoSegments(stops: seq<Row>, fares: seq<Doc>, schedule: map<Value, ScheduleEntry>,
                        parseFloat: string -> Option<real>, show: Value -> string): Option<seq<GarsSegment>>
  {
    match StopIndex(stops)
    case None => None
    case Some(index) => DocsSegments(fares, index, schedule, parseFloat, show)
  }

  /**
   * The inner loop of `build_demo_segments_from_gars`: appends the segments of
   * one document's rows to `segments`; `None` where Python raises.
   */
  method AppendRowSegments(segments: seq<GarsSegment>, recordset: seq<Row>, recorderKey: Value, stopByKey: map<Value, Row>,
                           schedule: map<Value, ScheduleEntry>, parseFloat: string -> Option<real>, show: Value -> string)
    returns (r: Option<seq<GarsSegment>>)
    ensures var rows := RowsSegments(recordset, recorderKey, stopByKey, schedule, parseFloat, show);
      r == if rows.None? then None else Some(segments + rows.value)
  {
    var out := segments;
    ghost var docSegs := [];
    assert recordset[..0] == [];
    for j := 0 to |recordset|
      invariant out == segments + docSegs
      invariant RowsSegments(recordset[..j], recorderKey, stopByKey, schedule, parseFloat, show) == Some(docSegs)
    {
      assert recordset[..j + 1][..j] == recordset[..j];
      var outcome := SegmentOfRow(recordset[j], recorderKey, stopByKey, schedule, parseFloat, show);
      if outcome.Raise? {
        RowsSegmentsPrefix(recordset, j + 1, recorderKey, stopByKey, schedule, parseFloat, show);
        return None;
      }
      if outcome.Emit? {
        out := out + [outcome.seg];
        docSegs := docSegs + [outcome.seg];
      }
    }
    assert recordset[..|recordset|] == recordset;
    return Some(out);
  }

  /**
   * `build_demo_segments_from_gars` with its three requests' results passed
   * in: the nested loop over documents and rows, appending each segment;
   * `None` where Python raises.
   */
  method BuildDemoSegments(stops: seq<Row>, fares: seq<Doc>, schedule: map<Value, ScheduleEntry>,
                           parseFloat: string -> Option<real>, show: Value -> string) returns (r: Option<seq<GarsSegment>>)
    ensures r == DemoSegments(stops, fares, schedule, parseFloat, show)
  {
    var index := StopIndex(stops);
    if index.None? {
      return None;
    }
    var stopByKey := index.value;
    var segments: seq<GarsSegment> := [];
    for d := 0 to |fares|
      invariant DocsSegments(fares[..d], stopByKey, schedule, parseFloat, show) == Some(segments)
    {
      var doc := fares[d];
      var recorderKey := GetOr(doc.fields, RecorderKeyField, Str(""));
      assert fares[..d + 1][..d] == fares[..d];
      var appended := AppendRowSegments(segments, doc.recordSet, recorderKey, stopByKey, schedule, parseFloat, show);
      if appended.None? {
        DocsSegmentsPrefix(fares, d + 1, stopByKey, schedule, parseFloat, show);
        return None;
      }
      segments := appended.value;
    }
    assert fares[..|fares|] == fares;
    return Some(segments);
  }
}
