/**
 * frontend/src/components/MapView.jsx: the geometry the map draws for a
 * route. Each segment endpoint is looked up in two fixed coordinate tables,
 * first by stop id and then by normalised stop name; a segment becomes a
 * polyline only when both of its endpoints are found.
 */
module MapView {
  import opened Wrappers
  import Text

  /** A point on the map, `[lat, lng]`. */
  datatype LatLng = LatLng(lat: real, lng: real)

  /** `COORDS_BY_ID` */
  const CoordsById: map<string, LatLng> := map[
    "msk_city" := LatLng(55.7558, 37.6173),
    "msk_svo" := LatLng(55.9726, 37.4146),
    "yak_airport" := LatLng(62.093, 129.771),
    "yak_station" := LatLng(61.8675, 129.9564),
    "yak_city" := LatLng(62.0355, 129.6755),
    "sangar_port" := LatLng(63.924, 127.471),
    "olekminsk_port" := LatLng(60.374, 120.406),
    "mirny_airport" := LatLng(62.536, 113.961),
    "mirny_city" := LatLng(62.536, 113.961),
    "neryungri_airport" := LatLng(56.659, 124.71),
    "neryungri_station" := LatLng(56.6605, 124.71),
    "neryungri_city" := LatLng(56.659, 124.71)
  ]

  /** `COORDS_BY_NAME`, keyed by normalised names. */
  const CoordsByName: map<string, LatLng> := map[
    "москва" := LatLng(55.7558, 37.6173),
    "москва (шереметьево)" := LatLng(55.9726, 37.4146),
    "якутск" := LatLng(62.0355, 129.6755),
    "якутск (город)" := LatLng(62.0355, 129.6755),
    "якутск (аэропорт)" := LatLng(62.093, 129.771),
    "якутск (жд вокзал)" := LatLng(62.039, 129.72),
    "нижний бестях (жд)" := LatLng(61.8675, 129.9564),
    "сангар (речной порт)" := LatLng(63.924, 127.471),
    "олёкминск (речной порт)" := LatLng(60.374, 120.406),
    "мирный" := LatLng(62.536, 113.961),
    "нерюнгри" := LatLng(56.659, 124.71)
  ]

  /**
   * The two lookup tables. `getCoordForStop` reads the fixed ones, `Coords`;
   * the lemmas below hold for any tables.
   */
  datatype CoordTables = CoordTables(byId: map<string, LatLng>, byName: map<string, LatLng>)

  const Coords: CoordTables := CoordTables(CoordsById, CoordsByName)

  /** The map centre when nothing is drawn. */
  const DefaultCenter: LatLng := LatLng(62.0, 110.0)

  /** `norm`: a missing name is `""`; otherwise lower-cased, then trimmed. */
  function NormName(s: Option<string>): (r: string)
    ensures r == Text.Lower(Text.Trim(s.GetOr("")))
  {
    Text.TrimLowerCommute(s.GetOr(""));
    Text.Trim(Text.Lower(s.GetOr("")))
  }

  /** `getCoordForStop`: a known non-empty id wins, then a known non-empty normalised name. */
  function CoordForStop(t: CoordTables, id: Option<string>, name: Option<string>): Option<LatLng> {
    if id.Some? && id.value != "" && id.value in t.byId then Some(t.byId[id.value])
    else
      var key := NormName(name);
      if key != "" && key in t.byName then Some(t.byName[key]) else None
  }

  /**
   * A stop resolves exactly when its non-empty id or its non-empty
   * normalised name is in a table; a known id decides the point whatever
   * the name says, and the point always comes from one of the two tables.
   */
  lemma CoordForStopSpec(t: CoordTables, id: Option<string>, name: Option<string>)
    ensures CoordForStop(t, id, name).Some? <==>
      (id.Some? && id.value != "" && id.value in t.byId) || (NormName(name) != "" && NormName(name) in t.byName)
    ensures id.Some? && id.value != "" && id.value in t.byId ==> CoordForStop(t, id, name) == Some(t.byId[id.value])
    ensures CoordForStop(t, id, name).Some? ==>
      CoordForStop(t, id, name).value in t.byId.Values || CoordForStop(t, id, name).value in t.byName.Values
  {
  }

  /** The fields of a route segment the map reads; a missing field is `None`. */
  datatype MapSegment = MapSegment(fromId: Option<string>, fromName: Option<string>, toId: Option<string>, toName: Option<string>)

  /** A drawn line: its two positions and the names shown on the markers. */
  datatype Polyline = Polyline(from: LatLng, to: LatLng, fromName: Option<string>, toName: Option<string>)

  /** The polyline of one segment, when both of its endpoints resolve. */
  function PolylineOf(t: CoordTables, s: MapSegment): Option<Polyline> {
    var from := CoordForStop(t, s.fromId, s.fromName);
    var to := CoordForStop(t, s.toId, s.toName);
    if from.None? || to.None? then None
    else Some(Polyline(from.value, to.value, s.fromName, s.toName))
  }

  /**
   * A segment is drawn exactly when both of its endpoints resolve, as the
   * line between the two points, carrying the segment's own names.
   */
  lemma PolylineOfSpec(t: CoordTables, s: MapSegment)
    ensures PolylineOf(t, s).Some? <==> CoordForStop(t, s.fromId, s.fromName).Some? && CoordForStop(t, s.toId, s.toName).Some?
    ensures PolylineOf(t, s).Some? ==>
      && PolylineOf(t, s).value.from == CoordForStop(t, s.fromId, s.fromName).value
      && PolylineOf(t, s).value.to == CoordForStop(t, s.toId, s.toName).value
      && PolylineOf(t, s).value.fromName == s.fromName && PolylineOf(t, s).value.toName == s.toName
  {
  }

  /** `PolylineOf` over the given tables, as a function of the segment. */
  function LineOn(t: CoordTables): MapSegment -> Option<Polyline> {
    s => PolylineOf(t, s)
  }

  /** `xs.map(f).filter(Boolean)`: the present results of `f`, in order. */
  function Collect<A, B>(xs: seq<A>, f: A -> Option<B>): seq<B> {
    if xs == [] then []
    else
      var last := f(xs[|xs| - 1]);
      Collect(xs[..|xs| - 1], f) + (if last.Some? then [last.value] else [])
  }

  /** An element that gives nothing does not disturb the others: collecting distributes over concatenation. */
  lemma {:induction false} CollectConcat<A, B>(a: seq<A>, b: seq<A>, f: A -> Option<B>)
    ensures Collect(a + b, f) == Collect(a, f) + Collect(b, f)
    decreases |b|
  {
    if b == [] {
      assert a + b == a;
    } else {
      var n := |b| - 1;
      assert (a + b)[..|a + b| - 1] == a + b[..n];
      assert (a + b)[|a + b| - 1] == b[n];
      CollectConcat(a, b[..n], f);
    }
  }

  /** At most one result per element, one per element when every element gives one, and none exactly when no element does. */
  lemma {:induction false} CollectCount<A, B>(xs: seq<A>, f: A -> Option<B>)
    ensures |Collect(xs, f)| <= |xs|
    ensures (forall i :: 0 <= i < |xs| ==> f(xs[i]).Some?) ==> |Collect(xs, f)| == |xs|
    ensures (forall i :: 0 <= i < |xs| ==> f(xs[i]).None?) <==> Collect(xs, f) == []
  {
    if xs != [] {
      var init := xs[..|xs| - 1];
      CollectCount(init, f);
      assert forall i :: 0 <= i < |init| ==> init[i] == xs[i];
    }
  }

  /** Every result comes from some element, and every element's result is collected. */
  lemma {:induction false} CollectMembers<A, B>(xs: seq<A>, f: A -> Option<B>, y: B)
    ensures y in Collect(xs, f) <==> exists i :: 0 <= i < |xs| && f(xs[i]) == Some(y)
  {
    if xs != [] {
      var init := xs[..|xs| - 1];
      CollectMembers(init, f, y);
      if y in Collect(init, f) {
        var i :| 0 <= i < |init| && f(init[i]) == Some(y);
        assert xs[i] == init[i];
      }
      if exists i :: 0 <= i < |xs| && f(xs[i]) == Some(y) {
        var i :| 0 <= i < |xs| && f(xs[i]) == Some(y);
        if i < |init| {
          assert init[i] == xs[i];
        }
      }
    }
  }

  /** The first result is that of the first element that gives one. */
  lemma CollectFirst<A, B>(xs: seq<A>, f: A -> Option<B>, i: nat)
    requires i < |xs| && f(xs[i]).Some? && forall j :: 0 <= j < i ==> f(xs[j]).None?
    ensures |Collect(xs, f)| > 0 && Collect(xs, f)[0] == f(xs[i]).value
  {
    var pre, rest := xs[..i], xs[i + 1..];
    assert xs == pre + ([xs[i]] + rest);
    assert forall j :: 0 <= j < |pre| ==> pre[j] == xs[j];
    CollectCount(pre, f);
    CollectConcat(pre, [xs[i]] + rest, f);
    CollectConcat([xs[i]], rest, f);
    CollectSingle(xs[i], f);
  }

  /** A single element gives its own result, if any. */
  lemma CollectSingle<A, B>(x: A, f: A -> Option<B>)
    ensures Collect([x], f) == if f(x).Some? then [f(x).value] else []
  {
    assert [x][..0] == [];
  }

  /** The last result is that of the last element that gives one. */
  lemma CollectLast<A, B>(xs: seq<A>, f: A -> Option<B>, i: nat)
    requires i < |xs| && f(xs[i]).Some? && forall j :: i < j < |xs| ==> f(xs[j]).None?
    ensures |Collect(xs, f)| > 0 && Collect(xs, f)[|Collect(xs, f)| - 1] == f(xs[i]).value
  {
    var rest := xs[i + 1..];
    assert xs == xs[..i + 1] + rest;
    CollectConcat(xs[..i + 1], rest, f);
    assert forall j :: 0 <= j < |rest| ==> rest[j] == xs[i + 1 + j];
    CollectCount(rest, f);
    assert xs[..i + 1][..i] == xs[..i];
  }

  /**
   * The `polylines` memo: a missing route or a route without segments
   * (`None`) draws nothing; otherwise the polylines of the segments whose
   * endpoints both resolve, in segment order.
   */
  function Polylines(segments: Option<seq<MapSegment>>): (r: seq<Polyline>)
    ensures segments.None? ==> r == []
    ensures segments.Some? ==> r == Collect(segments.value, LineOn(Coords))
  {
    if segments.None? then [] else Collect(segments.value, LineOn(Coords))
  }

  /** The `center` memo: the first polyline's origin, else the default centre. */
  function Center(pls: seq<Polyline>): LatLng {
    if |pls| > 0 then pls[0].from else DefaultCenter
  }

  /** The start and finish markers, with the names their pop-ups show. */
  datatype Markers = Markers(start: LatLng, startName: Option<string>, finish: LatLng, finishName: Option<string>)

  /** The markers: only when something is drawn, at the first origin and the last destination. */
  function MarkersOf(pls: seq<Polyline>): Option<Markers> {
    if |pls| > 0 then Some(Markers(pls[0].from, pls[0].fromName, pls[|pls| - 1].to, pls[|pls| - 1].toName))
    else None
  }

  /** With no resolvable segment the map is centred on the default and has no markers. */
  lemma NothingDrawn(t: CoordTables, segs: seq<MapSegment>)
    requires forall i :: 0 <= i < |segs| ==> LineOn(t)(segs[i]).None?
    ensures Center(Collect(segs, LineOn(t))) == DefaultCenter && MarkersOf(Collect(segs, LineOn(t))).None?
  {
    CollectCount(segs, LineOn(t));
  }

  /**
   * When segment `i` is the first resolvable one, the map is centred on its
   * start, where the start marker stands.
   */
  lemma CenterOnFirst(t: CoordTables, segs: seq<MapSegment>, i: nat)
    requires i < |segs| && LineOn(t)(segs[i]).Some? && forall j :: 0 <= j < i ==> LineOn(t)(segs[j]).None?
    ensures var pls := Collect(segs, LineOn(t));
      && Center(pls) == LineOn(t)(segs[i]).value.from
      && MarkersOf(pls).Some? && MarkersOf(pls).value.start == Center(pls)
      && MarkersOf(pls).value.startName == segs[i].fromName
  {
    CollectFirst(segs, LineOn(t), i);
  }

  /** When segment `i` is the last resolvable one, the finish marker stands at its end. */
  lemma FinishOnLast(t: CoordTables, segs: seq<MapSegment>, i: nat)
    requires i < |segs| && LineOn(t)(segs[i]).Some? && forall j :: i < j < |segs| ==> LineOn(t)(segs[j]).None?
    ensures var pls := Collect(segs, LineOn(t));
      && MarkersOf(pls).Some? && MarkersOf(pls).value.finish == LineOn(t)(segs[i]).value.to
      && MarkersOf(pls).value.finishName == segs[i].toName
  {
    CollectLast(segs, LineOn(t), i);
  }

  /**
   * A name that lower-cases, character by character, to a table key
   * without surrounding whitespace resolves to that key's point.
   */
  lemma ResolvesByName(name: string, key: string, p: LatLng)
    requires |name| == |key| && forall i :: 0 <= i < |name| ==> Text.LowerChar(name[i]) == key[i]
    requires key in Coords.byName && Coords.byName[key] == p
    requires key != [] && !Text.IsSpace(key[0]) && !Text.IsSpace(key[|key| - 1])
    ensures CoordForStop(Coords, None, Some(name)) == Some(p)
  {
    Text.LowerEach(name, key);
    Text.TrimUnchanged(key);
  }

  /** Moscow, the default origin of a search, resolves by its name alone. */
  lemma MoscowByName()
    ensures CoordForStop(Coords, None, Some("Москва")) == Some(LatLng(55.7558, 37.6173))
  {
    ResolvesByName("Москва", "москва", LatLng(55.7558, 37.6173));
  }

  /** The railway station at Nizhny Bestyakh resolves by its name alone. */
  lemma BestyakhByName()
    ensures CoordForStop(Coords, None, Some("Нижний Бестях (ЖД)")) == Some(LatLng(61.8675, 129.9564))
  {
    ResolvesByName("Нижний Бестях (ЖД)", "нижний бестях (жд)", LatLng(61.8675, 129.9564));
  }

  /** The river port of Sangar, the default destination of a search, resolves by its name alone. */
  lemma SangarByName()
    ensures CoordForStop(Coords, None, Some("Сангар (речной порт)")) == Some(LatLng(63.924, 127.471))
  {
    ResolvesByName("Сангар (речной порт)", "сангар (речной порт)", LatLng(63.924, 127.471));
  }
}
