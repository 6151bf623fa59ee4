/**
 * The selection half of `search_routes` (backend/main.py): routes that travel the
 * same legs with the same carrier are grouped, each group keeps its cheapest and
 * its fastest route, the survivors get the `fastest` / `cheapest` / `reliable`
 * labels, and the list is sorted by label and then by a per-label measure.
 * Python's `min` returns the first minimal element and `is` compares identity,
 * which for these freshly built dictionaries is their position in the list.
 */
module RouteRanking {
  import opened Itineraries

  /** One entry of a route's signature: `(from_id, to_id, type, operator, source)`. */
  datatype SigLeg = SigLeg(fromId: string, toId: string, kind: string, operator: string, source: string)

  /** The signature of a list of segments. */
  function PathSignature(p: seq<Segment>): (sig: seq<SigLeg>)
    ensures |sig| == |p|
  {
    seq(|p|, i requires 0 <= i < |p| => SigLeg(p[i].fromId, p[i].toId, p[i].kind, p[i].operator, p[i].source))
  }

  /** The signature of a route: that of the segments it was built from. */
  function Signature(r: Itinerary): (sig: seq<SigLeg>)
    ensures |sig| == |r.legs|
  {
    PathSignature(PathOf(r))
  }

  /** A label does not change a route's signature. */
  lemma SignatureRelabel(r: Itinerary, l: Label)
    ensures Signature(r.(recommended := l)) == Signature(r)
  {
    assert PathOf(r.(recommended := l)) == PathOf(r);
  }

  /** The three measures routes are compared by. */
  datatype Measure = ByTime | ByPrice | ByRisk

  function MeasureOf(r: Itinerary, m: Measure): real {
    match m
    case ByTime => r.totalMinutes as real
    case ByPrice => r.totalPrice as real
    case ByRisk => r.totalRisk
  }

  /** `min(rs, key=…)`: the index of the first route with the least measure. */
  function FirstMin(rs: seq<Itinerary>, m: Measure): (k: nat)
    requires rs != []
    ensures k < |rs|
    ensures forall j :: 0 <= j < |rs| ==> MeasureOf(rs[k], m) <= MeasureOf(rs[j], m)
    ensures forall j :: 0 <= j < k ==> MeasureOf(rs[j], m) > MeasureOf(rs[k], m)
  {
    if |rs| == 1 then 0
    else
      var t := 1 + FirstMin(rs[1..], m);
      if MeasureOf(rs[0], m) <= MeasureOf(rs[t], m) then 0 else t
  }

  // ---------------------------------------------------------------------------
  // Grouping and deduplication
  // ---------------------------------------------------------------------------

  /** The distinct signatures of `rs`, in order of first appearance (the key order of `grouped`). */
  function Sigs(rs: seq<Itinerary>): (ks: seq<seq<SigLeg>>)
    ensures forall i, j :: 0 <= i < j < |ks| ==> ks[i] != ks[j]
  {
    if rs == [] then []
    else
      var prev := Sigs(rs[..|rs| - 1]);
      var k := Signature(rs[|rs| - 1]);
      if k in prev then prev else prev + [k]
  }

  /** No key occurs twice: each one is new to the keys before it. */
  ghost predicate DistinctKeys(ks: seq<seq<SigLeg>>) {
    ks == [] || (DistinctKeys(ks[..|ks| - 1]) && ks[|ks| - 1] !in ks[..|ks| - 1])
  }

  /** The keys are added only when new. */
  lemma {:induction false} SigsDistinct(rs: seq<Itinerary>)
    ensures DistinctKeys(Sigs(rs))
  {
    if rs != [] {
      var prev := Sigs(rs[..|rs| - 1]);
      var k := Signature(rs[|rs| - 1]);
      SigsDistinct(rs[..|rs| - 1]);
      if k !in prev {
        assert (prev + [k])[..|prev|] == prev;
      }
    }
  }

  /** The keys are exactly the signatures that occur. */
  lemma {:induction false} SigsMembers(rs: seq<Itinerary>, k: seq<SigLeg>)
    ensures k in Sigs(rs) <==> exists r :: r in rs && Signature(r) == k
  {
    if rs != [] {
      SigsMembers(rs[..|rs| - 1], k);
      assert forall r :: r in rs <==> r in rs[..|rs| - 1] || r == rs[|rs| - 1];
    }
  }

  /** The routes of `rs` with signature `k`, in order (one list of `grouped`). */
  function Group(rs: seq<Itinerary>, k: seq<SigLeg>): (g: seq<Itinerary>)
    ensures forall r :: r in g ==> r in rs && Signature(r) == k
  {
    if rs == [] then []
    else
      var prev := Group(rs[..|rs| - 1], k);
      var last := rs[|rs| - 1];
      assert forall r :: r in rs <==> r in rs[..|rs| - 1] || r == last;
      if Signature(last) == k then prev + [last] else prev
  }

  /** What one group contributes: its cheapest route, then its fastest if that is another one. */
  function Picks(g: seq<Itinerary>): (p: seq<Itinerary>)
    ensures |p| <= 2
    ensures g != [] ==> 1 <= |p|
    ensures forall r :: r in p ==> r in g
  {
    if g == [] then []
    else
      var c := FirstMin(g, ByPrice);
      var f := FirstMin(g, ByTime);
      if f != c then [g[c], g[f]] else [g[c]]
  }

  /** The groups of `rs` for the signatures `ks`, in that order, reduced to their picks. */
  function PicksFor(rs: seq<Itinerary>, ks: seq<seq<SigLeg>>): seq<Itinerary>
  {
    if ks == [] then [] else PicksFor(rs, ks[..|ks| - 1]) + Picks(Group(rs, ks[|ks| - 1]))
  }

  /** The deduplicated route list of `search_routes`. */
  function Deduplicated(rs: seq<Itinerary>): seq<Itinerary> {
    PicksFor(rs, Sigs(rs))
  }

  lemma {:induction false} GroupAppend(a: seq<Itinerary>, b: seq<Itinerary>, k: seq<SigLeg>)
    ensures Group(a + b, k) == Group(a, k) + Group(b, k)
    decreases |b|
  {
    if b == [] {
      assert a + b == a;
    } else {
      var n := |b| - 1;
      assert (a + b)[..|a + b| - 1] == a + b[..n];
      GroupAppend(a, b[..n], k);
    }
  }

  lemma PicksSignature(g: seq<Itinerary>, k: seq<SigLeg>)
    requires forall r :: r in g ==> Signature(r) == k
    ensures forall k' :: k' != k ==> Group(Picks(g), k') == []
    ensures Group(Picks(g), k) == Picks(g)
  {
    var p := Picks(g);
    if |p| == 2 {
      assert p == [p[0]] + [p[1]];
      GroupAppend([p[0]], [p[1]], k);
      forall k' | k' != k ensures Group(p, k') == [] {
        GroupAppend([p[0]], [p[1]], k');
      }
    }
  }

  lemma {:induction false} GroupOfPicksFor(rs: seq<Itinerary>, ks: seq<seq<SigLeg>>, k: seq<SigLeg>)
    requires DistinctKeys(ks)
    ensures Group(PicksFor(rs, ks), k) == if k in ks then Picks(Group(rs, k)) else []
  {
    if ks != [] {
      var n := |ks| - 1;
      GroupOfPicksFor(rs, ks[..n], k);
      GroupPicksForStep(rs, ks, k);
      InPrefixOrLast(ks, k);
    }
  }

  /** An element of a non-empty list is in all but its last place, or is the last. */
  lemma InPrefixOrLast<T>(s: seq<T>, x: T)
    requires s != []
    ensures x in s <==> x in s[..|s| - 1] || x == s[|s| - 1]
  {
    var n := |s| - 1;
    if x in s {
      var i :| 0 <= i < |s| && s[i] == x;
      if i < n {
        assert s[..n][i] == x;
      }
    }
    if x in s[..n] {
      var i :| 0 <= i < n && s[..n][i] == x;
      assert s[i] == x;
    }
  }

  /** The group of `k` among the picks for one more key. */
  lemma GroupPicksForStep(rs: seq<Itinerary>, ks: seq<seq<SigLeg>>, k: seq<SigLeg>)
    requires ks != []
    ensures var n := |ks| - 1;
      Group(PicksFor(rs, ks), k) == Group(PicksFor(rs, ks[..n]), k) + (if k == ks[n] then Picks(Group(rs, ks[n])) else [])
  {
    var n := |ks| - 1;
    var p := Picks(Group(rs, ks[n]));
    GroupAppend(PicksFor(rs, ks[..n]), p, k);
    PicksSignature(Group(rs, ks[n]), ks[n]);
  }

  /**
   * Deduplication keeps, for every signature present, exactly the cheapest
   * route of its group and, when that is a different route, the fastest; a
   * signature not present contributes nothing. So at most two routes share a
   * signature.
   */
  lemma DeduplicatedPerSignature(rs: seq<Itinerary>, k: seq<SigLeg>)
    ensures Group(Deduplicated(rs), k) == if k in Sigs(rs) then Picks(Group(rs, k)) else []
    ensures |Group(Deduplicated(rs), k)| <= 2
  {
    SigsDistinct(rs);
    GroupOfPicksFor(rs, Sigs(rs), k);
  }

  /** A route is in the group of its own signature. */
  lemma {:induction false} GroupHas(rs: seq<Itinerary>, r: Itinerary)
    requires r in rs
    ensures r in Group(rs, Signature(r))
  {
    var n := |rs| - 1;
    InPrefixOrLast(rs, r);
    if r != rs[n] {
      GroupHas(rs[..n], r);
    }
  }

  lemma {:induction false} PicksForSubset(rs: seq<Itinerary>, ks: seq<seq<SigLeg>>)
    requires forall k :: k in ks ==> Group(rs, k) != []
    ensures forall r :: r in PicksFor(rs, ks) ==> r in rs
    ensures ks != [] ==> PicksFor(rs, ks) != []
  {
    if ks != [] {
      PicksForSubset(rs, ks[..|ks| - 1]);
    }
  }

  /** Deduplication only drops routes, and keeps at least one when there was one. */
  lemma DeduplicatedSubset(rs: seq<Itinerary>)
    ensures forall r :: r in Deduplicated(rs) ==> r in rs
    ensures rs != [] ==> Deduplicated(rs) != []
  {
    forall k | k in Sigs(rs) ensures Group(rs, k) != [] {
      GroupNonEmptyIff(rs, k);
    }
    PicksForSubset(rs, Sigs(rs));
    if rs != [] {
      SigsMembers(rs, Signature(rs[0]));
    }
  }

  /** A signature has a non-empty group exactly when it is one of the keys. */
  lemma {:induction false} GroupNonEmptyIff(rs: seq<Itinerary>, k: seq<SigLeg>)
    ensures Group(rs, k) != [] <==> k in Sigs(rs)
  {
    if rs != [] {
      GroupNonEmptyIff(rs[..|rs| - 1], k);
    }
  }

  lemma SigsStep(rs: seq<Itinerary>, i: nat)
    requires i < |rs|
    ensures Sigs(rs[..i + 1]) ==
      if Signature(rs[i]) in Sigs(rs[..i]) then Sigs(rs[..i]) else Sigs(rs[..i]) + [Signature(rs[i])]
  {
    assert rs[..i + 1][..i] == rs[..i];
  }

  lemma GroupStep(rs: seq<Itinerary>, i: nat, k: seq<SigLeg>)
    requires i < |rs|
    ensures Group(rs[..i + 1], k) == if Signature(rs[i]) == k then Group(rs[..i], k) + [rs[i]] else Group(rs[..i], k)
  {
    assert rs[..i + 1][..i] == rs[..i];
  }

  /** `order` and `grouped` hold the dictionary `grouped` built from `rs`. */
  ghost predicate Grouping(rs: seq<Itinerary>, order: seq<seq<SigLeg>>, grouped: map<seq<SigLeg>, seq<Itinerary>>) {
    && order == Sigs(rs)
    && grouped.Keys == set k | k in order
    && forall k :: k in grouped ==> grouped[k] == Group(rs, k)
  }

  /** Setting a key of a dictionary whose keys are those of `order`: a new key is appended to the key order. */
  lemma KeysAfterSet<K, V>(m: map<K, V>, order: seq<K>, key: K, v: V)
    requires m.Keys == set k | k in order
    ensures key in m ==> m[key := v].Keys == set k | k in order
    ensures key !in m ==> m[key := v].Keys == set k | k in order + [key]
  {
    if key !in m {
      var o2 := order + [key];
      forall k ensures k in m[key := v].Keys <==> k in o2 {
        InPrefixOrLast(o2, k);
        assert o2[..|o2| - 1] == order;
      }
    }
  }

  lemma GroupingStep(rs: seq<Itinerary>, i: nat, order: seq<seq<SigLeg>>, grouped: map<seq<SigLeg>, seq<Itinerary>>)
    requires i < |rs|
    requires Grouping(rs[..i], order, grouped)
    ensures var sig := Signature(rs[i]);
      if sig in grouped then Grouping(rs[..i + 1], order, grouped[sig := grouped[sig] + [rs[i]]])
      else Grouping(rs[..i + 1], order + [sig], grouped[sig := [rs[i]]])
  {
    var sig := Signature(rs[i]);
    SigsStep(rs, i);
    if sig !in grouped {
      GroupNonEmptyIff(rs[..i], sig);
    }
    var g2 := if sig in grouped then grouped[sig := grouped[sig] + [rs[i]]] else grouped[sig := [rs[i]]];
    var o2 := if sig in grouped then order else order + [sig];
    KeysAfterSet(grouped, order, sig, g2[sig]);
    forall k | k in g2 ensures g2[k] == Group(rs[..i + 1], k) {
      GroupStep(rs, i, k);
    }
  }

  /**
   * The grouping loop of `search_routes`: `grouped.setdefault(signature, []).append(r)`,
   * with `order` recording the key order of the dictionary.
   */
  method GroupBySignature(routes: seq<Itinerary>) returns (order: seq<seq<SigLeg>>, grouped: map<seq<SigLeg>, seq<Itinerary>>)
    ensures order == Sigs(routes)
    ensures grouped.Keys == set k | k in order
    ensures forall k :: k in grouped ==> grouped[k] == Group(routes, k)
  {
    order := [];
    grouped := map[];
    for i := 0 to |routes|
      invariant Grouping(routes[..i], order, grouped)
    {
      var sig := Signature(routes[i]);
      GroupingStep(routes, i, order, grouped);
      if sig in grouped {
        grouped := grouped[sig := grouped[sig] + [routes[i]]];
      } else {
        grouped := grouped[sig := [routes[i]]];
        order := order + [sig];
      }
    }
    assert routes[..|routes|] == routes;
  }

  lemma PicksForStep(rs: seq<Itinerary>, ks: seq<seq<SigLeg>>, j: nat)
    requires j < |ks|
    ensures PicksFor(rs, ks[..j + 1]) == PicksFor(rs, ks[..j]) + Picks(Group(rs, ks[j]))
  {
    assert ks[..j + 1][..j] == ks[..j];
  }

  /**
   * The deduplication loop of `search_routes`: each group, in key order,
   * contributes its cheapest route and, if that is another route, its fastest.
   */
  method Deduplicate(routes: seq<Itinerary>) returns (out: seq<Itinerary>)
    ensures out == Deduplicated(routes)
  {
    var order, grouped := GroupBySignature(routes);
    out := [];
    for j := 0 to |order|
      invariant out == PicksFor(routes, order[..j])
    {
      PicksForStep(routes, order, j);
      var group := grouped[order[j]];
      assert group == Group(routes, order[j]);
      GroupNonEmptyIff(routes, order[j]);
      var cheapest := FirstMin(group, ByPrice);
      var fastest := FirstMin(group, ByTime);
      ghost var picks := if fastest != cheapest then [group[cheapest], group[fastest]] else [group[cheapest]];
      assert picks == Picks(group);
      out := out + [group[cheapest]];
      if fastest != cheapest {
        out := out + [group[fastest]];
      }
      assert out == PicksFor(routes, order[..j]) + picks;
    }
    assert order[..|order|] == order;
  }

  // ---------------------------------------------------------------------------
  // Labels
  // ---------------------------------------------------------------------------

  /**
   * The labelling step: every label is cleared, the fastest route is labelled
   * `fastest`, the cheapest `cheapest` unless it is the fastest, and the safest
   * `reliable` unless it is one of those two.
   */
  method AssignLabels(routes: seq<Itinerary>) returns (out: seq<Itinerary>)
    requires routes != []
    ensures |out| == |routes|
    ensures forall i :: 0 <= i < |out| ==>
      out[i] == routes[i].(recommended := LabelAt(i, FirstMin(routes, ByTime), FirstMin(routes, ByPrice), FirstMin(routes, ByRisk)))
  {
    out := ClearLabels(routes);
    var fastest := FirstMin(routes, ByTime);
    var cheapest := FirstMin(routes, ByPrice);
    var safest := FirstMin(routes, ByRisk);
    ghost var cleared := out;
    out := out[fastest := out[fastest].(recommended := Fastest)];
    if cheapest != fastest {
      out := out[cheapest := out[cheapest].(recommended := Cheapest)];
    }
    if safest != fastest && safest != cheapest {
      out := out[safest := out[safest].(recommended := Reliable)];
    }
    LabelsSet(routes, cleared, fastest, cheapest, safest);
  }

  /** `for r in routes: r["recommended_label"] = None`. */
  method ClearLabels(routes: seq<Itinerary>) returns (out: seq<Itinerary>)
    ensures |out| == |routes|
    ensures forall j :: 0 <= j < |routes| ==> out[j] == routes[j].(recommended := NoLabel)
  {
    out := [];
    for i := 0 to |routes|
      invariant |out| == i
      invariant forall j :: 0 <= j < i ==> out[j] == routes[j].(recommended := NoLabel)
    {
      out := out + [routes[i].(recommended := NoLabel)];
    }
  }

  /** The three label assignments of `search_routes` on the cleared list give every route its `LabelAt` label. */
  lemma LabelsSet(routes: seq<Itinerary>, cleared: seq<Itinerary>, f: nat, c: nat, s: nat)
    requires |cleared| == |routes| && f < |routes| && c < |routes| && s < |routes|
    requires forall j :: 0 <= j < |routes| ==> cleared[j] == routes[j].(recommended := NoLabel)
    ensures
      var o1 := cleared[f := cleared[f].(recommended := Fastest)];
      var o2 := if c != f then o1[c := o1[c].(recommended := Cheapest)] else o1;
      var o3 := if s != f && s != c then o2[s := o2[s].(recommended := Reliable)] else o2;
      forall i :: 0 <= i < |o3| ==> o3[i] == routes[i].(recommended := LabelAt(i, f, c, s))
  {
  }

  /** The label index `i` ends up with, given the fastest, cheapest and safest indices. */
  function LabelAt(i: nat, fastest: nat, cheapest: nat, safest: nat): Label {
    if i == fastest then Fastest
    else if i == cheapest then Cheapest
    else if i == safest then Reliable
    else NoLabel
  }

  /** The number of routes carrying label `l`. */
  function CountLabel(rs: seq<Itinerary>, l: Label): nat {
    if rs == [] then 0 else (if rs[0].recommended == l then 1 else 0) + CountLabel(rs[1..], l)
  }

  /** A label carried by exactly the route at index `i` is counted once. */
  lemma {:induction false} CountLabelAt(rs: seq<Itinerary>, l: Label, i: nat)
    requires i < |rs| && rs[i].recommended == l
    requires forall j :: 0 <= j < |rs| && j != i ==> rs[j].recommended != l
    ensures CountLabel(rs, l) == 1
  {
    if i == 0 {
      CountLabelNone(rs[1..], l);
    } else {
      CountLabelAt(rs[1..], l, i - 1);
    }
  }

  /** A label carried by no route is counted zero times. */
  lemma {:induction false} CountLabelNone(rs: seq<Itinerary>, l: Label)
    requires forall j :: 0 <= j < |rs| ==> rs[j].recommended != l
    ensures CountLabel(rs, l) == 0
  {
    if rs != [] {
      CountLabelNone(rs[1..], l);
    }
  }

  /**
   * After labelling there is exactly one `fastest` route, and at most one
   * `cheapest` and one `reliable`; each labelled route is a least one by its
   * measure (time, price, delay risk), and nothing else is labelled.
   */
  lemma LabelCounts(routes: seq<Itinerary>, out: seq<Itinerary>)
    requires routes != [] && |out| == |routes|
    requires forall i :: 0 <= i < |out| ==>
      out[i].recommended == LabelAt(i, FirstMin(routes, ByTime), FirstMin(routes, ByPrice), FirstMin(routes, ByRisk))
    ensures CountLabel(out, Fastest) == 1
    ensures CountLabel(out, Cheapest) <= 1
    ensures CountLabel(out, Reliable) <= 1
    ensures forall i, j | 0 <= i < |out| && 0 <= j < |routes| ::
              && (out[i].recommended == Fastest ==> routes[i].totalMinutes <= routes[j].totalMinutes)
              && (out[i].recommended == Cheapest ==> routes[i].totalPrice <= routes[j].totalPrice)
              && (out[i].recommended == Reliable ==> routes[i].totalRisk <= routes[j].totalRisk)
  {
    var f := FirstMin(routes, ByTime);
    var c := FirstMin(routes, ByPrice);
    var s := FirstMin(routes, ByRisk);
    CountLabelAt(out, Fastest, f);
    if c != f {
      CountLabelAt(out, Cheapest, c);
    } else {
      CountLabelNone(out, Cheapest);
    }
    if s != f && s != c {
      CountLabelAt(out, Reliable, s);
    } else {
      CountLabelNone(out, Reliable);
    }
    forall i, j | 0 <= i < |out| && 0 <= j < |routes|
      ensures out[i].recommended == Fastest ==> routes[i].totalMinutes <= routes[j].totalMinutes
      ensures out[i].recommended == Cheapest ==> routes[i].totalPrice <= routes[j].totalPrice
      ensures out[i].recommended == Reliable ==> routes[i].totalRisk <= routes[j].totalRisk
    {
      assert MeasureOf(routes[f], ByTime) <= MeasureOf(routes[j], ByTime);
      assert MeasureOf(routes[c], ByPrice) <= MeasureOf(routes[j], ByPrice);
      assert MeasureOf(routes[s], ByRisk) <= MeasureOf(routes[j], ByRisk);
    }
  }

  // ---------------------------------------------------------------------------
  // Sorting
  // ---------------------------------------------------------------------------

  /** The rank part of `sort_key`: fastest, cheapest, reliable, then the rest. */
  function Rank(l: Label): nat {
    match l
    case Fastest => 0
    case Cheapest => 1
    case Reliable => 2
    case NoLabel => 3
  }

  /** The value part of `sort_key`: time, price, risk, and time for unlabelled routes. */
  function SortValue(r: Itinerary): real {
    match r.recommended
    case Fastest => MeasureOf(r, ByTime)
    case Cheapest => MeasureOf(r, ByPrice)
    case Reliable => MeasureOf(r, ByRisk)
    case NoLabel => MeasureOf(r, ByTime)
  }

  /** Tuple order on `sort_key(a) <= sort_key(b)`. */
  predicate KeyLe(a: Itinerary, b: Itinerary) {
    Rank(a.recommended) < Rank(b.recommended)
    || (Rank(a.recommended) == Rank(b.recommended) && SortValue(a) <= SortValue(b))
  }

  predicate SameKey(a: Itinerary, b: Itinerary) {
    Rank(a.recommended) == Rank(b.recommended) && SortValue(a) == SortValue(b)
  }

  ghost predicate SortedByKey(rs: seq<Itinerary>) {
    forall i, j :: 0 <= i < j < |rs| ==> KeyLe(rs[i], rs[j])
  }

  /** Places `x` before the first route whose key is not smaller than its own. */
  function Insert(x: Itinerary, rs: seq<Itinerary>): seq<Itinerary> {
    if rs == [] || KeyLe(x, rs[0]) then [x] + rs else [rs[0]] + Insert(x, rs[1..])
  }

  /** Python's `sorted(routes, key=sort_key)`, a stable sort. */
  function SortRoutes(rs: seq<Itinerary>): seq<Itinerary> {
    if rs == [] then [] else Insert(rs[0], SortRoutes(rs[1..]))
  }

  lemma {:induction false} InsertFacts(x: Itinerary, rs: seq<Itinerary>)
    requires SortedByKey(rs)
    ensures SortedByKey(Insert(x, rs))
    ensures multiset(Insert(x, rs)) == multiset{x} + multiset(rs)
  {
    if rs == [] || KeyLe(x, rs[0]) {
      KeyLeTrans(x, rs);
      SortedCons(x, rs);
    } else {
      InsertFacts(x, rs[1..]);
      var tail := Insert(x, rs[1..]);
      assert rs == [rs[0]] + rs[1..];
      forall j | 0 <= j < |tail| ensures KeyLe(rs[0], tail[j]) {
        assert tail[j] in multiset(tail);
        if tail[j] != x {
          assert tail[j] in multiset(rs[1..]);
          var k :| 0 <= k < |rs[1..]| && rs[1..][k] == tail[j];
          assert rs[k + 1] == tail[j];
        }
      }
      SortedCons(rs[0], tail);
    }
  }

  /** A route whose key is at most the first key of a sorted list is at most every key of it. */
  lemma KeyLeTrans(x: Itinerary, rs: seq<Itinerary>)
    requires SortedByKey(rs) && (rs == [] || KeyLe(x, rs[0]))
    ensures forall j :: 0 <= j < |rs| ==> KeyLe(x, rs[j])
  {
  }

  /** A route whose key is at most every key of a sorted list can go in front of it. */
  lemma SortedCons(h: Itinerary, t: seq<Itinerary>)
    requires SortedByKey(t)
    requires forall j :: 0 <= j < |t| ==> KeyLe(h, t[j])
    ensures SortedByKey([h] + t)
  {
    var s := [h] + t;
    forall i, j | 0 <= i < j < |s| ensures KeyLe(s[i], s[j]) {
      if i > 0 { assert s[i] == t[i - 1] && s[j] == t[j - 1]; }
    }
  }

  /** The result is ordered by `sort_key` and is a permutation of the input. */
  lemma {:induction false} SortRoutesCorrect(rs: seq<Itinerary>)
    ensures SortedByKey(SortRoutes(rs))
    ensures multiset(SortRoutes(rs)) == multiset(rs)
  {
    if rs != [] {
      SortRoutesCorrect(rs[1..]);
      InsertFacts(rs[0], SortRoutes(rs[1..]));
      assert rs == [rs[0]] + rs[1..];
    }
  }

  /** The routes of `rs` whose key equals `x`'s, in order. */
  function SameKeyAs(rs: seq<Itinerary>, x: Itinerary): seq<Itinerary> {
    if rs == [] then []
    else (if SameKey(rs[0], x) then [rs[0]] else []) + SameKeyAs(rs[1..], x)
  }

  lemma {:induction false} InsertStable(x: Itinerary, rs: seq<Itinerary>, y: Itinerary)
    requires SortedByKey(rs)
    ensures SameKeyAs(Insert(x, rs), y) == (if SameKey(x, y) then [x] else []) + SameKeyAs(rs, y)
  {
    if rs == [] {
    } else if KeyLe(x, rs[0]) {
      assert ([x] + rs)[1..] == rs;
    } else {
      InsertStable(x, rs[1..], y);
      assert ([rs[0]] + Insert(x, rs[1..]))[1..] == Insert(x, rs[1..]);
      // rs[0] sorts strictly before x, so at most one of them has y's key
      assert !(SameKey(rs[0], y) && SameKey(x, y));
    }
  }

  /** Stability: routes with equal keys keep their relative order. */
  lemma {:induction false} SortRoutesStable(rs: seq<Itinerary>, y: Itinerary)
    ensures SameKeyAs(SortRoutes(rs), y) == SameKeyAs(rs, y)
  {
    if rs != [] {
      SortRoutesStable(rs[1..], y);
      SortRoutesCorrect(rs[1..]);
      InsertStable(rs[0], SortRoutes(rs[1..]), y);
    }
  }

  lemma {:induction false} InsertCount(x: Itinerary, rs: seq<Itinerary>, l: Label)
    ensures CountLabel(Insert(x, rs), l) == CountLabel(rs, l) + (if x.recommended == l then 1 else 0)
  {
    if rs != [] && !KeyLe(x, rs[0]) {
      InsertCount(x, rs[1..], l);
      assert ([rs[0]] + Insert(x, rs[1..]))[1..] == Insert(x, rs[1..]);
    } else {
      assert ([x] + rs)[1..] == rs;
    }
  }

  /** Sorting keeps how many routes carry each label. */
  lemma {:induction false} SortRoutesCounts(rs: seq<Itinerary>, l: Label)
    ensures CountLabel(SortRoutes(rs), l) == CountLabel(rs, l)
  {
    if rs != [] {
      SortRoutesCounts(rs[1..], l);
      InsertCount(rs[0], SortRoutes(rs[1..]), l);
    }
  }

  /** In a sorted list, a `fastest` route comes first, and unlabelled routes come by ascending time. */
  lemma SortedOrder(rs: seq<Itinerary>)
    requires SortedByKey(rs)
    ensures CountLabel(rs, Fastest) > 0 ==> rs[0].recommended == Fastest
    ensures forall i, j :: 0 <= i < j < |rs| ==> Rank(rs[i].recommended) <= Rank(rs[j].recommended)
    ensures forall i, j | 0 <= i < j < |rs| && rs[i].recommended == NoLabel && rs[j].recommended == NoLabel ::
              rs[i].totalMinutes <= rs[j].totalMinutes
  {
    if CountLabel(rs, Fastest) > 0 {
      FastestIndexExists(rs);
      var j :| 0 <= j < |rs| && rs[j].recommended == Fastest;
      if j > 0 {
        assert KeyLe(rs[0], rs[j]);
      }
    }
  }

  lemma {:induction false} FastestIndexExists(rs: seq<Itinerary>)
    requires CountLabel(rs, Fastest) > 0
    ensures exists j :: 0 <= j < |rs| && rs[j].recommended == Fastest
  {
    if rs[0].recommended != Fastest {
      FastestIndexExists(rs[1..]);
      var j :| 0 <= j < |rs[1..]| && rs[1..][j].recommended == Fastest;
      assert rs[j + 1].recommended == Fastest;
    }
  }

  // ---------------------------------------------------------------------------
  // The whole selection
  // ---------------------------------------------------------------------------

  /** Every labelled route is one of the routes with its label set. */
  lemma LabelledMembers(routes: seq<Itinerary>, dedup: seq<Itinerary>, labelled: seq<Itinerary>)
    requires dedup != [] && forall r :: r in dedup ==> r in routes
    requires |labelled| == |dedup|
    requires forall i :: 0 <= i < |labelled| ==>
      labelled[i] == dedup[i].(recommended := LabelAt(i, FirstMin(dedup, ByTime), FirstMin(dedup, ByPrice), FirstMin(dedup, ByRisk)))
    ensures forall r :: r in labelled ==> exists j :: 0 <= j < |routes| && r == routes[j].(recommended := r.recommended)
  {
    forall r | r in labelled ensures exists j :: 0 <= j < |routes| && r == routes[j].(recommended := r.recommended) {
      var i :| 0 <= i < |labelled| && labelled[i] == r;
      assert dedup[i] in routes;
      var j :| 0 <= j < |routes| && routes[j] == dedup[i];
      assert r == routes[j].(recommended := r.recommended);
    }
  }

  /** Each labelled route is a least one among the labelled routes by its label's measure. */
  lemma LabelledLeast(dedup: seq<Itinerary>, labelled: seq<Itinerary>)
    requires dedup != [] && |labelled| == |dedup|
    requires forall i :: 0 <= i < |labelled| ==>
      labelled[i] == dedup[i].(recommended := LabelAt(i, FirstMin(dedup, ByTime), FirstMin(dedup, ByPrice), FirstMin(dedup, ByRisk)))
    ensures forall r, r' | r in labelled && r' in labelled ::
      && (r.recommended == Fastest ==> r.totalMinutes <= r'.totalMinutes)
      && (r.recommended == Cheapest ==> r.totalPrice <= r'.totalPrice)
      && (r.recommended == Reliable ==> r.totalRisk <= r'.totalRisk)
  {
    LabelCounts(dedup, labelled);
    forall r, r' | r in labelled && r' in labelled
      ensures r.recommended == Fastest ==> r.totalMinutes <= r'.totalMinutes
      ensures r.recommended == Cheapest ==> r.totalPrice <= r'.totalPrice
      ensures r.recommended == Reliable ==> r.totalRisk <= r'.totalRisk
    {
      var i :| 0 <= i < |labelled| && r == labelled[i];
      var i' :| 0 <= i' < |labelled| && r' == labelled[i'];
      assert r'.totalMinutes == dedup[i'].totalMinutes && r'.totalPrice == dedup[i'].totalPrice;
      assert r'.totalRisk == dedup[i'].totalRisk;
    }
  }

  /** What sorting keeps and establishes: the same routes, label counts kept, and the `sort_key` order. */
  lemma SortedFacts(labelled: seq<Itinerary>)
    ensures var s := SortRoutes(labelled);
      && |s| == |labelled|
      && (forall r :: r in s ==> r in labelled)
      && CountLabel(s, Fastest) == CountLabel(labelled, Fastest)
      && CountLabel(s, Cheapest) == CountLabel(labelled, Cheapest)
      && CountLabel(s, Reliable) == CountLabel(labelled, Reliable)
      && SortedByKey(s)
      && (CountLabel(s, Fastest) > 0 ==> s[0].recommended == Fastest)
  {
    var s := SortRoutes(labelled);
    SortRoutesCorrect(labelled);
    SortRoutesCounts(labelled, Fastest);
    SortRoutesCounts(labelled, Cheapest);
    SortRoutesCounts(labelled, Reliable);
    assert |s| == |labelled| by {
      assert |multiset(s)| == |multiset(labelled)|;
    }
    forall r | r in s ensures r in labelled {
      assert r in multiset(labelled);
    }
    SortedOrder(s);
  }

  /** The routes after labelling: each gets the label its position earns. */
  function Labelled(rs: seq<Itinerary>): seq<Itinerary>
    requires rs != []
  {
    var f, c, s := FirstMin(rs, ByTime), FirstMin(rs, ByPrice), FirstMin(rs, ByRisk);
    seq(|rs|, i requires 0 <= i < |rs| => rs[i].(recommended := LabelAt(i, f, c, s)))
  }

  /** What `search_routes` returns for the routes its search found: deduplicated, labelled, sorted. */
  function Selected(rs: seq<Itinerary>): seq<Itinerary> {
    var d := Deduplicated(rs);
    if d == [] then [] else SortRoutes(Labelled(d))
  }

  /** The selection holds the deduplicated routes, each once, with their labels. */
  lemma SelectedPermutation(rs: seq<Itinerary>)
    requires Deduplicated(rs) != []
    ensures multiset(Selected(rs)) == multiset(Labelled(Deduplicated(rs)))
  {
    SortRoutesCorrect(Labelled(Deduplicated(rs)));
  }

  /**
   * Per signature, the selection returns exactly the routes deduplication keeps:
   * the cheapest route of the group and, if that is another route, the fastest,
   * each with its label. So every signature of a found route is represented.
   */
  lemma SelectedPerSignature(rs: seq<Itinerary>, k: seq<SigLeg>)
    ensures forall p :: p in Picks(Group(rs, k)) ==> exists r :: r in Selected(rs) && r == p.(recommended := r.recommended)
    ensures forall r :: r in Selected(rs) && Signature(r) == k ==>
      exists p :: p in Picks(Group(rs, k)) && r == p.(recommended := r.recommended)
    ensures (exists r :: r in rs && Signature(r) == k) ==> exists r :: r in Selected(rs) && Signature(r) == k
  {
    var d := Deduplicated(rs);
    DeduplicatedPerSignature(rs, k);
    GroupNonEmptyIff(rs, k);
    forall p | p in Picks(Group(rs, k)) ensures exists r :: r in Selected(rs) && r == p.(recommended := r.recommended) {
      DeduplicatedHasPick(rs, k, p);
      SelectedHasKept(rs, p);
    }
    forall r | r in Selected(rs) && Signature(r) == k
      ensures exists p :: p in Picks(Group(rs, k)) && r == p.(recommended := r.recommended)
    {
      SelectedPermutation(rs);
      assert r in multiset(Labelled(d));
      var i :| 0 <= i < |d| && Labelled(d)[i] == r;
      SignatureRelabel(d[i], r.recommended);
      GroupHas(d, d[i]);
    }
    if exists r :: r in rs && Signature(r) == k {
      var r :| r in rs && Signature(r) == k;
      GroupHas(rs, r);
      var p := Picks(Group(rs, k))[0];
      DeduplicatedHasPick(rs, k, p);
      SelectedHasKept(rs, p);
      var r' :| r' in Selected(rs) && r' == p.(recommended := r'.recommended);
      SignatureRelabel(p, r'.recommended);
    }
  }

  /** A pick of a group survives deduplication. */
  lemma DeduplicatedHasPick(rs: seq<Itinerary>, k: seq<SigLeg>, p: Itinerary)
    requires p in Picks(Group(rs, k))
    ensures p in Deduplicated(rs) && Signature(p) == k
  {
    DeduplicatedPerSignature(rs, k);
    GroupNonEmptyIff(rs, k);
    assert p in Group(Deduplicated(rs), k);
  }

  /** A route kept by deduplication reaches the selection, with some label. */
  lemma SelectedHasKept(rs: seq<Itinerary>, p: Itinerary)
    requires p in Deduplicated(rs)
    ensures exists r :: r in Selected(rs) && r == p.(recommended := r.recommended)
  {
    var d := Deduplicated(rs);
    var i :| 0 <= i < |d| && d[i] == p;
    SelectedPermutation(rs);
    var l := Labelled(d);
    var r := l[i];
    assert r == p.(recommended := r.recommended);
    assert r in multiset(l);
    assert r in Selected(rs);
  }

  /**
   * The second half of `search_routes`: deduplicate, label, sort. The result
   * is empty exactly when there were no routes; every returned route is one
   * of the input routes with its label set; exactly one is `fastest` and it
   * comes first; the labels name a least route by time, price and risk; and
   * the list is ordered by `sort_key`.
   */
  method SelectRoutes(routes: seq<Itinerary>) returns (result: seq<Itinerary>)
    ensures result == Selected(routes)
    ensures result == [] <==> routes == []
    ensures forall r :: r in result ==> exists j :: 0 <= j < |routes| && r == routes[j].(recommended := r.recommended)
    ensures result != [] ==> result[0].recommended == Fastest && CountLabel(result, Fastest) == 1
    ensures CountLabel(result, Cheapest) <= 1 && CountLabel(result, Reliable) <= 1
    ensures forall r, r' | r in result && r' in result ::
      && (r.recommended == Fastest ==> r.totalMinutes <= r'.totalMinutes)
      && (r.recommended == Cheapest ==> r.totalPrice <= r'.totalPrice)
      && (r.recommended == Reliable ==> r.totalRisk <= r'.totalRisk)
    ensures SortedByKey(result)
  {
    if routes == [] {
      return [];
    }
    var dedup := Deduplicate(routes);
    DeduplicatedSubset(routes);
    if dedup == [] {
      return [];
    }
    var labelled := AssignLabels(dedup);
    assert labelled == Labelled(dedup);
    result := SortRoutes(labelled);
    LabelCounts(dedup, labelled);
    LabelledMembers(routes, dedup, labelled);
    LabelledLeast(dedup, labelled);
    SortedFacts(labelled);
  }
}
