/**
 * The search half of backend/main.py: the stop list and the `from_id` graph
 * built at start-up, stop matching by query, `build_route`, the depth-first
 * enumeration of itineraries in `search_routes`, and the `/api/routes` flow.
 *
 * The module globals `stops`, `stops_by_id`, `segments` and `graph` become the
 * fields of one `SearchIndex` object. The paths the search visits are
 * described by the functions `DfsPaths`/`Expand`, which follow the recursion of
 * `dfs` exactly; the lemmas show that they are precisely the valid routes.
 */
module RouteSearch {
  import opened Wrappers
  import Text
  import opened Itineraries
  import opened RouteRanking

  // ---------------------------------------------------------------------------
  // Stop matching
  // ---------------------------------------------------------------------------

  /** `normalize_name`: strip, then lower-case. */
  function NormalizeName(s: string): (r: string)
    ensures |r| <= |s|
    ensures r == [] || (!Text.IsSpace(r[0]) && !Text.IsSpace(r[|r| - 1]))
  {
    var t := Text.Trim(s);
    var r := Text.Lower(t);
    if r == [] then r
    else
      Text.LowerAt(t, 0);
      Text.LowerAt(t, |t| - 1);
      Text.LowerCharKeepsSpace(t[0]);
      Text.LowerCharKeepsSpace(t[|t| - 1]);
      r
  }

  /** Normalising is idempotent, and ignores case and surrounding whitespace of its input. */
  lemma NormalizeNameInsensitive(s: string)
    ensures NormalizeName(NormalizeName(s)) == NormalizeName(s)
    ensures NormalizeName(Text.Lower(s)) == NormalizeName(s)
    ensures NormalizeName(Text.Trim(s)) == NormalizeName(s)
  {
    var t := Text.Trim(s);
    Text.TrimLowerCommute(t);
    Text.TrimIdempotent(s);
    Text.LowerIdempotent(t);
    Text.TrimLowerCommute(s);
  }

  /** The test of `find_stop_ids_by_query` for one stop; a missing name or city is `""`. */
  predicate Matches(st: Stop, q: string) {
    var qn := NormalizeName(q);
    qn != [] && (Text.Contains(NormalizeName(st.name.GetOr("")), qn) || Text.Contains(NormalizeName(st.city.GetOr("")), qn))
  }

  /** A stop matches exactly when the normalised query is non-empty and occurs in its normalised name or city. */
  lemma MatchesSpec(st: Stop, q: string)
    ensures Matches(st, q) <==>
      && NormalizeName(q) != []
      && (|| Text.IsSubstring(NormalizeName(q), NormalizeName(st.name.GetOr("")))
          || Text.IsSubstring(NormalizeName(q), NormalizeName(st.city.GetOr(""))))
  {
  }

  /** Matching ignores the case and the surrounding whitespace of the query. */
  lemma MatchesInsensitive(st: Stop, q: string)
    ensures Matches(st, Text.Lower(q)) == Matches(st, q)
    ensures Matches(st, Text.Trim(q)) == Matches(st, q)
  {
    NormalizeNameInsensitive(q);
  }

  /** The ids of the stops `keep` accepts, in stop-list order. */
  function IdsWhere(stops: seq<Stop>, keep: Stop -> bool): (ids: seq<string>)
    ensures |ids| <= |stops|
  {
    if stops == [] then []
    else
      var last := stops[|stops| - 1];
      IdsWhere(stops[..|stops| - 1], keep) + (if keep(last) then [last.id] else [])
  }

  lemma {:induction false} IdsWhereSound(stops: seq<Stop>, keep: Stop -> bool, x: string)
    requires x in IdsWhere(stops, keep)
    ensures exists i :: 0 <= i < |stops| && stops[i].id == x && keep(stops[i])
  {
    var n := |stops| - 1;
    var prev := stops[..n];
    if x in IdsWhere(prev, keep) {
      IdsWhereSound(prev, keep, x);
      var i :| 0 <= i < n && prev[i].id == x && keep(prev[i]);
      assert stops[i] == prev[i];
    } else {
      assert stops[n].id == x && keep(stops[n]);
    }
  }

  lemma {:induction false} IdsWhereComplete(stops: seq<Stop>, keep: Stop -> bool, i: nat)
    requires i < |stops| && keep(stops[i])
    ensures stops[i].id in IdsWhere(stops, keep)
  {
    var n := |stops| - 1;
    if i < n {
      var prev := stops[..n];
      assert prev[i] == stops[i];
      IdsWhereComplete(prev, keep, i);
    }
  }

  lemma {:induction false} IdsWhereConcat(a: seq<Stop>, b: seq<Stop>, keep: Stop -> bool)
    ensures IdsWhere(a + b, keep) == IdsWhere(a, keep) + IdsWhere(b, keep)
    decreases |b|
  {
    if b == [] {
      assert a + b == a;
    } else {
      var n := |b| - 1;
      assert (a + b)[..|a + b| - 1] == a + b[..n];
      IdsWhereConcat(a, b[..n], keep);
    }
  }

  /** The stop test of query `q`, as a value. */
  function MatchesOf(q: string): Stop -> bool {
    st => Matches(st, q)
  }

  /** The ids `find_stop_ids_by_query(q)` returns: those of the matching stops, in stop-list order. */
  function MatchingIds(stops: seq<Stop>, q: string): seq<string> {
    IdsWhere(stops, MatchesOf(q))
  }

  /** An id is returned exactly when some stop with that id matches. */
  lemma MatchingIdsMembers(stops: seq<Stop>, q: string, x: string)
    ensures x in MatchingIds(stops, q) <==> exists i :: 0 <= i < |stops| && stops[i].id == x && Matches(stops[i], q)
  {
    if x in MatchingIds(stops, q) {
      IdsWhereSound(stops, MatchesOf(q), x);
    }
    if exists i :: 0 <= i < |stops| && stops[i].id == x && Matches(stops[i], q) {
      var i :| 0 <= i < |stops| && stops[i].id == x && Matches(stops[i], q);
      IdsWhereComplete(stops, MatchesOf(q), i);
    }
  }

  /** Order is kept: the matches of a concatenation are the matches of each part, in turn. */
  lemma MatchingIdsConcat(a: seq<Stop>, b: seq<Stop>, q: string)
    ensures MatchingIds(a + b, q) == MatchingIds(a, q) + MatchingIds(b, q)
  {
    IdsWhereConcat(a, b, MatchesOf(q));
  }

  /** One more stop adds its id exactly when it matches. */
  lemma MatchingIdsStep(stops: seq<Stop>, i: nat, q: string)
    requires i < |stops|
    ensures MatchingIds(stops[..i + 1], q) == MatchingIds(stops[..i], q) + (if Matches(stops[i], q) then [stops[i].id] else [])
  {
    assert stops[..i + 1][..i] == stops[..i];
  }

  /** A blank query matches no stop. */
  lemma BlankQueryMatchesNothing(stops: seq<Stop>, q: string)
    requires NormalizeName(q) == []
    ensures MatchingIds(stops, q) == []
  {
    if MatchingIds(stops, q) != [] {
      IdsWhereSound(stops, MatchesOf(q), MatchingIds(stops, q)[0]);
    }
  }

  // ---------------------------------------------------------------------------
  // The stop index and the graph
  // ---------------------------------------------------------------------------

  /** `{s["id"]: s for s in stops}`: a later stop with the same id replaces an earlier one. */
  function ById(stops: seq<Stop>): map<string, Stop> {
    if stops == [] then map[]
    else
      var last := stops[|stops| - 1];
      ById(stops[..|stops| - 1])[last.id := last]
  }

  /** The index holds exactly the listed ids, each mapped to the last stop carrying it. */
  lemma {:induction false} ByIdSpec(stops: seq<Stop>, k: string)
    ensures k in ById(stops) <==> exists i :: 0 <= i < |stops| && stops[i].id == k
    ensures k in ById(stops) ==>
      exists i :: 0 <= i < |stops| && stops[i] == ById(stops)[k] && stops[i].id == k
        && forall j :: i < j < |stops| ==> stops[j].id != k
  {
    if stops != [] {
      var n := |stops| - 1;
      var prev := stops[..n];
      ByIdSpec(prev, k);
      if stops[n].id != k {
        if k in ById(prev) {
          var i :| 0 <= i < n && prev[i] == ById(prev)[k] && prev[i].id == k
            && forall j :: i < j < n ==> prev[j].id != k;
          assert stops[i] == prev[i];
          assert forall j :: i < j < |stops| ==> stops[j].id != k by {
            forall j | i < j < |stops| ensures stops[j].id != k {
              if j < n {
                assert stops[j] == prev[j];
              }
            }
          }
        }
        if exists i :: 0 <= i < |stops| && stops[i].id == k {
          var i :| 0 <= i < |stops| && stops[i].id == k;
          assert prev[i] == stops[i];
        }
      }
    }
  }

  /** The segments leaving stop `k` in a graph; a stop with no entry has none (`graph.get(k, [])`). */
  function Outgoing(g: map<string, seq<Segment>>, k: string): seq<Segment> {
    if k in g then g[k] else []
  }

  /** The graph built in `init_data_once`: `graph.setdefault(seg["from_id"], []).append(seg)`. */
  function GraphOf(segs: seq<Segment>): map<string, seq<Segment>> {
    if segs == [] then map[]
    else
      var g := GraphOf(segs[..|segs| - 1]);
      var s := segs[|segs| - 1];
      g[s.fromId := Outgoing(g, s.fromId) + [s]]
  }

  /** Reference definition: the segments of `segs` that leave stop `k`, in order. */
  function Leaving(segs: seq<Segment>, k: string): (r: seq<Segment>)
    ensures forall s :: s in r ==> s in segs && s.fromId == k
  {
    if segs == [] then []
    else (if segs[0].fromId == k then [segs[0]] else []) + Leaving(segs[1..], k)
  }

  lemma {:induction false} LeavingSnoc(segs: seq<Segment>, s: Segment, k: string)
    ensures Leaving(segs + [s], k) == Leaving(segs, k) + (if s.fromId == k then [s] else [])
  {
    if segs == [] {
      assert [] + [s] == [s];
    } else {
      assert (segs + [s])[1..] == segs[1..] + [s];
      LeavingSnoc(segs[1..], s, k);
    }
  }

  /** Every segment leaving `k` is in the graph under `k`, in load order, and the keys are exactly the stops some segment leaves. */
  lemma {:induction false} GraphOfSpec(segs: seq<Segment>, k: string)
    ensures Outgoing(GraphOf(segs), k) == Leaving(segs, k)
    ensures k in GraphOf(segs) <==> Leaving(segs, k) != []
  {
    if segs != [] {
      var n := |segs| - 1;
      GraphOfSpec(segs[..n], k);
      assert segs == segs[..n] + [segs[n]];
      LeavingSnoc(segs[..n], segs[n], k);
    }
  }

  /** Every segment is filed under the stop it leaves. */
  ghost predicate Keyed(g: map<string, seq<Segment>>) {
    forall k, s :: k in g && s in g[k] ==> s.fromId == k
  }

  lemma GraphOfKeyed(segs: seq<Segment>)
    ensures Keyed(GraphOf(segs))
  {
    forall k, s | k in GraphOf(segs) && s in GraphOf(segs)[k] ensures s.fromId == k {
      GraphOfSpec(segs, k);
    }
  }

  // ---------------------------------------------------------------------------
  // The depth-first search
  // ---------------------------------------------------------------------------

  /** `visited` in `dfs`: every stop a leg of `path` leaves from or arrives at. */
  function Visited(path: seq<Segment>): set<string> {
    (set s | s in path :: s.fromId) + (set s | s in path :: s.toId)
  }

  /**
   * The paths `dfs(stop_id, path)` completes, in the order it completes them:
   * a non-empty path that reached a destination is complete; a path of
   * `MaxLegs` legs is abandoned; otherwise every outgoing segment to a stop
   * not yet visited is tried, in graph order.
   */
  function DfsPaths(g: map<string, seq<Segment>>, toIds: seq<string>, stopId: string, path: seq<Segment>): seq<seq<Segment>>
    requires |path| <= MaxLegs
    decreases MaxLegs - |path|, 1, 0
  {
    if stopId in toIds && |path| > 0 then [path]
    else if |path| >= MaxLegs then []
    else Expand(g, toIds, path, Outgoing(g, stopId))
  }

  /** The paths completed by the loop of `dfs` over the segments `segs`. */
  function Expand(g: map<string, seq<Segment>>, toIds: seq<string>, path: seq<Segment>, segs: seq<Segment>): seq<seq<Segment>>
    requires |path| < MaxLegs
    decreases MaxLegs - |path|, 0, |segs|
  {
    if segs == [] then []
    else
      var seg := segs[|segs| - 1];
      Expand(g, toIds, path, segs[..|segs| - 1])
        + (if seg.toId in Visited(path) then [] else DfsPaths(g, toIds, seg.toId, path + [seg]))
  }

  /**
   * A walk in the graph: each leg is filed under the stop it leaves, leaves
   * where the previous one arrived, and arrives at a stop not yet on the path.
   */
  ghost predicate Walk(g: map<string, seq<Segment>>, p: seq<Segment>) {
    && (forall i :: 0 <= i < |p| ==> p[i] in Outgoing(g, p[i].fromId))
    && (forall i :: 0 < i < |p| ==> p[i].fromId == p[i - 1].toId)
    && (forall i, j :: 0 <= j < i < |p| ==> p[i].toId != p[j].fromId && p[i].toId != p[j].toId)
  }

  /** No leg but possibly the last arrives at a destination. */
  ghost predicate NoEarlyArrival(toIds: seq<string>, p: seq<Segment>) {
    forall i :: 0 <= i < |p| - 1 ==> p[i].toId !in toIds
  }

  /**
   * A route the search may return, starting at `start`: one to `MaxLegs` legs
   * forming a walk from `start` whose last leg, and only that one, arrives at
   * a destination.
   */
  ghost predicate ValidRoute(g: map<string, seq<Segment>>, toIds: seq<string>, start: string, p: seq<Segment>) {
    && 1 <= |p| <= MaxLegs
    && p[0].fromId == start
    && Walk(g, p)
    && NoEarlyArrival(toIds, p)
    && p[|p| - 1].toId in toIds
  }

  /** The state of a pending `dfs(stop_id, path)` call started from `start`. */
  ghost predicate Partial(g: map<string, seq<Segment>>, toIds: seq<string>, start: string, stopId: string, path: seq<Segment>) {
    && |path| <= MaxLegs
    && (path == [] ==> stopId == start)
    && (path != [] ==> path[0].fromId == start && path[|path| - 1].toId == stopId)
    && Walk(g, path)
    && NoEarlyArrival(toIds, path)
  }

  /** A stop is visited exactly when some leg of the path leaves from or arrives at it. */
  lemma VisitedSpec(path: seq<Segment>, x: string)
    ensures x in Visited(path) <==> exists j :: 0 <= j < |path| && (path[j].fromId == x || path[j].toId == x)
  {
    if x in Visited(path) {
      if x in (set s | s in path :: s.fromId) {
        var s :| s in path && s.fromId == x;
        var j :| 0 <= j < |path| && path[j] == s;
      } else {
        var s :| s in path && s.toId == x;
        var j :| 0 <= j < |path| && path[j] == s;
      }
    }
    if exists j :: 0 <= j < |path| && (path[j].fromId == x || path[j].toId == x) {
      var j :| 0 <= j < |path| && (path[j].fromId == x || path[j].toId == x);
      assert path[j] in path;
    }
  }

  /** A stop the path has not visited is neither left from nor arrived at by any of its legs. */
  lemma NotVisited(path: seq<Segment>, x: string)
    requires x !in Visited(path)
    ensures forall j :: 0 <= j < |path| ==> path[j].fromId != x && path[j].toId != x
  {
    forall j | 0 <= j < |path| ensures path[j].fromId != x && path[j].toId != x {
      VisitedSpec(path, x);
    }
  }

  lemma WalkExtend(g: map<string, seq<Segment>>, path: seq<Segment>, seg: Segment)
    requires Walk(g, path)
    requires path != [] ==> seg.fromId == path[|path| - 1].toId
    requires seg in Outgoing(g, seg.fromId) && seg.toId !in Visited(path)
    ensures Walk(g, path + [seg])
  {
    NotVisited(path, seg.toId);
    ExtendLegs(g, path, seg);
    ExtendLinked(path, seg);
    ExtendFresh(path, seg);
  }

  /** The legs of `path + [seg]` are all graph segments. */
  lemma ExtendLegs(g: map<string, seq<Segment>>, path: seq<Segment>, seg: Segment)
    requires forall i :: 0 <= i < |path| ==> path[i] in Outgoing(g, path[i].fromId)
    requires seg in Outgoing(g, seg.fromId)
    ensures var p := path + [seg]; forall i :: 0 <= i < |p| ==> p[i] in Outgoing(g, p[i].fromId)
  {
    var p := path + [seg];
    forall i | 0 <= i < |p| ensures p[i] in Outgoing(g, p[i].fromId) {
      if i < |path| { assert p[i] == path[i]; }
    }
  }

  /** Each leg of `path + [seg]` leaves from where the one before it arrived. */
  lemma ExtendLinked(path: seq<Segment>, seg: Segment)
    requires forall i :: 0 < i < |path| ==> path[i].fromId == path[i - 1].toId
    requires path != [] ==> seg.fromId == path[|path| - 1].toId
    ensures var p := path + [seg]; forall i :: 0 < i < |p| ==> p[i].fromId == p[i - 1].toId
  {
    var p := path + [seg];
    forall i | 0 < i < |p| ensures p[i].fromId == p[i - 1].toId {
      assert p[i - 1] == path[i - 1];
      if i < |path| { assert p[i] == path[i]; }
    }
  }

  /** No leg of `path + [seg]` arrives at a stop an earlier leg touched. */
  lemma ExtendFresh(path: seq<Segment>, seg: Segment)
    requires forall i, j :: 0 <= j < i < |path| ==> path[i].toId != path[j].fromId && path[i].toId != path[j].toId
    requires forall j :: 0 <= j < |path| ==> path[j].fromId != seg.toId && path[j].toId != seg.toId
    ensures var p := path + [seg];
      forall i, j :: 0 <= j < i < |p| ==> p[i].toId != p[j].fromId && p[i].toId != p[j].toId
  {
    var p := path + [seg];
    forall i, j | 0 <= j < i < |p| ensures p[i].toId != p[j].fromId && p[i].toId != p[j].toId {
      assert p[j] == path[j];
      if i < |path| { assert p[i] == path[i]; } else { assert p[i] == seg; }
    }
  }

  lemma PartialExtend(g: map<string, seq<Segment>>, toIds: seq<string>, start: string, stopId: string, path: seq<Segment>, seg: Segment)
    requires Partial(g, toIds, start, stopId, path)
    requires |path| < MaxLegs
    requires !(stopId in toIds && |path| > 0)
    requires seg in Outgoing(g, stopId) && seg.fromId == stopId
    requires seg.toId !in Visited(path)
    ensures Partial(g, toIds, start, seg.toId, path + [seg])
  {
    WalkExtend(g, path, seg);
    var p := path + [seg];
    forall i | 0 <= i < |p| - 1 ensures p[i].toId !in toIds {
      assert p[i] == path[i];
    }
  }

  /** Soundness: every path the search completes is a valid route extending the current path. */
  lemma {:induction false} DfsSound(g: map<string, seq<Segment>>, toIds: seq<string>, start: string, stopId: string, path: seq<Segment>, x: seq<Segment>)
    requires Keyed(g)
    requires Partial(g, toIds, start, stopId, path)
    requires x in DfsPaths(g, toIds, stopId, path)
    ensures ValidRoute(g, toIds, start, x) && path <= x
    decreases MaxLegs - |path|, 1, 0
  {
    if stopId in toIds && |path| > 0 {
    } else if |path| >= MaxLegs {
    } else {
      ExpandSound(g, toIds, start, stopId, path, Outgoing(g, stopId), x);
    }
  }

  lemma {:induction false} ExpandSound(g: map<string, seq<Segment>>, toIds: seq<string>, start: string, stopId: string, path: seq<Segment>, segs: seq<Segment>, x: seq<Segment>)
    requires Keyed(g)
    requires Partial(g, toIds, start, stopId, path)
    requires |path| < MaxLegs && !(stopId in toIds && |path| > 0)
    requires forall s :: s in segs ==> s in Outgoing(g, stopId)
    requires x in Expand(g, toIds, path, segs)
    ensures ValidRoute(g, toIds, start, x) && path <= x
    decreases MaxLegs - |path|, 0, |segs|
  {
    var n := |segs| - 1;
    var seg := segs[n];
    if x in Expand(g, toIds, path, segs[..n]) {
      ExpandSound(g, toIds, start, stopId, path, segs[..n], x);
    } else {
      assert seg in Outgoing(g, stopId);
      assert seg.fromId == stopId;
      PartialExtend(g, toIds, start, stopId, path, seg);
      DfsSound(g, toIds, start, seg.toId, path + [seg], x);
      assert path <= path + [seg];
    }
  }

  /** A path made of the segment `seg` after `path` contains what `seg` leads to. */
  lemma {:induction false} ExpandContains(g: map<string, seq<Segment>>, toIds: seq<string>, path: seq<Segment>, segs: seq<Segment>, seg: Segment, x: seq<Segment>)
    requires |path| < MaxLegs
    requires seg in segs && seg.toId !in Visited(path)
    requires x in DfsPaths(g, toIds, seg.toId, path + [seg])
    ensures x in Expand(g, toIds, path, segs)
  {
    var n := |segs| - 1;
    if segs[n] != seg {
      assert seg in segs[..n];
      ExpandContains(g, toIds, path, segs[..n], seg, x);
    }
  }

  /** `Expand` over one more segment adds what that segment leads to. */
  lemma ExpandStep(g: map<string, seq<Segment>>, toIds: seq<string>, path: seq<Segment>, segs: seq<Segment>, i: nat)
    requires |path| < MaxLegs && i < |segs|
    ensures Expand(g, toIds, path, segs[..i + 1]) == Expand(g, toIds, path, segs[..i])
      + (if segs[i].toId in Visited(path) then [] else DfsPaths(g, toIds, segs[i].toId, path + [segs[i]]))
  {
    assert segs[..i + 1][..i] == segs[..i];
  }

  /** Completeness, by induction on how much of the route is still to be walked. */
  lemma {:induction false} DfsCompleteFrom(g: map<string, seq<Segment>>, toIds: seq<string>, start: string, p: seq<Segment>, m: nat)
    requires ValidRoute(g, toIds, start, p)
    requires m <= |p|
    ensures p in DfsPaths(g, toIds, if m == 0 then start else p[m - 1].toId, p[..m])
    decreases |p| - m
  {
    if m == |p| {
      assert p[..m] == p;
    } else {
      DfsCompleteFrom(g, toIds, start, p, m + 1);
      RouteStep(g, toIds, start, p, m);
      DfsCompleteStep(g, toIds, if m == 0 then start else p[m - 1].toId, p, m);
    }
  }

  /** One step of `DfsCompleteFrom`: from completing after the `m`-th leg to completing before it. */
  lemma DfsCompleteStep(g: map<string, seq<Segment>>, toIds: seq<string>, stopId: string, p: seq<Segment>, m: nat)
    requires m < |p| && m < MaxLegs && !(stopId in toIds && m > 0)
    requires p[m] in Outgoing(g, stopId) && p[m].toId !in Visited(p[..m])
    requires p in DfsPaths(g, toIds, p[m].toId, p[..m + 1])
    ensures p in DfsPaths(g, toIds, stopId, p[..m])
  {
    assert p[..m + 1] == p[..m] + [p[m]];
    DfsStepBack(g, toIds, stopId, p[..m], p[m], p);
  }

  /** What `dfs` completes after taking the leg `seg` it tries from `stopId`, it completes from `stopId`. */
  lemma DfsStepBack(g: map<string, seq<Segment>>, toIds: seq<string>, stopId: string, path: seq<Segment>, seg: Segment, x: seq<Segment>)
    requires |path| < MaxLegs && !(stopId in toIds && |path| > 0)
    requires seg in Outgoing(g, stopId) && seg.toId !in Visited(path)
    requires x in DfsPaths(g, toIds, seg.toId, path + [seg])
    ensures x in DfsPaths(g, toIds, stopId, path)
  {
    ExpandContains(g, toIds, path, Outgoing(g, stopId), seg, x);
  }

  /** Before its `m`-th leg a valid route is still being expanded, and that leg is one `dfs` tries. */
  lemma RouteStep(g: map<string, seq<Segment>>, toIds: seq<string>, start: string, p: seq<Segment>, m: nat)
    requires ValidRoute(g, toIds, start, p)
    requires m < |p|
    ensures var stopId := if m == 0 then start else p[m - 1].toId;
      && !(stopId in toIds && m > 0)
      && p[m] in Outgoing(g, stopId)
      && p[m].toId !in Visited(p[..m])
  {
    var stopId := if m == 0 then start else p[m - 1].toId;
    assert p[m].fromId == stopId;
    forall j | 0 <= j < m ensures p[..m][j].fromId != p[m].toId && p[..m][j].toId != p[m].toId {
      assert p[..m][j] == p[j];
    }
    VisitedSpec(p[..m], p[m].toId);
  }

  /** The routes `dfs(start, [])` finds are exactly the valid routes from `start`. */
  lemma DfsExact(g: map<string, seq<Segment>>, toIds: seq<string>, start: string, x: seq<Segment>)
    requires Keyed(g)
    ensures x in DfsPaths(g, toIds, start, []) <==> ValidRoute(g, toIds, start, x)
  {
    if x in DfsPaths(g, toIds, start, []) {
      DfsSound(g, toIds, start, start, [], x);
    }
    if ValidRoute(g, toIds, start, x) {
      DfsCompleteFrom(g, toIds, start, x, 0);
    }
  }

  /** `AllPaths` over one more start adds that start's search. */
  lemma AllPathsStep(g: map<string, seq<Segment>>, toIds: seq<string>, fromIds: seq<string>, i: nat)
    requires i < |fromIds|
    ensures AllPaths(g, toIds, fromIds[..i + 1]) == AllPaths(g, toIds, fromIds[..i]) + DfsPaths(g, toIds, fromIds[i], [])
  {
    assert fromIds[..i + 1][..i] == fromIds[..i];
  }

  /** The paths of the searches from every start, one after the other. */
  function AllPaths(g: map<string, seq<Segment>>, toIds: seq<string>, fromIds: seq<string>): seq<seq<Segment>> {
    if fromIds == [] then []
    else AllPaths(g, toIds, fromIds[..|fromIds| - 1]) + DfsPaths(g, toIds, fromIds[|fromIds| - 1], [])
  }

  lemma {:induction false} AllPathsSound(g: map<string, seq<Segment>>, toIds: seq<string>, fromIds: seq<string>, x: seq<Segment>)
    requires Keyed(g)
    requires x in AllPaths(g, toIds, fromIds)
    ensures exists i :: 0 <= i < |fromIds| && ValidRoute(g, toIds, fromIds[i], x)
  {
    var n := |fromIds| - 1;
    var prev := fromIds[..n];
    if x in AllPaths(g, toIds, prev) {
      AllPathsSound(g, toIds, prev, x);
      var i :| 0 <= i < n && ValidRoute(g, toIds, prev[i], x);
      assert fromIds[i] == prev[i];
    } else {
      DfsExact(g, toIds, fromIds[n], x);
      assert ValidRoute(g, toIds, fromIds[n], x);
    }
  }

  lemma {:induction false} AllPathsComplete(g: map<string, seq<Segment>>, toIds: seq<string>, fromIds: seq<string>, i: nat, x: seq<Segment>)
    requires Keyed(g)
    requires i < |fromIds| && ValidRoute(g, toIds, fromIds[i], x)
    ensures x in AllPaths(g, toIds, fromIds)
  {
    var n := |fromIds| - 1;
    if i < n {
      var prev := fromIds[..n];
      assert prev[i] == fromIds[i];
      AllPathsComplete(g, toIds, prev, i, x);
    } else {
      DfsExact(g, toIds, fromIds[n], x);
    }
  }

  /** The search finds exactly the valid routes from any of the starts. */
  lemma AllPathsExact(g: map<string, seq<Segment>>, toIds: seq<string>, fromIds: seq<string>, x: seq<Segment>)
    requires Keyed(g)
    ensures x in AllPaths(g, toIds, fromIds) <==> exists i :: 0 <= i < |fromIds| && ValidRoute(g, toIds, fromIds[i], x)
  {
    if x in AllPaths(g, toIds, fromIds) {
      AllPathsSound(g, toIds, fromIds, x);
    }
    if exists i :: 0 <= i < |fromIds| && ValidRoute(g, toIds, fromIds[i], x) {
      var i :| 0 <= i < |fromIds| && ValidRoute(g, toIds, fromIds[i], x);
      AllPathsComplete(g, toIds, fromIds, i, x);
    }
  }

  // ---------------------------------------------------------------------------
  // Built itineraries
  // ---------------------------------------------------------------------------

  /** Each leg of `r` shows the names `build_route` looks up: the stop list's, else the segment's, else the id. */
  ghost predicate NamedLegs(stopsById: map<string, Stop>, r: Itinerary) {
    forall i :: 0 <= i < |r.legs| ==>
      && r.legs[i].fromName == StopName(stopsById, r.legs[i].seg.fromId, r.legs[i].seg.fromName)
      && r.legs[i].toName == StopName(stopsById, r.legs[i].seg.toId, r.legs[i].seg.toName)
  }

  /** `rs` are the unlabelled itineraries `build_route` makes of the paths `ps`, one for one. */
  ghost predicate BuiltFrom(stopsById: map<string, Stop>, rs: seq<Itinerary>, ps: seq<seq<Segment>>) {
    && |rs| == |ps|
    && forall i :: 0 <= i < |rs| ==> BuiltOne(stopsById, rs[i], ps[i])
  }

  /** `r` is the unlabelled itinerary `build_route` makes of the path `p`. */
  ghost predicate BuiltOne(stopsById: map<string, Stop>, r: Itinerary, p: seq<Segment>) {
    PathOf(r) == p && WellBuilt(r) && NamedLegs(stopsById, r) && r.recommended == NoLabel
  }

  /** Routes built from two lists of paths, one after the other, are built from the joined list. */
  lemma BuiltFromConcat(stopsById: map<string, Stop>, rs: seq<Itinerary>, ps: seq<seq<Segment>>, rs2: seq<Itinerary>, ps2: seq<seq<Segment>>)
    requires BuiltFrom(stopsById, rs, ps) && BuiltFrom(stopsById, rs2, ps2)
    ensures BuiltFrom(stopsById, rs + rs2, ps + ps2)
  {
    forall i | 0 <= i < |rs + rs2| ensures BuiltOne(stopsById, (rs + rs2)[i], (ps + ps2)[i]) {
      if i < |rs| {
        assert (rs + rs2)[i] == rs[i] && (ps + ps2)[i] == ps[i];
      } else {
        assert (rs + rs2)[i] == rs2[i - |rs|] && (ps + ps2)[i] == ps2[i - |rs|];
      }
    }
  }

  /** A found route with another label is still a valid, well-built route from one of the starts. */
  /** `build_route` is deterministic: two routes built from the same path are equal. */
  lemma BuiltOneUnique(stopsById: map<string, Stop>, r: Itinerary, r2: Itinerary, p: seq<Segment>)
    requires BuiltOne(stopsById, r, p) && BuiltOne(stopsById, r2, p)
    ensures r == r2
  {
    forall i | 0 <= i < |p| ensures r.legs[i] == r2.legs[i] {
      LegsAgree(stopsById, r, r2, p, i);
    }
    assert r.legs == r2.legs;
  }

  /** The `i`-th legs of two routes built from one path agree. */
  lemma {:induction false} LegsAgree(stopsById: map<string, Stop>, r: Itinerary, r2: Itinerary, p: seq<Segment>, i: nat)
    requires BuiltOne(stopsById, r, p) && BuiltOne(stopsById, r2, p)
    requires i < |p|
    ensures r.legs[i] == r2.legs[i]
  {
    assert r.legs[i].seg == PathOf(r)[i] == PathOf(r2)[i] == r2.legs[i].seg;
    if i > 0 {
      LegsAgree(stopsById, r, r2, p, i - 1);
    }
  }

  /** The routes built from a list of paths are determined by the paths. */
  lemma BuiltFromUnique(stopsById: map<string, Stop>, rs: seq<Itinerary>, rs2: seq<Itinerary>, ps: seq<seq<Segment>>)
    requires BuiltFrom(stopsById, rs, ps) && BuiltFrom(stopsById, rs2, ps)
    ensures rs == rs2
  {
    forall i | 0 <= i < |rs| ensures rs[i] == rs2[i] {
      BuiltOneUnique(stopsById, rs[i], rs2[i], ps[i]);
    }
  }

  /** Some route of `rs` travels the legs of `p` with the same carriers. */
  ghost predicate Represented(rs: seq<Itinerary>, p: seq<Segment>) {
    exists r :: r in rs && Signature(r) == PathSignature(p)
  }

  /** Every valid route between the stops is represented in the selection by a route with its signature. */
  lemma SelectedComplete(stopsById: map<string, Stop>, g: map<string, seq<Segment>>, fromIds: seq<string>, toIds: seq<string>,
                         routes: seq<Itinerary>, i: nat, p: seq<Segment>)
    requires Keyed(g)
    requires BuiltFrom(stopsById, routes, AllPaths(g, toIds, fromIds))
    requires i < |fromIds| && ValidRoute(g, toIds, fromIds[i], p)
    ensures Represented(Selected(routes), p)
  {
    var paths := AllPaths(g, toIds, fromIds);
    AllPathsExact(g, toIds, fromIds, p);
    var j :| 0 <= j < |paths| && paths[j] == p;
    assert BuiltOne(stopsById, routes[j], p);
    assert Signature(routes[j]) == PathSignature(p);
    SelectedPerSignature(routes, PathSignature(p));
  }

  /** `SelectedComplete` for every start and every valid route from it. */
  lemma SelectionComplete(stopsById: map<string, Stop>, g: map<string, seq<Segment>>, fromIds: seq<string>, toIds: seq<string>,
                          routes: seq<Itinerary>)
    requires Keyed(g)
    requires BuiltFrom(stopsById, routes, AllPaths(g, toIds, fromIds))
    ensures forall i, p :: 0 <= i < |fromIds| && ValidRoute(g, toIds, fromIds[i], p) ==> Represented(Selected(routes), p)
  {
    forall i, p | 0 <= i < |fromIds| && ValidRoute(g, toIds, fromIds[i], p)
      ensures Represented(Selected(routes), p)
    {
      SelectedComplete(stopsById, g, fromIds, toIds, routes, i, p);
    }
  }

  /** Without a start or a destination there is no valid route. */
  lemma NoRouteWithoutEnds(g: map<string, seq<Segment>>, toIds: seq<string>, fromIds: seq<string>)
    requires fromIds == [] || toIds == []
    ensures forall i, p :: 0 <= i < |fromIds| ==> !ValidRoute(g, toIds, fromIds[i], p)
  {
  }

  lemma RelabelledFound(stopsById: map<string, Stop>, g: map<string, seq<Segment>>, fromIds: seq<string>, toIds: seq<string>,
                        routes: seq<Itinerary>, result: seq<Itinerary>)
    requires Keyed(g)
    requires BuiltFrom(stopsById, routes, AllPaths(g, toIds, fromIds))
    requires forall r :: r in result ==> exists j :: 0 <= j < |routes| && r == routes[j].(recommended := r.recommended)
    ensures forall r :: r in result ==>
      && WellBuilt(r) && NamedLegs(stopsById, r)
      && exists i :: 0 <= i < |fromIds| && ValidRoute(g, toIds, fromIds[i], PathOf(r))
  {
    forall r | r in result
      ensures WellBuilt(r) && NamedLegs(stopsById, r)
      ensures exists i :: 0 <= i < |fromIds| && ValidRoute(g, toIds, fromIds[i], PathOf(r))
    {
      var j :| 0 <= j < |routes| && r == routes[j].(recommended := r.recommended);
      RelabelledOne(stopsById, g, fromIds, toIds, routes, j, r.recommended);
    }
  }

  lemma RelabelledOne(stopsById: map<string, Stop>, g: map<string, seq<Segment>>, fromIds: seq<string>, toIds: seq<string>,
                      routes: seq<Itinerary>, j: nat, l: Label)
    requires Keyed(g)
    requires BuiltFrom(stopsById, routes, AllPaths(g, toIds, fromIds))
    requires j < |routes|
    ensures var r := routes[j].(recommended := l);
      && WellBuilt(r) && NamedLegs(stopsById, r)
      && exists i :: 0 <= i < |fromIds| && ValidRoute(g, toIds, fromIds[i], PathOf(r))
  {
    var paths := AllPaths(g, toIds, fromIds);
    var r0 := routes[j];
    var r := r0.(recommended := l);
    assert r.legs == r0.legs && r.id == r0.id && r.totalPrice == r0.totalPrice;
    assert PathOf(r) == PathOf(r0) == paths[j];
    assert WellBuilt(r0) && NamedLegs(stopsById, r0);
    AllPathsExact(g, toIds, fromIds, paths[j]);
  }

  /**
   * `legs` are the first legs `build_route` lays out for `path`: the same
   * segments and names, the first leaving at its schedule time, each later one
   * `MinTransfer` after the previous arrival, arriving after its duration
   * (a single-leg route at its schedule arrival when that is later).
   */
  ghost predicate LaidOut(stopsById: map<string, Stop>, path: seq<Segment>, legs: seq<Leg>) {
    && |legs| <= |path|
    && (forall j :: 0 <= j < |legs| ==>
          && legs[j].seg == path[j]
          && legs[j].fromName == StopName(stopsById, path[j].fromId, path[j].fromName)
          && legs[j].toName == StopName(stopsById, path[j].toId, path[j].toName))
    && (forall j :: 0 < j < |legs| ==> legs[j].departure == legs[j - 1].arrival + MinTransfer)
    && (|legs| > 0 ==> legs[0].departure == FirstDeparture(path[0]))
    && (|path| == 1 && |legs| == 1 ==> legs[0].arrival == SingleLegArrival(path[0], legs[0].departure))
    && (|path| != 1 ==> forall j :: 0 <= j < |legs| ==> legs[j].arrival == legs[j].departure + path[j].duration)
  }

  lemma LaidOutStep(stopsById: map<string, Stop>, path: seq<Segment>, legs: seq<Leg>, dep: int, arr: int)
    requires LaidOut(stopsById, path, legs) && |legs| < |path|
    requires dep == if |legs| == 0 then FirstDeparture(path[0]) else legs[|legs| - 1].arrival + MinTransfer
    requires arr == if |legs| == 0 && |path| == 1 then SingleLegArrival(path[0], dep) else dep + path[|legs|].duration
    ensures
      var s := path[|legs|];
      LaidOut(stopsById, path, legs + [Leg(s, StopName(stopsById, s.fromId, s.fromName), StopName(stopsById, s.toId, s.toName), dep, arr)])
  {
  }

  /** The variables of `build_route` after its first `i` legs. */
  ghost predicate Building(stopsById: map<string, Stop>, path: seq<Segment>, i: nat, legs: seq<Leg>,
                           nextStart: int, firstDep: Option<int>, lastArr: Option<int>, riskProd: real) {
    && i <= |path|
    && |legs| == i && LaidOut(stopsById, path, legs)
    && (i > 0 ==> nextStart == legs[i - 1].arrival + MinTransfer)
    && firstDep == (if i == 0 then None else Some(legs[0].departure))
    && lastArr == (if i == 0 then None else Some(legs[i - 1].arrival))
    && riskProd == RiskProduct(path[..i])
  }

  /** One turn of the loop of `build_route`: from the variables before it (`legs` …
    * `riskProd`) to those after it (`legs2` … `riskProd2`). */
  lemma BuildingStep(stopsById: map<string, Stop>, path: seq<Segment>, i: nat, legs: seq<Leg>,
                     nextStart: int, firstDep: Option<int>, lastArr: Option<int>, riskProd: real,
                     dep: int, arr: int, legs2: seq<Leg>,
                     nextStart2: int, firstDep2: Option<int>, lastArr2: Option<int>, riskProd2: real)
    requires Building(stopsById, path, i, legs, nextStart, firstDep, lastArr, riskProd) && i < |path|
    requires dep == if i == 0 then FirstDeparture(path[i]) else nextStart
    requires arr == if i == 0 && |path| == 1 then SingleLegArrival(path[i], dep) else dep + path[i].duration
    requires legs2 == legs + [Leg(path[i], StopName(stopsById, path[i].fromId, path[i].fromName),
                                   StopName(stopsById, path[i].toId, path[i].toName), dep, arr)]
    requires nextStart2 == arr + MinTransfer && lastArr2 == Some(arr) && riskProd2 == RiskProduct(path[..i + 1])
    requires firstDep2 == if firstDep.None? then Some(dep) else firstDep
    ensures Building(stopsById, path, i + 1, legs2, nextStart2, firstDep2, lastArr2, riskProd2)
  {
    LaidOutStep(stopsById, path, legs, dep, arr);
  }

  /** `total_hours`: from the first departure to the last arrival when both are set, else the sum of the durations. */
  function SpanOrSum(firstDep: Option<int>, lastArr: Option<int>, path: seq<Segment>): int {
    if firstDep.Some? && lastArr.Some? then lastArr.value - firstDep.value else SumDurations(path)
  }

  /** `risk_prod *= (1 - delay_risk)` for the `i`-th leg: the running product grows by one factor. */
  method ApplyRisk(p: real, path: seq<Segment>, i: nat) returns (q: real)
    requires i < |path| && p == RiskProduct(path[..i])
    ensures q == RiskProduct(path[..i + 1])
  {
    RiskProductPrefix(path, i);
    q := p * (1.0 - path[i].delayRisk);
  }

  /** After the last leg, the variables of `build_route` make the route `build_route` promises. */
  lemma BuildingDone(stopsById: map<string, Stop>, path: seq<Segment>, legs: seq<Leg>,
                     firstDep: Option<int>, lastArr: Option<int>, riskProd: real)
    requires |legs| == |path| && LaidOut(stopsById, path, legs)
    requires firstDep == (if |path| == 0 then None else Some(legs[0].departure))
    requires lastArr == (if |path| == 0 then None else Some(legs[|path| - 1].arrival))
    requires riskProd == RiskProduct(path[..|path|])
    ensures
      BuiltOne(stopsById, Itinerary(RouteId(path), legs, TotalPrice(path), SpanOrSum(firstDep, lastArr, path), 1.0 - riskProd, NoLabel), path)
  {
    var minutes := SpanOrSum(firstDep, lastArr, path);
    var r := Itinerary(RouteId(path), legs, TotalPrice(path), minutes, 1.0 - riskProd, NoLabel);
    LaidOutPath(stopsById, path, r);
    assert path[..|path|] == path;
    SpanOrSumDone(path, legs, firstDep, lastArr);
    LaidOutTimed(stopsById, path, legs);
    LaidOutNamed(stopsById, path, r);
  }

  /** After the loop, `total_hours` is the span from the first departure to the last arrival, or the sum of the durations of an empty path. */
  lemma SpanOrSumDone(path: seq<Segment>, legs: seq<Leg>, firstDep: Option<int>, lastArr: Option<int>)
    requires |legs| == |path|
    requires firstDep == (if |path| == 0 then None else Some(legs[0].departure))
    requires lastArr == (if |path| == 0 then None else Some(legs[|path| - 1].arrival))
    ensures SpanOrSum(firstDep, lastArr, path) == if path == [] then SumDurations(path) else legs[|path| - 1].arrival - legs[0].departure
  {
  }

  /** Legs laid out over the whole path are built from exactly that path. */
  lemma LaidOutPath(stopsById: map<string, Stop>, path: seq<Segment>, r: Itinerary)
    requires LaidOut(stopsById, path, r.legs) && |r.legs| == |path|
    ensures PathOf(r) == path
  {
  }

  /** Laid-out legs keep the timing rule. */
  lemma LaidOutTimed(stopsById: map<string, Stop>, path: seq<Segment>, legs: seq<Leg>)
    requires LaidOut(stopsById, path, legs) && |legs| == |path|
    ensures TimedLegs(legs)
  {
  }

  /** Laid-out legs show the names `build_route` looks up. */
  lemma LaidOutNamed(stopsById: map<string, Stop>, path: seq<Segment>, r: Itinerary)
    requires LaidOut(stopsById, path, r.legs)
    ensures NamedLegs(stopsById, r)
  {
  }

  /** The risk product over one more leg of the path. */
  lemma RiskProductPrefix(path: seq<Segment>, i: nat)
    requires i < |path|
    ensures RiskProduct(path[..i + 1]) == RiskProduct(path[..i]) * (1.0 - path[i].delayRisk)
  {
    assert path[..i + 1][..i] == path[..i];
  }

  /**
   * The module state of backend/main.py: the stop list, its index by id, the
   * segment list and the graph of segments by the stop they leave.
   */
  class SearchIndex {
    var stops: seq<Stop>
    var stopsById: map<string, Stop>
    var segments: seq<Segment>
    var graph: map<string, seq<Segment>>

    /** The index and the graph are those of the current stop and segment lists. */
    ghost predicate Valid()
      reads this
    {
      stopsById == ById(stops) && graph == GraphOf(segments)
    }

    /** The empty state before start-up. */
    constructor ()
      ensures Valid() && stops == [] && segments == []
    {
      stops := [];
      stopsById := map[];
      segments := [];
      graph := map[];
    }

    /**
     * The rebinding of the globals in `init_data_once` once the stop and
     * segment lists are assembled: `stops_by_id` from the stop list, then the
     * graph, one `setdefault(...).append(seg)` per segment.
     */
    method Load(allStops: seq<Stop>, allSegments: seq<Segment>)
      modifies this
      ensures Valid()
      ensures stops == allStops && segments == allSegments
    {
      stops := allStops;
      stopsById := ById(allStops);
      segments := allSegments;
      graph := map[];
      for i := 0 to |allSegments|
        invariant stops == allStops && stopsById == ById(allStops) && segments == allSegments
        invariant graph == GraphOf(allSegments[..i])
      {
        var seg := allSegments[i];
        assert allSegments[..i + 1][..i] == allSegments[..i];
        graph := graph[seg.fromId := Outgoing(graph, seg.fromId) + [seg]];
      }
      assert allSegments[..|allSegments|] == allSegments;
    }

    /** `find_stop_ids_by_query`: the ids of the stops matching `q`, in stop-list order. */
    method FindStopIds(q: string) returns (ids: seq<string>)
      ensures ids == MatchingIds(stops, q)
    {
      var qn := NormalizeName(q);
      ids := [];
      for i := 0 to |stops|
        invariant ids == IdsWhere(stops[..i], MatchesOf(q))
      {
        var st := stops[i];
        var nameNorm := NormalizeName(st.name.GetOr(""));
        var cityNorm := NormalizeName(st.city.GetOr(""));
        MatchingIdsStep(stops, i, q);
        if qn != [] && (Text.Contains(nameNorm, qn) || Text.Contains(cityNorm, qn)) {
          ids := ids + [st.id];
        }
      }
      assert stops[..|stops|] == stops;
    }

    /**
     * `build_route`: lays the path out on the base date. The first leg leaves
     * at its schedule time (else 07:00), every later leg `MinTransfer` after
     * the previous arrival; totals, risk and id follow the path.
     */
    method BuildRoute(path: seq<Segment>) returns (r: Itinerary)
      ensures BuiltOne(stopsById, r, path)
    {
      var n := |path|;
      var riskProd := 1.0;
      var legs: seq<Leg> := [];
      var nextStart := 0;
      var firstDep: Option<int> := None;
      var lastArr: Option<int> := None;
      for i := 0 to n
        invariant Building(stopsById, path, i, legs, nextStart, firstDep, lastArr, riskProd)
      {
        ghost var legs0, nextStart0, firstDep0, lastArr0, riskProd0 := legs, nextStart, firstDep, lastArr, riskProd;
        var s := path[i];
        var dep := if i == 0 then FirstDeparture(s) else nextStart;
        var arr := if i == 0 && n == 1 then SingleLegArrival(s, dep) else dep + s.duration;
        nextStart := arr + MinTransfer;
        if firstDep.None? {
          firstDep := Some(dep);
        }
        lastArr := Some(arr);
        var fromName := StopName(stopsById, s.fromId, s.fromName);
        var toName := StopName(stopsById, s.toId, s.toName);
        legs := legs + [Leg(s, fromName, toName, dep, arr)];
        riskProd := ApplyRisk(riskProd, path, i);
        BuildingStep(stopsById, path, i, legs0, nextStart0, firstDep0, lastArr0, riskProd0,
                     dep, arr, legs, nextStart, firstDep, lastArr, riskProd);
      }
      var totalMinutes := SpanOrSum(firstDep, lastArr, path);
      BuildingDone(stopsById, path, legs, firstDep, lastArr, riskProd);
      r := Itinerary(RouteId(path), legs, TotalPrice(path), totalMinutes, 1.0 - riskProd, NoLabel);
    }

    /**
     * The inner `dfs` of `search_routes`: the itineraries built from the paths
     * it completes, in order (the closure's appends to `routes`).
     */
    method Dfs(toIds: seq<string>, stopId: string, path: seq<Segment>) returns (found: seq<Itinerary>)
      requires |path| <= MaxLegs
      ensures BuiltFrom(stopsById, found, DfsPaths(graph, toIds, stopId, path))
      decreases MaxLegs - |path|
    {
      if stopId in toIds && |path| > 0 {
        var r := BuildRoute(path);
        return [r];
      }
      if |path| >= MaxLegs {
        return [];
      }
      var out := Outgoing(graph, stopId);
      found := [];
      for i := 0 to |out|
        invariant BuiltFrom(stopsById, found, Expand(graph, toIds, path, out[..i]))
      {
        var seg := out[i];
        ExpandStep(graph, toIds, path, out, i);
        if seg.toId !in Visited(path) {
          var more := Dfs(toIds, seg.toId, path + [seg]);
          BuiltFromConcat(stopsById, found, Expand(graph, toIds, path, out[..i]), more, DfsPaths(graph, toIds, seg.toId, path + [seg]));
          found := found + more;
        } else {
          assert Expand(graph, toIds, path, out[..i + 1]) == Expand(graph, toIds, path, out[..i]);
        }
      }
      assert out[..|out|] == out;
    }

    /**
     * `search_routes`: the depth-first search from every start, then grouping
     * and deduplication, labelling and the final sort. Every route returned
     * is a valid route from one of the starts, built by `build_route`; the
     * result is empty exactly when no such route exists; the labels name a
     * least route by their measure; and the order is that of `sort_key`.
     */
    method SearchRoutes(fromIds: seq<string>, toIds: seq<string>) returns (result: seq<Itinerary>)
      requires Valid()
      ensures result == [] <==> AllPaths(graph, toIds, fromIds) == []
      ensures forall r :: r in result ==>
        && WellBuilt(r) && NamedLegs(stopsById, r)
        && exists i :: 0 <= i < |fromIds| && ValidRoute(graph, toIds, fromIds[i], PathOf(r))
      ensures result != [] ==> result[0].recommended == Fastest && CountLabel(result, Fastest) == 1
      ensures CountLabel(result, Cheapest) <= 1 && CountLabel(result, Reliable) <= 1
      ensures forall r, r' | r in result && r' in result ::
        && (r.recommended == Fastest ==> r.totalMinutes <= r'.totalMinutes)
        && (r.recommended == Cheapest ==> r.totalPrice <= r'.totalPrice)
        && (r.recommended == Reliable ==> r.totalRisk <= r'.totalRisk)
      ensures SortedByKey(result)
      ensures exists routes :: BuiltFrom(stopsById, routes, AllPaths(graph, toIds, fromIds)) && result == Selected(routes)
      ensures forall i, p :: 0 <= i < |fromIds| && ValidRoute(graph, toIds, fromIds[i], p) ==> Represented(result, p)
    {
      var routes := SearchAll(fromIds, toIds);
      result := SelectRoutes(routes);
      GraphOfKeyed(segments);
      RelabelledFound(stopsById, graph, fromIds, toIds, routes, result);
      SelectionComplete(stopsById, graph, fromIds, toIds, routes);
    }

    /** The loop `for s in from_ids: dfs(s, [])`: the routes found from each start, in turn. */
    method SearchAll(fromIds: seq<string>, toIds: seq<string>) returns (routes: seq<Itinerary>)
      ensures BuiltFrom(stopsById, routes, AllPaths(graph, toIds, fromIds))
    {
      routes := [];
      for i := 0 to |fromIds|
        invariant BuiltFrom(stopsById, routes, AllPaths(graph, toIds, fromIds[..i]))
      {
        AllPathsStep(graph, toIds, fromIds, i);
        var found := Dfs(toIds, fromIds[i], []);
        BuiltFromConcat(stopsById, routes, AllPaths(graph, toIds, fromIds[..i]), found, DfsPaths(graph, toIds, fromIds[i], []));
        routes := routes + found;
      }
      assert fromIds[..|fromIds|] == fromIds;
    }

    /**
     * The `/api/routes` endpoint: the stops matching each query, and no routes
     * when either side matches none; otherwise the search between them.
     */
    method ApiRoutes(frm: string, to: string) returns (result: seq<Itinerary>)
      requires Valid()
      ensures MatchingIds(stops, frm) == [] || MatchingIds(stops, to) == [] ==> result == []
      ensures forall r :: r in result ==>
        exists i :: 0 <= i < |MatchingIds(stops, frm)|
          && ValidRoute(graph, MatchingIds(stops, to), MatchingIds(stops, frm)[i], PathOf(r))
      ensures result != [] ==> result[0].recommended == Fastest && CountLabel(result, Fastest) == 1
      ensures CountLabel(result, Cheapest) <= 1 && CountLabel(result, Reliable) <= 1
      ensures forall r, r' | r in result && r' in result ::
        && (r.recommended == Fastest ==> r.totalMinutes <= r'.totalMinutes)
        && (r.recommended == Cheapest ==> r.totalPrice <= r'.totalPrice)
        && (r.recommended == Reliable ==> r.totalRisk <= r'.totalRisk)
      ensures SortedByKey(result)
      ensures MatchingIds(stops, frm) != [] && MatchingIds(stops, to) != [] ==>
        exists routes :: BuiltFrom(stopsById, routes, AllPaths(graph, MatchingIds(stops, to), MatchingIds(stops, frm)))
          && result == Selected(routes)
      ensures forall i, p :: 0 <= i < |MatchingIds(stops, frm)| && ValidRoute(graph, MatchingIds(stops, to), MatchingIds(stops, frm)[i], p) ==>
        Represented(result, p)
    {
      var fromIds := FindStopIds(frm);
      var toIds := FindStopIds(to);
      if fromIds == [] || toIds == [] {
        NoRouteWithoutEnds(graph, toIds, fromIds);
        return [];
      }
      result := SearchRoutes(fromIds, toIds);
    }
  }
}
