/**
 * backend/yandex_rasp_client.py: resolving a city to a Yandex settlement
 * code, and turning the multi-leg results of a Yandex schedule search into
 * legs. The station list, the search response, the API key and the ISO time
 * conversion are passed in.
 */
module YandexRasp {
  import opened Wrappers
  import Text

  // ---------------------------------------------------------------------------
  // Codes and names
  // ---------------------------------------------------------------------------

  /** `_norm`: `None` or empty gives `""`, anything else is stripped and lower-cased. */
  function Norm(s: Option<string>): (r: string)
    ensures s.None? || s == Some("") ==> r == ""
    ensures |r| <= |s.GetOr("")|
  {
    Text.Lower(Text.Trim(s.GetOr("")))
  }

  /** Normalising twice is normalising once. */
  lemma NormIdempotent(s: Option<string>)
    ensures Norm(Some(Norm(s))) == Norm(s)
  {
    var t := Text.Trim(s.GetOr(""));
    Text.TrimLowerCommute(t);
    Text.TrimIdempotent(s.GetOr(""));
    Text.LowerIdempotent(t);
  }

  /**
   * `_looks_like_yandex_code`; `None` for a non-empty all-whitespace string,
   * on which Python raises `IndexError`.
   */
  function LooksLikeCode(s: Option<string>): Option<bool> {
    if s.None? || s.value == "" then Some(false)
    else
      var t := Text.Trim(s.value);
      if t == "" then None
      else Some((t[0] == 'c' || t[0] == 's' || t[0] == 'y') && |t| > 1 && Text.AllDigits(t[1..]))
  }

  /**
   * A code is a letter `c`, `s` or `y` followed by at least one digit, after
   * stripping; `None` and `""` are not codes.
   */
  lemma LooksLikeCodeSpec(s: Option<string>)
    ensures s.None? || s == Some("") ==> LooksLikeCode(s) == Some(false)
    ensures s.Some? && Text.Trim(s.value) != "" ==>
      var t := Text.Trim(s.value);
      LooksLikeCode(s) == Some(exists k :: k in "csy" && |t| >= 2 && t == [k] + t[1..] && Text.AllDigits(t[1..]))
  {
    if s.Some? && Text.Trim(s.value) != "" {
      CodeShape(Text.Trim(s.value));
    }
  }

  /** The first-letter test on a non-empty stripped string, as a shape. */
  lemma CodeShape(t: string)
    requires t != ""
    ensures ((t[0] == 'c' || t[0] == 's' || t[0] == 'y') && |t| > 1 && Text.AllDigits(t[1..])) <==>
      exists k :: k in "csy" && |t| >= 2 && t == [k] + t[1..] && Text.AllDigits(t[1..])
  {
    if (t[0] == 'c' || t[0] == 's' || t[0] == 'y') && |t| > 1 && Text.AllDigits(t[1..]) {
      assert t[0] in "csy" && t == [t[0]] + t[1..];
    } else {
      forall k | k in "csy" && |t| >= 2 && t == [k] + t[1..]
        ensures !Text.AllDigits(t[1..])
      {
        assert t[0] == k;
      }
    }
  }

  // ---------------------------------------------------------------------------
  // Resolving a city
  // ---------------------------------------------------------------------------

  /** A settlement of the station list; a missing or null title or code is `""`. */
  datatype Settlement = Settlement(title: string, code: string)
  datatype Region = Region(settlements: seq<Settlement>)
  datatype Country = Country(regions: seq<Region>)

  /** The settlements of some regions, in order. */
  function RegionSettlements(regions: seq<Region>): seq<Settlement> {
    if regions == [] then [] else regions[0].settlements + RegionSettlements(regions[1..])
  }

  /** Every settlement of the list, in country, region, settlement order. */
  function AllSettlements(countries: seq<Country>): seq<Settlement> {
    if countries == [] then [] else RegionSettlements(countries[0].regions) + AllSettlements(countries[1..])
  }

  lemma {:induction false} RegionSettlementsConcat(a: seq<Region>, b: seq<Region>)
    ensures RegionSettlements(a + b) == RegionSettlements(a) + RegionSettlements(b)
  {
    if a != [] {
      assert (a + b)[1..] == a[1..] + b;
      RegionSettlementsConcat(a[1..], b);
    } else {
      assert a + b == b;
    }
  }

  lemma {:induction false} AllSettlementsConcat(a: seq<Country>, b: seq<Country>)
    ensures AllSettlements(a + b) == AllSettlements(a) + AllSettlements(b)
  {
    if a != [] {
      assert (a + b)[1..] == a[1..] + b;
      AllSettlementsConcat(a[1..], b);
    } else {
      assert a + b == b;
    }
  }

  /** The code of the first settlement `keep` accepts. */
  function FirstCode(xs: seq<Settlement>, keep: Settlement -> bool): Option<string> {
    if xs == [] then None
    else if keep(xs[0]) then Some(xs[0].code)
    else FirstCode(xs[1..], keep)
  }

  /**
   * `FirstCode` finds the first accepted settlement: it answers a code
   * exactly when some settlement is accepted, and then the code of an
   * accepted settlement before which none is accepted.
   */
  lemma {:induction false} FirstCodeSpec(xs: seq<Settlement>, keep: Settlement -> bool)
    ensures FirstCode(xs, keep).None? <==> forall i :: 0 <= i < |xs| ==> !keep(xs[i])
    ensures FirstCode(xs, keep).Some? ==>
      exists i :: 0 <= i < |xs| && keep(xs[i]) && xs[i].code == FirstCode(xs, keep).value
        && forall j :: 0 <= j < i ==> !keep(xs[j])
  {
    if xs != [] && !keep(xs[0]) {
      FirstCodeSpec(xs[1..], keep);
      assert forall i :: 1 <= i < |xs| ==> xs[i] == xs[1..][i - 1];
      if FirstCode(xs, keep).Some? {
        var i :| 0 <= i < |xs[1..]| && keep(xs[1..][i]) && xs[1..][i].code == FirstCode(xs, keep).value
          && forall j :: 0 <= j < i ==> !keep(xs[1..][j]);
        assert forall j :: 0 <= j < i + 1 ==> !keep(xs[j]);
      }
    }
  }

  /** The first match of a concatenation: the first match of the front part, else of the rest. */
  lemma {:induction false} FirstCodeConcat(p: seq<Settlement>, xs: seq<Settlement>, keep: Settlement -> bool)
    ensures FirstCode(p + xs, keep) == if FirstCode(p, keep).Some? then FirstCode(p, keep) else FirstCode(xs, keep)
  {
    if p == [] {
      assert p + xs == xs;
    } else {
      assert (p + xs)[1..] == p[1..] + xs;
      FirstCodeConcat(p[1..], xs, keep);
    }
  }

  /** Appending one settlement: the first match so far, else that settlement if it matches. */
  lemma {:induction false} FirstCodeSnoc(p: seq<Settlement>, x: Settlement, keep: Settlement -> bool)
    ensures FirstCode(p + [x], keep) == if FirstCode(p, keep).Some? then FirstCode(p, keep) else if keep(x) then Some(x.code) else None
  {
    if p != [] {
      assert (p + [x])[1..] == p[1..] + [x];
      FirstCodeSnoc(p[1..], x, keep);
    }
  }

  /** An exact title match: the settlement has a code and its normalised title is the query. */
  function ExactOn(q: string): Settlement -> bool {
    (x: Settlement) => x.code != "" && Norm(Some(x.title)) == q
  }

  /** A partial title match: the settlement has a code and its normalised title contains the query. */
  function PartialOn(q: string): Settlement -> bool {
    (x: Settlement) => x.code != "" && Text.Contains(Norm(Some(x.title)), q)
  }

  /** Why resolving a city fails. */
  datatype ResolveError = EmptyCity | StationsUnavailable | NotFound(city: string)

  /** What `_resolve_to_yandex_code` answers, with the station list passed in (`None` when loading it raised). */
  function Resolved(raw: Option<string>, stations: Option<seq<Country>>): Result<string, ResolveError> {
    var r := Text.Trim(raw.GetOr(""));
    if r == [] then Err(EmptyCity)
    else if LooksLikeCode(Some(r)) == Some(true) then Ok(r)
    else if stations.None? then Err(StationsUnavailable)
    else
      match Lookup(Norm(Some(r)), AllSettlements(stations.value))
      case Some(code) => Ok(code)
      case None => Err(NotFound(r))
  }

  /** The code of the first exact match of the query, else of the first partial match. */
  function Lookup(q: string, all: seq<Settlement>): Option<string> {
    if FirstCode(all, ExactOn(q)).Some? then FirstCode(all, ExactOn(q)) else FirstCode(all, PartialOn(q))
  }

  /**
   * A lookup finds a code exactly when some coded settlement's normalised
   * title contains the query, and then the code of such a settlement; when
   * a title equals the query, the code of the first such settlement.
   */
  lemma LookupSpec(q: string, all: seq<Settlement>)
    ensures Lookup(q, all).Some? <==> exists i :: 0 <= i < |all| && PartialOn(q)(all[i])
    ensures Lookup(q, all).Some? ==> exists i :: 0 <= i < |all| && PartialOn(q)(all[i]) && all[i].code == Lookup(q, all).value
    ensures (exists i :: 0 <= i < |all| && ExactOn(q)(all[i])) ==>
      exists i :: 0 <= i < |all| && ExactOn(q)(all[i]) && all[i].code == Lookup(q, all).value
        && forall j :: 0 <= j < i ==> !ExactOn(q)(all[j])
  {
    FirstCodeSpec(all, ExactOn(q));
    FirstCodeSpec(all, PartialOn(q));
    var e := FirstCode(all, ExactOn(q));
    if e.Some? {
      var i :| 0 <= i < |all| && ExactOn(q)(all[i]) && all[i].code == e.value;
      ExactIsPartial(q, all[i]);
    }
  }

  /**
   * Resolution in words: a blank city fails; a stripped code is returned as
   * it is; otherwise a missing station list fails, and with the list the
   * answer is the lookup of the normalised city, failing with the stripped
   * city as not found when the lookup finds nothing.
   */
  lemma ResolvedSpec(raw: Option<string>, stations: Option<seq<Country>>)
    ensures Text.Trim(raw.GetOr("")) == [] <==> Resolved(raw, stations) == Err(EmptyCity)
    ensures var r := Text.Trim(raw.GetOr(""));
      r != [] && LooksLikeCode(Some(r)) == Some(true) ==> Resolved(raw, stations) == Ok(r)
    ensures var r := Text.Trim(raw.GetOr(""));
      r != [] && LooksLikeCode(Some(r)) != Some(true) && stations.None? ==> Resolved(raw, stations) == Err(StationsUnavailable)
    ensures var r := Text.Trim(raw.GetOr(""));
      r != [] && LooksLikeCode(Some(r)) != Some(true) && stations.Some? ==>
        var found := Lookup(Norm(Some(r)), AllSettlements(stations.value));
        && (Resolved(raw, stations).Ok? <==> found.Some?)
        && (found.Some? ==> Resolved(raw, stations).value == found.value)
        && (found.None? ==> Resolved(raw, stations) == Err(NotFound(r)))
  {
  }

  /** An exact match is also a partial one. */
  lemma ExactIsPartial(q: string, x: Settlement)
    ensures ExactOn(q)(x) ==> PartialOn(q)(x)
  {
    if ExactOn(q)(x) {
      assert Text.OccursAt(q, Norm(Some(x.title)), 0);
    }
  }

  /** Splitting the tail of a concatenation after its first `k` elements. */
  lemma SplitAfter<T>(seen: seq<T>, xs: seq<T>, k: nat)
    requires k <= |xs|
    ensures seen + xs == (seen + xs[..k]) + xs[k..]
  {
    assert xs == xs[..k] + xs[k..];
  }

  /**
   * The innermost loop of `_resolve_to_yandex_code`, over the settlements of
   * one region, entered with the settlements `seen` before them and the
   * partial match found so far. An exact match ends the scan (the `break`).
   */
  method ScanSettlements(settlements: seq<Settlement>, q: string, ghost seen: seq<Settlement>, partialIn: Option<string>)
    returns (exact: Option<string>, partial: Option<string>)
    requires FirstCode(seen, ExactOn(q)).None? && partialIn == FirstCode(seen, PartialOn(q))
    ensures exact == FirstCode(seen + settlements, ExactOn(q))
    ensures exact.None? ==> partial == FirstCode(seen + settlements, PartialOn(q))
  {
    exact := None;
    partial := partialIn;
    var s := 0;
    assert seen + settlements[..0] == seen;
    while s < |settlements|
      invariant s <= |settlements| && exact.None?
      invariant FirstCode(seen + settlements[..s], ExactOn(q)).None?
      invariant partial == FirstCode(seen + settlements[..s], PartialOn(q))
    {
      var x := settlements[s];
      ghost var before := seen + settlements[..s];
      assert seen + settlements[..s + 1] == before + [x];
      FirstCodeSnoc(before, x, ExactOn(q));
      FirstCodeSnoc(before, x, PartialOn(q));
      var titleNorm := Norm(Some(x.title));
      var code := x.code;
      if code == "" {
        s := s + 1;
        continue;
      }
      if titleNorm == q {
        exact := Some(code);
        SplitAfter(seen, settlements, s + 1);
        FirstCodeConcat(seen + settlements[..s + 1], settlements[s + 1..], ExactOn(q));
        return;
      }
      if Text.Contains(titleNorm, q) && partial.None? {
        partial := Some(code);
      }
      s := s + 1;
    }
    assert settlements[..s] == settlements;
  }

  /** The settlements of some regions are those of the first `k` followed by those of the rest. */
  lemma RegionSettlementsSplit(regions: seq<Region>, k: nat)
    requires k <= |regions|
    ensures RegionSettlements(regions) == RegionSettlements(regions[..k]) + RegionSettlements(regions[k..])
  {
    assert regions == regions[..k] + regions[k..];
    RegionSettlementsConcat(regions[..k], regions[k..]);
  }

  /** The settlements of some countries are those of the first `k` followed by those of the rest. */
  lemma AllSettlementsSplit(countries: seq<Country>, k: nat)
    requires k <= |countries|
    ensures AllSettlements(countries) == AllSettlements(countries[..k]) + AllSettlements(countries[k..])
  {
    assert countries == countries[..k] + countries[k..];
    AllSettlementsConcat(countries[..k], countries[k..]);
  }

  /** The settlements seen after one region more. */
  lemma RegionsStep(seen: seq<Settlement>, regions: seq<Region>, g: nat)
    requires g < |regions|
    ensures seen + RegionSettlements(regions[..g + 1]) == (seen + RegionSettlements(regions[..g])) + regions[g].settlements
  {
    assert regions[..g + 1] == regions[..g] + [regions[g]];
    RegionSettlementsConcat(regions[..g], [regions[g]]);
    assert [regions[g]][1..] == [];
  }

  /** A match among the first `g + 1` regions is the match among all of them. */
  lemma RegionsFound(seen: seq<Settlement>, regions: seq<Region>, g: nat, keep: Settlement -> bool)
    requires g < |regions| && FirstCode(seen + RegionSettlements(regions[..g + 1]), keep).Some?
    ensures FirstCode(seen + RegionSettlements(regions), keep) == FirstCode(seen + RegionSettlements(regions[..g + 1]), keep)
  {
    RegionSettlementsSplit(regions, g + 1);
    assert seen + RegionSettlements(regions) == (seen + RegionSettlements(regions[..g + 1])) + RegionSettlements(regions[g + 1..]);
    FirstCodeConcat(seen + RegionSettlements(regions[..g + 1]), RegionSettlements(regions[g + 1..]), keep);
  }

  /**
   * The middle loop, over the regions of one country: each region's
   * settlements are scanned in turn, and an exact match ends it.
   */
  method ScanRegions(regions: seq<Region>, q: string, ghost seen: seq<Settlement>, partialIn: Option<string>)
    returns (exact: Option<string>, partial: Option<string>)
    requires FirstCode(seen, ExactOn(q)).None? && partialIn == FirstCode(seen, PartialOn(q))
    ensures exact == FirstCode(seen + RegionSettlements(regions), ExactOn(q))
    ensures exact.None? ==> partial == FirstCode(seen + RegionSettlements(regions), PartialOn(q))
  {
    exact := None;
    partial := partialIn;
    var g := 0;
    assert seen + RegionSettlements(regions[..0]) == seen;
    while g < |regions|
      invariant g <= |regions| && exact.None?
      invariant FirstCode(seen + RegionSettlements(regions[..g]), ExactOn(q)).None?
      invariant partial == FirstCode(seen + RegionSettlements(regions[..g]), PartialOn(q))
    {
      RegionsStep(seen, regions, g);
      exact, partial := ScanSettlements(regions[g].settlements, q, seen + RegionSettlements(regions[..g]), partial);
      if exact.Some? {
        RegionsFound(seen, regions, g, ExactOn(q));
        return;
      }
      g := g + 1;
    }
    assert regions[..g] == regions;
  }

  /** `AllSettlements` of one country more. */
  lemma AllSettlementsSnoc(countries: seq<Country>, c: nat)
    requires c < |countries|
    ensures AllSettlements(countries[..c + 1]) == AllSettlements(countries[..c]) + RegionSettlements(countries[c].regions)
  {
    assert countries[..c + 1] == countries[..c] + [countries[c]];
    AllSettlementsConcat(countries[..c], [countries[c]]);
    assert [countries[c]][1..] == [];
  }

  /** A match among the first `c + 1` countries is the match among all of them. */
  lemma CountriesFound(countries: seq<Country>, c: nat, keep: Settlement -> bool)
    requires c < |countries| && FirstCode(AllSettlements(countries[..c + 1]), keep).Some?
    ensures FirstCode(AllSettlements(countries), keep) == FirstCode(AllSettlements(countries[..c + 1]), keep)
  {
    AllSettlementsSplit(countries, c + 1);
    FirstCodeConcat(AllSettlements(countries[..c + 1]), AllSettlements(countries[c + 1..]), keep);
  }

  /**
   * `_resolve_to_yandex_code`: strip, test for a code, then the outer loop
   * over the countries, which keeps the first exact match (leaving all three
   * loops) and the first partial match.
   */
  method ResolveCode(raw: Option<string>, stations: Option<seq<Country>>) returns (r: Result<string, ResolveError>)
    ensures r == Resolved(raw, stations)
  {
    var city := Text.Trim(raw.GetOr(""));
    if city == [] {
      return Err(EmptyCity);
    }
    if LooksLikeCode(Some(city)) == Some(true) {
      return Ok(city);
    }
    if stations.None? {
      return Err(StationsUnavailable);
    }
    var countries := stations.value;
    var q := Norm(Some(city));
    var exact, partial := ScanCountries(countries, q);
    if exact.Some? {
      return Ok(exact.value);
    }
    if partial.Some? {
      return Ok(partial.value);
    }
    return Err(NotFound(city));
  }

  /** The outer loop, over the countries. */
  method ScanCountries(countries: seq<Country>, q: string) returns (exact: Option<string>, partial: Option<string>)
    ensures exact == FirstCode(AllSettlements(countries), ExactOn(q))
    ensures exact.None? ==> partial == FirstCode(AllSettlements(countries), PartialOn(q))
  {
    exact := None;
    partial := None;
    var c := 0;
    while c < |countries|
      invariant c <= |countries| && exact.None?
      invariant FirstCode(AllSettlements(countries[..c]), ExactOn(q)).None?
      invariant partial == FirstCode(AllSettlements(countries[..c]), PartialOn(q))
    {
      ghost var before := AllSettlements(countries[..c]);
      AllSettlementsSnoc(countries, c);
      exact, partial := ScanRegions(countries[c].regions, q, before, partial);
      if exact.Some? {
        CountriesFound(countries, c, ExactOn(q));
        return;
      }
      c := c + 1;
    }
    assert countries[..c] == countries;
  }

  // ---------------------------------------------------------------------------
  // Legs
  // ---------------------------------------------------------------------------

  /** A thread; a missing `uid` or title is `""`, as is the carrier's title when there is none. */
  datatype Thread = Thread(uid: string, title: string, carrierTitle: string)

  /** An entry of `details`: a transfer block, or a hop with its thread. */
  datatype Detail =
    | Transfer
    | Hop(thread: Thread, fromTitle: string, toTitle: string, departure: Option<string>, arrival: Option<string>)

  /** One result of the search: its `details`, `[]` when missing. */
  datatype RawSegment = RawSegment(details: seq<Detail>)

  /** A leg dictionary as `explode_yandex_segment` emits it. */
  datatype YandexLeg = YandexLeg(
    id: string, fromName: string, toName: string, fromId: string, toId: string,
    operator: string, kind: string, departure: Option<string>, arrival: Option<string>,
    price: int, delayRisk: real, source: string)

  const FallbackPrice: int := 15000

  /** `_parse_time`: an empty or missing time is `None`; otherwise `isoTime` converts it to naive UTC. */
  function ParseTime(s: Option<string>, isoTime: string -> Option<string>): Option<string> {
    if s.None? || s.value == "" then None else isoTime(s.value)
  }

  /** How an f-string shows an optional string: `None` prints as `None`. */
  function ShowOpt(s: Option<string>): string {
    if s.Some? then s.value else "None"
  }

  /** The leg of one hop. */
  function LegOf(d: Detail, isoTime: string -> Option<string>): (leg: YandexLeg)
    requires d.Hop?
    ensures leg.fromId == "city:" + Norm(Some(d.fromTitle)) && leg.toId == "city:" + Norm(Some(d.toTitle))
    ensures leg.id == "yandex_leg:" + d.thread.uid + "_" + ShowOpt(ParseTime(d.departure, isoTime))
    ensures leg.kind == "air" && leg.price == FallbackPrice && leg.delayRisk == 0.18 && leg.source == "yandex_rasp"
    ensures leg.operator == if d.thread.carrierTitle != "" then d.thread.carrierTitle else d.thread.title
  {
    var dep := ParseTime(d.departure, isoTime);
    var arr := ParseTime(d.arrival, isoTime);
    YandexLeg(
      "yandex_leg:" + d.thread.uid + "_" + ShowOpt(dep),
      d.fromTitle, d.toTitle,
      "city:" + Norm(Some(d.fromTitle)), "city:" + Norm(Some(d.toTitle)),
      if d.thread.carrierTitle != "" then d.thread.carrierTitle else d.thread.title,
      "air", dep, arr, FallbackPrice, 0.18, "yandex_rasp")
  }

  /** The hops among the details, in order. */
  function Hops(details: seq<Detail>): (hs: seq<Detail>)
    ensures forall i :: 0 <= i < |hs| ==> hs[i].Hop?
  {
    if details == [] then []
    else Hops(details[..|details| - 1]) + (if details[|details| - 1].Hop? then [details[|details| - 1]] else [])
  }

  /** The legs the loop of `explode_yandex_segment` appends. */
  function ExplodedLegs(details: seq<Detail>, isoTime: string -> Option<string>): seq<YandexLeg> {
    if details == [] then []
    else
      var last := details[|details| - 1];
      ExplodedLegs(details[..|details| - 1], isoTime) + (if last.Hop? then [LegOf(last, isoTime)] else [])
  }

  /** There is one leg per hop, in order; transfer blocks give nothing. */
  lemma {:induction false} ExplodedLegsSpec(details: seq<Detail>, isoTime: string -> Option<string>)
    ensures |ExplodedLegs(details, isoTime)| == |Hops(details)|
    ensures forall i :: 0 <= i < |Hops(details)| ==> ExplodedLegs(details, isoTime)[i] == LegOf(Hops(details)[i], isoTime)
  {
    if details != [] {
      ExplodedLegsSpec(details[..|details| - 1], isoTime);
    }
  }

  /** `explode_yandex_segment` */
  method ExplodeSegment(seg: RawSegment, isoTime: string -> Option<string>) returns (legs: seq<YandexLeg>)
    ensures legs == ExplodedLegs(seg.details, isoTime)
  {
    legs := [];
    var details := seg.details;
    for i := 0 to |details|
      invariant legs == ExplodedLegs(details[..i], isoTime)
    {
      assert details[..i + 1][..i] == details[..i];
      var d := details[i];
      if !d.Hop? {
        continue;
      }
      legs := legs + [LegOf(d, isoTime)];
    }
    assert details[..|details|] == details;
  }

  /** The legs of every segment, in order. */
  function AllLegs(segs: seq<RawSegment>, isoTime: string -> Option<string>): seq<YandexLeg> {
    if segs == [] then [] else AllLegs(segs[..|segs| - 1], isoTime) + ExplodedLegs(segs[|segs| - 1].details, isoTime)
  }

  /** Every leg of the concatenation is an air leg at the fallback price from some segment's hop. */
  lemma {:induction false} AllLegsSpec(segs: seq<RawSegment>, isoTime: string -> Option<string>)
    ensures forall leg :: leg in AllLegs(segs, isoTime) ==>
      leg.kind == "air" && leg.price == FallbackPrice && leg.source == "yandex_rasp"
      && exists k, d :: 0 <= k < |segs| && d in segs[k].details && d.Hop? && leg == LegOf(d, isoTime)
  {
    if segs != [] {
      var init := segs[..|segs| - 1];
      var last := segs[|segs| - 1];
      AllLegsSpec(init, isoTime);
      ExplodedLegsSpec(last.details, isoTime);
      forall leg | leg in AllLegs(segs, isoTime)
        ensures exists k, d :: 0 <= k < |segs| && d in segs[k].details && d.Hop? && leg == LegOf(d, isoTime)
      {
        if leg in AllLegs(init, isoTime) {
          var k, d :| 0 <= k < |init| && d in init[k].details && d.Hop? && leg == LegOf(d, isoTime);
          assert init[k] == segs[k];
        } else {
          var i :| 0 <= i < |ExplodedLegs(last.details, isoTime)| && ExplodedLegs(last.details, isoTime)[i] == leg;
          HopsMembers(last.details, Hops(last.details)[i]);
          assert Hops(last.details)[i] in last.details;
        }
      }
    }
  }

  lemma {:induction false} HopsMembers(details: seq<Detail>, d: Detail)
    ensures d in Hops(details) ==> d in details
  {
    if details != [] {
      HopsMembers(details[..|details| - 1], d);
    }
  }

  /**
   * `search_segments_between`, with the API key, the station list, the
   * search request (`None` when it raises) and the time conversion passed in:
   * no key or a failed resolution gives `[]`; otherwise the legs of every
   * segment of the response, in order.
   */
  method SearchSegmentsBetween(apiKey: string, fromCode: Option<string>, toCode: Option<string>,
                               stations: Option<seq<Country>>,
                               search: (string, string) -> Option<seq<RawSegment>>,
                               isoTime: string -> Option<string>) returns (r: Option<seq<YandexLeg>>)
    ensures apiKey == "" ==> r == Some([])
    ensures apiKey != "" && (Resolved(fromCode, stations).Err? || Resolved(toCode, stations).Err?) ==> r == Some([])
    ensures apiKey != "" && Resolved(fromCode, stations).Ok? && Resolved(toCode, stations).Ok? ==>
      var found := search(Resolved(fromCode, stations).value, Resolved(toCode, stations).value);
      r == if found.None? then None else Some(AllLegs(found.value, isoTime))
  {
    if apiKey == "" {
      return Some([]);
    }
    var frm := ResolveCode(fromCode, stations);
    if frm.Err? {
      return Some([]);
    }
    var to := ResolveCode(toCode, stations);
    if to.Err? {
      return Some([]);
    }
    var found := search(frm.value, to.value);
    if found.None? {
      return None;
    }
    var allLegs := CollectLegs(found.value, isoTime);
    return Some(allLegs);
  }

  /** The loop of `search_segments_between` that extends `all_legs` with each segment's legs. */
  method CollectLegs(rawSegments: seq<RawSegment>, isoTime: string -> Option<string>) returns (allLegs: seq<YandexLeg>)
    ensures allLegs == AllLegs(rawSegments, isoTime)
  {
    allLegs := [];
    for i := 0 to |rawSegments|
      invariant allLegs == AllLegs(rawSegments[..i], isoTime)
    {
      assert rawSegments[..i + 1][..i] == rawSegments[..i];
      var legs := ExplodeSegment(rawSegments[i], isoTime);
      allLegs := allLegs + legs;
    }
    assert rawSegments[..|rawSegments|] == rawSegments;
  }
}
