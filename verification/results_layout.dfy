/**
 * The results page's selection state: which route is highlighted on the map and
 * whose details panel is open, as the page's effect and event handlers update them.
 */
module ResultsLayoutView {
  import opened Wrappers
  import Text
  import opened UiModel

  /** `routesData.routes || []`: a response without `routes` shows no routes. */
  function RoutesOf(routesField: Option<seq<UiRoute>>): (rs: seq<UiRoute>)
    ensures routesField.None? ==> rs == []
    ensures routesField.Some? ==> rs == routesField.value
  {
    routesField.GetOr([])
  }

  /** `routes[0]`, or nothing when there are no routes. */
  function FirstRoute(routes: seq<UiRoute>): (r: Option<UiRoute>)
    ensures r.None? <==> routes == []
    ensures r.Some? ==> r.value == routes[0]
  {
    if |routes| > 0 then Some(routes[0]) else None
  }

  /** The new open-details id after toggling route `id`: closing when that route's
    * panel is the open one, opening it otherwise. */
  function Toggled(current: Option<string>, id: string): (r: Option<string>)
    ensures r.None? <==> current == Some(id)
    ensures r.Some? ==> r.value == id
  {
    if current == Some(id) then None else Some(id)
  }

  /** Toggling the same route twice restores the previous state exactly when that
    * state was "nothing open" or "this route open"; with another route's panel
    * open, the first toggle switches to this route and the second closes it. */
  lemma ToggledTwice(current: Option<string>, id: string)
    ensures Toggled(Toggled(current, id), id) == current <==> (current == None || current == Some(id))
    ensures current != None && current != Some(id) ==> Toggled(Toggled(current, id), id) == None
  {
  }

  /** At most one details panel is open, and toggling a route never leaves another route's open. */
  lemma ToggledOnlyThatRoute(current: Option<string>, id: string, other: string)
    requires other != id
    ensures Toggled(current, id) != Some(other)
  {
  }

  /** The heading above the route list for `n` routes. */
  function Title(n: nat): (t: string)
  {
    if n == 0 then "Маршруты не найдены"
    else if n == 1 then "Найден 1 маршрут"
    else "Найдено маршрутов: " + Text.NatToString(n)
  }

  /** Different route counts give different headings; from two routes on, the
    * heading ends with the count in decimal. */
  lemma TitleInjective(m: nat, n: nat)
    requires Title(m) == Title(n)
    ensures m == n
  {
    var p := "Найдено маршрутов: ";
    if m >= 2 && n >= 2 {
      assert Title(m)[|p|..] == Text.NatToString(m);
      assert Title(n)[|p|..] == Text.NatToString(n);
      Text.NatToStringInjective(m, n);
    }
  }

  /** The results page's state. `routes` is what the current `routesData` holds;
    * `highlighted` and `openDetailsId` are the two `useState` cells. */
  class ResultsLayout {
    var routes: seq<UiRoute>
    var highlighted: Option<UiRoute>
    var openDetailsId: Option<string>

    /** Nothing is highlighted only while there are no routes to highlight. */
    predicate Valid()
      reads this
    {
      highlighted.None? ==> routes == []
    }

    /** Mounting the page with `routesData.routes`: both cells start `null` and the
      * effect runs once after the first render. */
    constructor (routesField: Option<seq<UiRoute>>)
      ensures routes == RoutesOf(routesField)
      ensures highlighted == FirstRoute(routes) && openDetailsId == None
      ensures Valid()
    {
      routes := RoutesOf(routesField);
      highlighted := None;
      openDetailsId := None;
      new;
      ResetOnNewData();
    }

    /** The effect on `routesData`: highlight the first route, or nothing, and close the details panel. */
    method ResetOnNewData()
      modifies this
      ensures routes == old(routes)
      ensures highlighted == FirstRoute(routes) && openDetailsId == None
      ensures Valid()
    {
      if |routes| > 0 {
        highlighted := Some(routes[0]);
      } else {
        highlighted := None;
      }
      openDetailsId := None;
    }

    /** New search results arrive: the page re-renders with them and the effect runs. */
    method ReceiveRoutes(routesField: Option<seq<UiRoute>>)
      modifies this
      ensures routes == RoutesOf(routesField)
      ensures highlighted == FirstRoute(routes) && openDetailsId == None
      ensures Valid()
    {
      routes := RoutesOf(routesField);
      ResetOnNewData();
    }

    /** `handleHoverRoute`: entering a card highlights its route; leaving (`null`)
      * falls back to the first route, or nothing. */
    method HoverRoute(route: Option<UiRoute>)
      modifies this
      requires Valid()
      ensures routes == old(routes) && openDetailsId == old(openDetailsId)
      ensures route.Some? ==> highlighted == route
      ensures route.None? ==> highlighted == FirstRoute(routes)
      ensures Valid()
    {
      if route.Some? {
        highlighted := route;
      } else if |routes| > 0 {
        highlighted := Some(routes[0]);
      } else {
        highlighted := None;
      }
    }

    /** `handleToggleDetails`: `null` changes nothing; a route has its panel toggled and becomes highlighted. */
    method ToggleDetails(route: Option<UiRoute>)
      modifies this
      requires Valid()
      ensures routes == old(routes)
      ensures route.None? ==> highlighted == old(highlighted) && openDetailsId == old(openDetailsId)
      ensures route.Some? ==> highlighted == route && openDetailsId == Toggled(old(openDetailsId), route.value.id)
      ensures Valid()
    {
      if route.None? {
        return;
      }
      openDetailsId := Toggled(openDetailsId, route.value.id);
      highlighted := route;
    }

    /** `highlightedRoute || routes[0] || null`. */
    function ActiveRoute(): (r: Option<UiRoute>)
      reads this
      ensures highlighted.Some? ==> r == highlighted
      ensures highlighted.None? ==> r == FirstRoute(routes)
      ensures r.None? <==> highlighted.None? && routes == []
    {
      if highlighted.Some? then highlighted else FirstRoute(routes)
    }

    /** In every reachable state the fallback to `routes[0]` is never what decides:
      * the active route is the highlighted one. */
    lemma ActiveIsHighlighted()
      requires Valid()
      ensures ActiveRoute() == highlighted
    {
    }
  }
}
