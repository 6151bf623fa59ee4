/**
 * The account page: which multimodal tickets it keeps from the tickets endpoint's
 * response, the name edit, and the route hint dialog.
 */
module AccountPage {
  import opened Wrappers
  import opened UiModel

  // ---------------------------------------------------------------------------
  // Ticket normalisation
  // ---------------------------------------------------------------------------

  /** A stored ticket as the endpoint returns it. `fullSegments` is `None` when
    * `full_segments` is missing or is not an array. */
  datatype AccountTicket = AccountTicket(
    id: Option<string>,
    route: string,
    price: real,
    passengerName: string,
    fullSegments: Option<seq<UiSegment>>)

  /** `ticket.full_segments && Array.isArray(ticket.full_segments)`: an array is always truthy. */
  predicate IsMultimodal(t: AccountTicket) {
    t.fullSegments.Some?
  }

  /** One property of an object response: its key and its value, `None` when the
    * value is not an array (it has no `forEach`). */
  datatype Group = Group(key: string, tickets: Option<seq<AccountTicket>>)

  /** The parsed response body: an array, a non-null object (its properties in
    * enumeration order), or anything else (`null`, a number, a string, a boolean). */
  datatype TicketsResponse = ArrayResponse(items: seq<AccountTicket>) | ObjectResponse(groups: seq<Group>) | OtherResponse

  /** The multimodal tickets of `ts`, in order (`filter`). */
  function Multimodal(ts: seq<AccountTicket>): seq<AccountTicket> {
    if ts == [] then []
    else Multimodal(ts[..|ts| - 1]) + (if IsMultimodal(ts[|ts| - 1]) then [ts[|ts| - 1]] else [])
  }

  /** Filtering a concatenation filters each part. */
  lemma {:induction false} MultimodalConcat(a: seq<AccountTicket>, b: seq<AccountTicket>)
    ensures Multimodal(a + b) == Multimodal(a) + Multimodal(b)
    decreases |b|
  {
    if b == [] {
      assert a + b == a;
    } else {
      MultimodalConcat(a, b[..|b| - 1]);
      assert (a + b)[..|a + b| - 1] == a + b[..|b| - 1];
    }
  }

  /** A ticket is kept exactly when it is in the response and is multimodal; no more are kept than arrived. */
  lemma {:induction false} MultimodalMembers(ts: seq<AccountTicket>)
    ensures |Multimodal(ts)| <= |ts|
    ensures forall t :: t in Multimodal(ts) <==> t in ts && IsMultimodal(t)
  {
    if ts != [] {
      MultimodalMembers(ts[..|ts| - 1]);
      assert ts == ts[..|ts| - 1] + [ts[|ts| - 1]];
    }
  }

  /** The tickets an object response yields: each property's multimodal tickets, property after
    * property. `None` when some value is not an array, so that the handler throws. */
  function FromObject(groups: seq<Group>): Option<seq<AccountTicket>> {
    if groups == [] then Some([])
    else
      match FromObject(groups[..|groups| - 1])
      case None => None
      case Some(acc) =>
        match groups[|groups| - 1].tickets
        case None => None
        case Some(ts) => Some(acc + Multimodal(ts))
  }

  /** All the tickets of an object response, property after property. */
  function Flatten(groups: seq<Group>): seq<AccountTicket> {
    if groups == [] then [] else Flatten(groups[..|groups| - 1]) + groups[|groups| - 1].tickets.GetOr([])
  }

  /** An object response throws exactly when one of its values is not an array; otherwise it
    * keeps the same tickets as an array response listing all its tickets in order. */
  lemma {:induction false} FromObjectSpec(groups: seq<Group>)
    ensures FromObject(groups).None? <==> exists i :: 0 <= i < |groups| && groups[i].tickets.None?
    ensures FromObject(groups).Some? ==> FromObject(groups).value == Multimodal(Flatten(groups))
  {
    if groups != [] {
      var init := groups[..|groups| - 1];
      FromObjectSpec(init);
      assert forall i :: 0 <= i < |init| ==> init[i] == groups[i];
      if FromObject(groups).Some? {
        MultimodalConcat(Flatten(init), groups[|groups| - 1].tickets.value);
      }
    }
  }

  /** Once a value has thrown, later properties do not matter. */
  lemma {:induction false} FromObjectStaysNone(groups: seq<Group>, g: nat)
    requires g <= |groups| && FromObject(groups[..g]).None?
    ensures FromObject(groups).None?
    decreases |groups| - g
  {
    if g < |groups| {
      assert groups[..g + 1][..g] == groups[..g];
      FromObjectStaysNone(groups, g + 1);
    } else {
      assert groups[..g] == groups;
    }
  }

  /** The tickets kept from a response, or `None` when the handler throws and the page keeps its previous tickets. */
  function Normalised(data: TicketsResponse): Option<seq<AccountTicket>> {
    match data
    case ArrayResponse(items) => Some(Multimodal(items))
    case ObjectResponse(groups) => FromObject(groups)
    case OtherResponse => Some([])
  }

  /** The `forEach` over one property's tickets, pushing the multimodal ones onto `acc`. */
  method PushMultimodal(ts: seq<AccountTicket>, acc: seq<AccountTicket>) returns (r: seq<AccountTicket>)
    ensures r == acc + Multimodal(ts)
  {
    r := acc;
    for k := 0 to |ts|
      invariant r == acc + Multimodal(ts[..k])
    {
      assert ts[..k + 1][..k] == ts[..k];
      if IsMultimodal(ts[k]) {
        r := r + [ts[k]];
      }
    }
    assert ts[..|ts|] == ts;
  }

  /** The `for ... in` loop over an object response. */
  method CollectFromObject(groups: seq<Group>) returns (r: Option<seq<AccountTicket>>)
    ensures r == FromObject(groups)
  {
    var acc: seq<AccountTicket> := [];
    assert groups[..0] == [];
    for g := 0 to |groups|
      invariant FromObject(groups[..g]) == Some(acc)
    {
      assert groups[..g + 1][..g] == groups[..g];
      if groups[g].tickets.None? {
        FromObjectStaysNone(groups, g + 1);
        return None;
      }
      acc := PushMultimodal(groups[g].tickets.value, acc);
    }
    assert groups[..|groups|] == groups;
    return Some(acc);
  }

  // ---------------------------------------------------------------------------
  // Route hint dialog
  // ---------------------------------------------------------------------------

  /** The hint endpoint's answer; each field may be missing. */
  datatype Hint = Hint(weather: Option<string>, transport: Option<string>, fact: Option<string>, hint: Option<string>)

  /** A JavaScript string field is truthy when present and non-empty. */
  predicate Truthy(v: Option<string>) {
    v.Some? && v.value != ""
  }

  /** One line of the dialog: its caption and the field it prints. */
  datatype HintLine = HintLine(caption: string, value: Option<string>)

  /** The dialog body: a loading note until an answer arrives, then the lines shown. */
  datatype HintView = Loading | Lines(lines: seq<HintLine>)

  const FactCaption: string := "Интересный факт:"
  const TransportCaption: string := "Популярный транспорт:"
  const WeatherCaption: string := "Погода:"
  const InfoCaption: string := "Информация:"

  /** `[line]` when `shown`, else nothing. */
  function LineIf(shown: bool, line: HintLine): seq<HintLine> {
    if shown then [line] else []
  }

  /** The dialog as the component renders it: the fact line is guarded by `weather`,
    * and the weather and information lines by `fact`. */
  function HintViewAsWritten(h: Option<Hint>): HintView {
    if h.None? then Loading
    else
      var d := h.value;
      Lines(LineIf(Truthy(d.weather), HintLine(FactCaption, d.fact))
        + LineIf(Truthy(d.transport), HintLine(TransportCaption, d.transport))
        + LineIf(Truthy(d.fact), HintLine(WeatherCaption, d.weather))
        + LineIf(Truthy(d.fact), HintLine(InfoCaption, d.hint)))
  }

  /** With an empty `weather` (the hint service's answer when it has nothing to say about
    * the weather) and a fact present, the dialog hides the fact and prints an empty weather line. */
  lemma HintGuardsSwapped()
    ensures var h := Hint(Some(""), None, Some("Якутск основан в 1632 году"), None);
      HintViewAsWritten(Some(h)) == Lines([HintLine(WeatherCaption, Some("")), HintLine(InfoCaption, None)])
  {
  }

  /** The dialog with each line guarded by the field it prints. */
  function HintViewFor(h: Option<Hint>): (v: HintView)
    ensures v.Loading? <==> h.None?
  {
    if h.None? then Loading
    else
      var d := h.value;
      Lines(LineIf(Truthy(d.fact), HintLine(FactCaption, d.fact))
        + LineIf(Truthy(d.transport), HintLine(TransportCaption, d.transport))
        + LineIf(Truthy(d.weather), HintLine(WeatherCaption, d.weather))
        + LineIf(Truthy(d.hint), HintLine(InfoCaption, d.hint)))
  }

  /** Every line shown prints a non-empty value, and a line for each non-empty field is shown. */
  lemma HintViewShowsFields(d: Hint)
    ensures var lines := HintViewFor(Some(d)).lines;
      && (forall i :: 0 <= i < |lines| ==> Truthy(lines[i].value))
      && (Truthy(d.fact) <==> HintLine(FactCaption, d.fact) in lines)
      && (Truthy(d.transport) <==> HintLine(TransportCaption, d.transport) in lines)
      && (Truthy(d.weather) <==> HintLine(WeatherCaption, d.weather) in lines)
      && (Truthy(d.hint) <==> HintLine(InfoCaption, d.hint) in lines)
  {
  }

  // ---------------------------------------------------------------------------
  // Page state
  // ---------------------------------------------------------------------------

  /** The stored user: `email`, `name`, `is_business`, and whatever other fields it has. */
  datatype User = User(email: string, name: string, isBusiness: bool, otherFields: map<string, string>)

  const ApiBase: string := "http://localhost:8000"

  /** Where the page asks for the user's tickets. */
  function TicketsUrl(u: User): (url: string)
    ensures u.isBusiness ==> url == ApiBase + "/api/business/" + u.email + "/tickets"
    ensures !u.isBusiness ==> url == ApiBase + "/api/users/" + u.email + "/tickets"
  {
    ApiBase + (if u.isBusiness then "/api/business/" else "/api/users/") + u.email + "/tickets"
  }

  /** The two tabs of the page; it opens on the user data tab. */
  datatype Tab = DataTab | TicketsTab

  const InitialTab: Tab := DataTab

  /** Shown for a user without a name. */
  const NoNameText: string := "Не указано"

  /** `renderUserData()`: the email and the name line, or `None` where reading
    * `user.email` of a missing user throws. */
  function UserDataView(user: Option<User>): (v: Option<(string, string)>)
    ensures v.None? <==> user.None?
    ensures v.Some? ==> v.value.0 == user.value.email
    ensures v.Some? ==> v.value.1 == (if user.value.name == "" then NoNameText else user.value.name)
  {
    if user.None? then None
    else Some((user.value.email, if user.value.name != "" then user.value.name else NoNameText))
  }

  /** Rendering throws when the open tab dereferences a missing user; only the data tab reads `user`. */
  predicate RenderThrows(user: Option<User>, tab: Tab) {
    tab == DataTab && UserDataView(user).None?
  }

  /**
   * As written, the first render of a page opened without a stored user throws:
   * the page starts on the data tab, which reads `user.email`. A render that
   * throws runs no effects, so the mount effect's redirect to the login page
   * (`AccountView.Open`) is never reached.
   */
  lemma NoUserFirstRenderThrows(storedUser: Option<User>)
    ensures RenderThrows(storedUser, InitialTab) <==> storedUser.None?
    ensures forall tab :: RenderThrows(storedUser, tab) ==> storedUser.None? && tab == DataTab
  {
  }

  class AccountView {
    /** The `user` state and the `"user"` entry of local storage. */
    var user: Option<User>
    var stored: Option<User>
    var tickets: seq<AccountTicket>
    var editing: bool
    var newName: string
    var showHint: bool
    var hintData: Option<Hint>
    /** Where the page has navigated, if anywhere. */
    var redirect: Option<string>

    /** The page's first render from what local storage holds. */
    constructor (storedUser: Option<User>)
      ensures user == storedUser && stored == storedUser
      ensures newName == (if storedUser.Some? then storedUser.value.name else "")
      ensures tickets == [] && !editing && !showHint && hintData == None && redirect == None
    {
      user := storedUser;
      stored := storedUser;
      tickets := [];
      editing := false;
      newName := if storedUser.Some? then storedUser.value.name else "";
      showHint := false;
      hintData := None;
      redirect := None;
    }

    /** The mount effect: without a user, go to the login page and fetch nothing;
      * otherwise the tickets request to send. The redirect is the intended
      * behaviour; as written the first render throws before it (`NoUserFirstRenderThrows`). */
    method Open() returns (fetchUrl: Option<string>)
      modifies this
      ensures user.None? ==> redirect == Some("/login") && fetchUrl == None
      ensures user.Some? ==> redirect == old(redirect) && fetchUrl == Some(TicketsUrl(user.value))
      ensures user == old(user) && stored == old(stored) && tickets == old(tickets)
      ensures editing == old(editing) && newName == old(newName)
      ensures showHint == old(showHint) && hintData == old(hintData)
    {
      if user.None? {
        redirect := Some("/login");
        return None;
      }
      return Some(TicketsUrl(user.value));
    }

    /** The tickets response arrives. A response the handler throws on leaves the tickets as they were. */
    method ReceiveTickets(data: TicketsResponse)
      modifies this
      ensures tickets == Normalised(data).GetOr(old(tickets))
      ensures user == old(user) && stored == old(stored) && redirect == old(redirect)
      ensures editing == old(editing) && newName == old(newName)
      ensures showHint == old(showHint) && hintData == old(hintData)
    {
      match data {
        case ArrayResponse(items) =>
          tickets := Multimodal(items);
        case ObjectResponse(groups) =>
          var r := CollectFromObject(groups);
          if r.Some? {
            tickets := r.value;
          }
        case OtherResponse =>
          tickets := [];
      }
    }

    /** `handleSave`: the new name replaces the user's name, nothing else of the user
      * changes, local storage holds the same record, and editing ends. */
    method Save()
      modifies this
      requires user.Some?
      ensures user == Some(old(user).value.(name := old(newName)))
      ensures stored == user
      ensures !editing
      ensures tickets == old(tickets) && newName == old(newName) && redirect == old(redirect)
      ensures showHint == old(showHint) && hintData == old(hintData)
    {
      user := Some(user.value.(name := newName));
      stored := user;
      editing := false;
    }

    /** A hint answer arrives: it is shown. */
    method ReceiveHint(h: Hint)
      modifies this
      ensures showHint && hintData == Some(h)
      ensures user == old(user) && stored == old(stored) && tickets == old(tickets)
      ensures editing == old(editing) && newName == old(newName) && redirect == old(redirect)
    {
      hintData := Some(h);
      showHint := true;
    }

    /** `closeHint`: the dialog closes and forgets its answer. */
    method CloseHint()
      modifies this
      ensures !showHint && hintData == None
      ensures user == old(user) && stored == old(stored) && tickets == old(tickets)
      ensures editing == old(editing) && newName == old(newName) && redirect == old(redirect)
    {
      showHint := false;
      hintData := None;
    }

    /** The hint dialog's body for the current answer. */
    function HintDialog(): (v: HintView)
      reads this
      ensures v.Loading? <==> hintData.None?
    {
      HintViewFor(hintData)
    }
  }
}
