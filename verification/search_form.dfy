/**
 * The search form: its two fields with their defaults, the swap button, the
 * submit guard and the two demo directions.
 */
module SearchForm {
  import opened Wrappers

  const DefaultFrom: string := "Москва"
  const DefaultTo: string := "Сангар"
  const OlyokminskName: string := "Олёкминск"

  /** `value || fallback` for a string property: missing and empty both fall back. */
  function OrDefault(value: Option<string>, fallback: string): (r: string)
    ensures value.Some? && value.value != "" ==> r == value.value
    ensures value.None? || value.value == "" ==> r == fallback
  {
    if value.Some? && value.value != "" then value.value else fallback
  }

  /** Both fields start non-empty whatever the page passes in. */
  lemma InitialFieldsFilled(initialFrom: Option<string>, initialTo: Option<string>)
    ensures OrDefault(initialFrom, DefaultFrom) != "" && OrDefault(initialTo, DefaultTo) != ""
  {
  }

  /** The pair with its two places exchanged. */
  function Swapped(p: (string, string)): (q: (string, string))
    ensures q.0 == p.1 && q.1 == p.0
  {
    (p.1, p.0)
  }

  /** Swapping is its own inverse, and it fixes exactly the pairs whose two places agree. */
  lemma SwappedTwice(p: (string, string))
    ensures Swapped(Swapped(p)) == p
    ensures Swapped(p) == p <==> p.0 == p.1
  {
  }

  /** What a button press asks of the page: a search for a pair, nothing, or a
    * call to a missing `onSearch`, which throws. */
  datatype SearchCall = Search(from: string, to: string) | NoCall | MissingCallback

  class SearchFormState {
    var from: string
    var to: string
    /** Whether the page passed an `onSearch` callback. */
    const hasOnSearch: bool

    constructor (initialFrom: Option<string>, initialTo: Option<string>, onSearchGiven: bool)
      ensures from == OrDefault(initialFrom, DefaultFrom) && to == OrDefault(initialTo, DefaultTo)
      ensures hasOnSearch == onSearchGiven
    {
      from := OrDefault(initialFrom, DefaultFrom);
      to := OrDefault(initialTo, DefaultTo);
      hasOnSearch := onSearchGiven;
    }

    /** Typing into the "from" field. */
    method SetFrom(v: string)
      modifies this
      ensures from == v && to == old(to)
    {
      from := v;
    }

    /** Typing into the "to" field. */
    method SetTo(v: string)
      modifies this
      ensures to == v && from == old(from)
    {
      to := v;
    }

    /** `swap`: the fields exchange their values. */
    method Swap()
      modifies this
      ensures (from, to) == Swapped(old((from, to)))
    {
      from, to := to, from;
    }

    /** `submit`: searches for the current pair when a callback was given; the fields stay as they are. */
    method Submit() returns (call: SearchCall)
      ensures hasOnSearch ==> call == Search(from, to)
      ensures !hasOnSearch ==> call == NoCall
    {
      if hasOnSearch {
        call := Search(from, to);
      } else {
        call := NoCall;
      }
    }

    /** A demo button: fills in Москва → `destination` and searches for that pair without
      * checking for the callback. */
    method Demo(destination: string) returns (call: SearchCall)
      modifies this
      ensures from == DefaultFrom && to == destination
      ensures hasOnSearch ==> call == Search(DefaultFrom, destination)
      ensures !hasOnSearch ==> call == MissingCallback
    {
      from := DefaultFrom;
      to := destination;
      if hasOnSearch {
        call := Search(DefaultFrom, destination);
      } else {
        call := MissingCallback;
      }
    }

    /** The "Москва → Сангар" button. */
    method DemoSangar() returns (call: SearchCall)
      modifies this
      ensures from == DefaultFrom && to == DefaultTo
      ensures hasOnSearch ==> call == Search(DefaultFrom, DefaultTo)
      ensures !hasOnSearch ==> call == MissingCallback
    {
      call := Demo(DefaultTo);
    }

    /** The "Москва → Олёкминск" button. */
    method DemoOlyokminsk() returns (call: SearchCall)
      modifies this
      ensures from == DefaultFrom && to == OlyokminskName
      ensures hasOnSearch ==> call == Search(DefaultFrom, OlyokminskName)
      ensures !hasOnSearch ==> call == MissingCallback
    {
      call := Demo(OlyokminskName);
    }
  }
}
