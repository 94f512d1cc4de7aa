/** The airport picker of `src/features/search/components/AirportPicker.tsx`
  as a state machine: its query, dropdown, suggestions, selection and
  highlighted row, and the code it reports to its parent through
  `onChange`.

  Each event is the handler followed by the `[query]` effect, which React
  runs only when the query actually changed. Mouse hovering, focus
  management and the click-outside listener's DOM test are not modelled;
  a click outside is its own event.
*/
module AirportPicker {
  import opened Wrappers
  import opened JsMath
  import opened Airports

  datatype Picker = Picker(
    query: string,
    isOpen: bool,
    results: seq<Airport>,
    selected: Option<Airport>,
    highlight: int)

  /** The state of the first render. */
  const InitPicker: Picker := Picker("", false, [], None, 0)

  /** What every reachable state keeps: the suggestions belong to the query
      and the highlight names a row whenever there are rows. */
  predicate Inv(table: seq<Airport>, p: Picker)
  {
    ResultsFit(table, p) && HighlightFits(p)
  }

  predicate ResultsFit(table: seq<Airport>, p: Picker)
  {
    p.results == (if |p.query| >= 1 then SearchAirports(table, p.query) else [])
  }

  predicate HighlightFits(p: Picker)
  {
    0 <= p.highlight && (|p.results| > 0 ==> p.highlight < |p.results|)
  }

  /** `setQuery(q)` followed by the effect on `[query]`: a new non-empty
      query fetches its suggestions and moves the highlight to the top; an
      empty one drops the suggestions. */
  function SetQuery(table: seq<Airport>, p: Picker, q: string): (r: Picker)
    ensures r.query == q && r.isOpen == p.isOpen && r.selected == p.selected
    ensures q != p.query && |q| >= 1 ==> r.results == SearchAirports(table, q) && r.highlight == 0
    ensures q != p.query && |q| == 0 ==> r.results == [] && r.highlight == p.highlight
    ensures q == p.query ==> r == p
  {
    if q == p.query then p
    else if |q| >= 1 then p.(query := q, results := SearchAirports(table, q), highlight := 0)
    else p.(query := q, results := [])
  }

  // ---------------------------------------------------------------------
  // Highlight cycling

  /** ArrowDown: `(prev + 1) % results.length`. */
  function Down(h: int, n: int): (r: int)
    requires 0 <= h && n > 0
    ensures 0 <= r < n
    ensures h + 1 < n ==> r == h + 1
    ensures h == n - 1 ==> r == 0
  {
    JsRem(h + 1, n)
  }

  /** ArrowUp: `(prev - 1 + results.length) % results.length`. */
  function Up(h: int, n: int): (r: int)
    requires 0 <= h && n > 0
    ensures 0 <= r < n
    ensures 0 < h <= n ==> r == h - 1
    ensures h == 0 ==> r == n - 1
  {
    JsRem(h - 1 + n, n)
  }

  /** Down then Up, and Up then Down, return to the row they started on. */
  lemma DownUpInverse(h: int, n: int)
    requires 0 <= h < n
    ensures Up(Down(h, n), n) == h
    ensures Down(Up(h, n), n) == h
  {
  }

  /** `k` presses of ArrowDown. */
  function Downs(h: int, n: int, k: nat): (r: int)
    requires 0 <= h && n > 0
    ensures 0 <= r
    ensures k > 0 ==> r < n
  {
    if k == 0 then h else Down(Downs(h, n, k - 1), n)
  }

  /** `k` presses of ArrowDown, for `k` up to one full round, move `k`
      rows down, wrapping round to the top once. */
  lemma {:induction false} DownsMove(h: int, n: int, k: nat)
    requires 0 <= h < n && k <= n
    ensures Downs(h, n, k) == (if h + k < n then h + k else h + k - n)
  {
    if k > 0 {
      DownsMove(h, n, k - 1);
    }
  }

  /** `n` presses of ArrowDown come back to the start. */
  lemma FullCycle(h: int, n: int)
    requires 0 <= h < n
    ensures Downs(h, n, n) == h
  {
    DownsMove(h, n, n);
  }

  // ---------------------------------------------------------------------
  // Events

  datatype Key = ArrowDown | ArrowUp | Enter | Escape | OtherKey

  datatype Event =
    | Type(text: string)         // the input's `onChange`
    | Focus                      // the input's `onFocus`
    | Press(key: Key)            // `handleKeyDown`
    | Choose(airport: Airport)   // a click on a suggestion: `handleSelect`
    | Clear                      // the clear button: `handleClear`
    | ClearAndOpen               // a click on the shown selection
    | ClickOutside               // the document `mousedown` listener

  /** `handleSelect(airport)`: the airport becomes the selection, its code
      is reported, the query is emptied and the dropdown closes. */
  function Select(table: seq<Airport>, p: Picker, a: Airport): (r: (Picker, Option<string>))
    ensures r.0.selected == Some(a) && r.1 == Some(a.code)
    ensures r.0.query == "" && !r.0.isOpen
    ensures p.query != "" ==> r.0.results == []
  {
    (SetQuery(table, p, "").(selected := Some(a), isOpen := false), Some(a.code))
  }

  /** `handleClear()`: no selection, an empty code reported, an empty query. */
  function ClearPicker(table: seq<Airport>, p: Picker): (r: (Picker, Option<string>))
    ensures r.0.selected.None? && r.1 == Some("")
    ensures r.0.query == "" && r.0.isOpen == p.isOpen
    ensures p.query != "" ==> r.0.results == []
  {
    (SetQuery(table, p, "").(selected := None), Some(""))
  }

  /** `handleKeyDown`: nothing happens while the dropdown is closed or has no
      rows. Enter needs the highlight to name a row, which `Inv` keeps. */
  function KeyDown(table: seq<Airport>, p: Picker, key: Key): (r: (Picker, Option<string>))
    requires Inv(table, p)
    ensures !p.isOpen || |p.results| == 0 ==> r == (p, None)
    ensures p.isOpen && |p.results| > 0 && key == Enter ==> r == Select(table, p, p.results[p.highlight])
    ensures p.isOpen && |p.results| > 0 && key == ArrowDown ==>
      r == (p.(highlight := Down(p.highlight, |p.results|)), None)
    ensures p.isOpen && |p.results| > 0 && key == ArrowUp ==>
      r == (p.(highlight := Up(p.highlight, |p.results|)), None)
    ensures p.isOpen && |p.results| > 0 && key == Escape ==> r == (p.(isOpen := false), None)
    ensures key == OtherKey ==> r == (p, None)
  {
    if !p.isOpen || |p.results| == 0 then (p, None)
    else
      match key
      case ArrowDown => (p.(highlight := Down(p.highlight, |p.results|)), None)
      case ArrowUp => (p.(highlight := Up(p.highlight, |p.results|)), None)
      case Enter => Select(table, p, p.results[p.highlight])
      case Escape => (p.(isOpen := false), None)
      case OtherKey => (p, None)
  }

  /** One event: the new state and the code reported to the parent, if any. */
  function Step(table: seq<Airport>, p: Picker, e: Event): (r: (Picker, Option<string>))
    requires Inv(table, p)
  {
    match e
    case Type(text) => (SetQuery(table, p, text).(isOpen := true), None)
    case Focus => (p.(isOpen := true), None)
    case Press(key) => KeyDown(table, p, key)
    case Choose(a) => Select(table, p, a)
    case Clear => ClearPicker(table, p)
    case ClearAndOpen => (ClearPicker(table, p).0.(isOpen := true), Some(""))
    case ClickOutside => (p.(isOpen := false), None)
  }

  /** Emptying the query keeps the invariant. */
  lemma EmptyQueryKeepsInv(table: seq<Airport>, p: Picker)
    requires Inv(table, p)
    ensures Inv(table, SetQuery(table, p, ""))
  {
  }

  /** A key press keeps the invariant. */
  lemma KeyKeepsInv(table: seq<Airport>, p: Picker, key: Key)
    requires Inv(table, p)
    ensures Inv(table, KeyDown(table, p, key).0)
  {
    if p.isOpen && |p.results| > 0 && key == Enter {
      EmptyQueryKeepsInv(table, p);
    }
  }

  /** Every event keeps the invariant. */
  lemma StepKeepsInv(table: seq<Airport>, p: Picker, e: Event)
    requires Inv(table, p)
    ensures Inv(table, Step(table, p, e).0)
  {
    match e
    case Type(text) =>
    case Focus =>
    case Press(key) => KeyKeepsInv(table, p, key);
    case Choose(a) => EmptyQueryKeepsInv(table, p);
    case Clear => EmptyQueryKeepsInv(table, p);
    case ClearAndOpen => EmptyQueryKeepsInv(table, p);
    case ClickOutside =>
  }

  /** Any sequence of events from the first render. */
  function Run(table: seq<Airport>, events: seq<Event>): (r: Picker)
    ensures Inv(table, r)
  {
    if |events| == 0 then InitPicker
    else
      var prev := Run(table, events[..|events| - 1]);
      StepKeepsInv(table, prev, events[|events| - 1]);
      Step(table, prev, events[|events| - 1]).0
  }

  /** A key press reports only codes of the table. */
  lemma ReportedCodes(table: seq<Airport>, p: Picker, key: Key)
    requires Inv(table, p)
    ensures var c := KeyDown(table, p, key).1;
      c.Some? ==> exists i :: 0 <= i < |table| && table[i].code == c.value
  {
    var c := KeyDown(table, p, key).1;
    if c.Some? {
      var a := p.results[p.highlight];
      assert a in table;
    }
  }

  /** Typing a non-empty text opens the dropdown on that text's
      suggestions; a changed text also moves the highlight to the top row. */
  lemma TypeShowsSuggestions(table: seq<Airport>, p: Picker, text: string)
    requires Inv(table, p) && |text| >= 1
    ensures var r := Step(table, p, Type(text)).0;
      && r.isOpen && r.results == SearchAirports(table, text)
      && (text != p.query ==> r.highlight == 0)
  {
  }

  /** `displayValue`: the selection as "CODE - City", else the parent's
      value, else nothing. */
  function DisplayValue(p: Picker, value: string): (r: string)
    ensures p.selected.Some? ==> r == p.selected.value.code + " - " + p.selected.value.city
    ensures p.selected.None? ==> r == value
    ensures r == "" <==> p.selected.None? && value == ""
  {
    if p.selected.Some? then p.selected.value.code + " - " + p.selected.value.city
    else if value != "" then value
    else ""
  }

  /** After a clear the parent holds the empty code it was sent, and the
      picker shows nothing. */
  lemma ClearShowsNothing(table: seq<Airport>, p: Picker)
    requires Inv(table, p)
    ensures var (r, code) := Step(table, p, Clear);
      code == Some("") && DisplayValue(r, code.value) == ""
  {
    var c := ClearPicker(table, p);
    assert Step(table, p, Clear) == c;
    assert DisplayValue(c.0, "") == "";
  }

  /** After a choice the parent holds the chosen code and the picker shows
      that airport. */
  lemma ChooseShowsAirport(table: seq<Airport>, p: Picker, a: Airport)
    requires Inv(table, p)
    ensures var (r, code) := Step(table, p, Choose(a));
      code == Some(a.code) && DisplayValue(r, code.value) == a.code + " - " + a.city
  {
  }
}
