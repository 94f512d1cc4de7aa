/** The checkbox lists of `src/features/filters/components/AirlineFilter.tsx`
  and `src/features/filters/components/StopsFilter.tsx`: the shared
  toggle, "Clear all", and the airline list's five-row preview with its
  expand control.
*/
module FilterToggles {
  import opened Wrappers
  import opened Seqs
  import opened Text
  import opened FlightTypes
  import opened Filters

  /** `(c) => c !== x`. */
  function Other<T(==)>(x: T): T -> bool
  {
    y => y != x
  }

  /** `handleToggle(x)`: a selected value is removed everywhere it occurs,
      an unselected one is appended. */
  function Toggle<T(==)>(selected: seq<T>, x: T): (r: seq<T>)
    ensures x in r <==> x !in selected
    ensures forall y :: y in selected && y != x ==> y in r
    ensures forall y :: y in r && y != x ==> y in selected
    ensures x !in selected ==> r == selected + [x]
    ensures x in selected ==> Subsequence(r, selected) && |r| < |selected|
  {
    if x in selected then
      var r := Filter(selected, Other(x));
      assert forall y :: y != x && y in selected ==> y in r by {
        forall y | y != x && y in selected ensures y in r {
          var i :| 0 <= i < |selected| && selected[i] == y;
          assert Other(x)(selected[i]);
        }
      }
      FilterDrops(selected, Other(x), x);
      r
    else selected + [x]
  }

  /** A filter that rejects an element present in the list is shorter. */
  lemma {:induction false} FilterDrops<T>(s: seq<T>, p: T -> bool, x: T)
    requires x in s && !p(x)
    ensures |Filter(s, p)| < |s|
  {
    if s[0] != x {
      FilterDrops(s[1..], p, x);
    }
  }

  /** Removing `x` keeps every other value as many times as it occurred. */
  lemma RemoveKeepsCounts<T>(s: seq<T>, x: T, y: T)
    requires y != x
    ensures multiset(Filter(s, Other(x)))[y] == multiset(s)[y]
  {
    FilterMultiset(s, Other(x));
  }

  /** Toggling a value that was not selected twice restores the list. */
  lemma ToggleTwiceAbsent<T>(selected: seq<T>, x: T)
    requires x !in selected
    ensures Toggle(Toggle(selected, x), x) == selected
  {
    FilterConcat(selected, [x], Other(x));
    FilterAll(selected, Other(x));
    FilterNone([x], Other(x));
  }

  /** Toggling a selected value twice moves it to the end. */
  lemma ToggleTwicePresent<T>(selected: seq<T>, x: T)
    requires x in selected
    ensures Toggle(Toggle(selected, x), x) == Filter(selected, Other(x)) + [x]
  {
  }

  /** A list without repeats keeps none after a toggle. */
  lemma ToggleKeepsDistinct<T>(selected: seq<T>, x: T)
    requires Distinct(selected)
    ensures Distinct(Toggle(selected, x))
  {
    if x in selected {
      FilterDistinct(selected, Other(x));
    }
  }

  lemma {:induction false} FilterDistinct<T>(s: seq<T>, p: T -> bool)
    requires Distinct(s)
    ensures Distinct(Filter(s, p))
  {
    if |s| > 0 {
      FilterDistinct(s[1..], p);
      assert forall j :: 0 <= j < |s| - 1 ==> s[1..][j] != s[0];
    }
  }

  /** A toggle changes whether the filter admits a flight only through the
      toggled stop count: flights with other counts are judged as before. */
  lemma StopsToggleIsLocal(filters: FilterState, x: int, f: Flight)
    requires |filters.stops| > 0 && f.stops != x
    requires |Toggle(filters.stops, x)| > 0
    ensures StopsAllowed(filters.(stops := Toggle(filters.stops, x)), f) == StopsAllowed(filters, f)
  {
  }

  /** `handleSelectAll`: "Clear all" empties the airline selection, which
      then admits every airline. */
  function ClearAll(): (r: seq<string>)
    ensures |r| == 0
  {
    []
  }

  lemma ClearAllAdmitsAll(filters: FilterState, f: Flight)
    ensures AirlineAllowed(filters.(airlines := ClearAll()), f)
  {
  }

  /** The number of rows shown before expanding. */
  const Preview: nat := 5

  /** `showAll ? options : options.slice(0, 5)`. */
  function Displayed<T>(options: seq<T>, showAll: bool): (r: seq<T>)
    ensures showAll ==> r == options
    ensures !showAll ==> |r| == if |options| < Preview then |options| else Preview
    ensures r <= options
  {
    if showAll then options else Take(options, Preview)
  }

  /** `options.length > 5`. */
  predicate HasMore<T>(options: seq<T>)
  {
    |options| > Preview
  }

  /** Every option is shown exactly when the list is expanded or short; the
      expand control appears exactly when it would show more. */
  lemma DisplayedAll<T>(options: seq<T>, showAll: bool)
    ensures Displayed(options, showAll) == options <==> showAll || !HasMore(options)
    ensures HasMore(options) <==> Displayed(options, false) != options
  {
  }

  /** The expand control's text. */
  function ExpandText(options: seq<AirlineOption>, showAll: bool): (t: string)
    ensures showAll ==> t == "Show less"
    ensures !showAll ==> t == "Show all " + NatText(|options|) + " airlines"
  {
    if showAll then "Show less" else "Show all " + NatText(|options|) + " airlines"
  }

  /** The two texts of the expand control differ, and the collapsed one
      reads back the number of airlines after "Show all ". */
  lemma ExpandTextReadBack(options: seq<AirlineOption>, showAll: bool)
    ensures ExpandText(options, true) != ExpandText(options, false)
    ensures var t := ExpandText(options, showAll);
      !showAll ==>
        var count := t[9..];
        && t[..9] == "Show all "
        && DigitRun(count) == |NatText(|options|)|
        && DigitsValue(count[..DigitRun(count)]) == |options|
  {
    assert ExpandText(options, true)[5] != ExpandText(options, false)[5];
    var t := ExpandText(options, false);
    assert t[9..] == NatText(|options|) + " airlines";
    LeadingNumber(|options|, " airlines", t[9..]);
  }

  /** What the airline list renders: nothing for no options, else its rows
      and, when there are more than five, the expand control's text. */
  datatype AirlinePanel = AirlinePanel(rows: seq<AirlineOption>, expander: Option<string>, clearShown: bool)

  function RenderAirlines(options: seq<AirlineOption>, selected: seq<string>, showAll: bool): (r: Option<AirlinePanel>)
    ensures r.None? <==> |options| == 0
    ensures r.Some? ==> r.value.rows == Displayed(options, showAll)
    ensures r.Some? ==> (r.value.expander.Some? <==> HasMore(options))
    ensures r.Some? ==> (r.value.clearShown <==> |selected| > 0)
  {
    if |options| == 0 then None
    else Some(AirlinePanel(
      Displayed(options, showAll),
      if HasMore(options) then Some(ExpandText(options, showAll)) else None,
      |selected| > 0))
  }
}
