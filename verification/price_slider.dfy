/** The price slider of `src/features/filters/components/PriceSlider.tsx`:
  the bounds it shows, the ranges its two handles emit, its reset, and the
  "active" flag that shows the reset control. Prices are exact reals.
*/
module PriceSlider {
  import opened Wrappers
  import opened FlightTypes
  import opened Filters
  import opened FilterHook

  /** What a handler passes to `onChange`, if it calls it at all. */
  datatype Emission = Nothing | Emit(range: Option<(real, real)>)

  /** `value?.[0] ?? min`. */
  function CurrentMin(min: real, value: Option<(real, real)>): real
  {
    if value.Some? then value.value.0 else min
  }

  /** `value?.[1] ?? max`. */
  function CurrentMax(max: real, value: Option<(real, real)>): real
  {
    if value.Some? then value.value.1 else max
  }

  /** `handleMinChange`: the lower handle moves only while it stays at or
      below the upper one. */
  function MinChange(min: real, max: real, value: Option<(real, real)>, newMin: real): (e: Emission)
    ensures e.Emit? <==> newMin <= CurrentMax(max, value)
    ensures e.Emit? ==> e.range == Some((newMin, CurrentMax(max, value)))
  {
    if newMin <= CurrentMax(max, value) then Emit(Some((newMin, CurrentMax(max, value)))) else Nothing
  }

  /** `handleMaxChange`: the upper handle moves only while it stays at or
      above the lower one. */
  function MaxChange(min: real, max: real, value: Option<(real, real)>, newMax: real): (e: Emission)
    ensures e.Emit? <==> CurrentMin(min, value) <= newMax
    ensures e.Emit? ==> e.range == Some((CurrentMin(min, value), newMax))
  {
    if newMax >= CurrentMin(min, value) then Emit(Some((CurrentMin(min, value), newMax))) else Nothing
  }

  /** `handleReset`. */
  function Reset(): (e: Emission)
    ensures e.Emit? && e.range.None?
  {
    Emit(None)
  }

  /** `isActive`: a range is set and it narrows at least one bound. */
  predicate IsActive(min: real, max: real, value: Option<(real, real)>)
  {
    value != None && (CurrentMin(min, value) > min || CurrentMax(max, value) < max)
  }

  /** The value the parent holds after an emission. */
  function Apply(value: Option<(real, real)>, e: Emission): Option<(real, real)>
  {
    if e.Emit? then e.range else value
  }

  /** A handle emits only ordered ranges, whatever the current value. */
  lemma EmittedRangesOrdered(min: real, max: real, value: Option<(real, real)>, x: real)
    ensures var e := MinChange(min, max, value, x);
      e.Emit? ==> e.range.Some? && e.range.value.0 <= e.range.value.1
    ensures var e := MaxChange(min, max, value, x);
      e.Emit? ==> e.range.Some? && e.range.value.0 <= e.range.value.1
  {
  }

  /** A handle move changes its own bound to the new position and leaves the
      other bound where it was; a refused move changes nothing. */
  lemma HandleMovesOneBound(min: real, max: real, value: Option<(real, real)>, x: real)
    ensures var v := Apply(value, MinChange(min, max, value, x));
      && CurrentMax(max, v) == CurrentMax(max, value)
      && CurrentMin(min, v) == (if x <= CurrentMax(max, value) then x else CurrentMin(min, value))
    ensures var v := Apply(value, MaxChange(min, max, value, x));
      && CurrentMin(min, v) == CurrentMin(min, value)
      && CurrentMax(max, v) == (if x >= CurrentMin(min, value) then x else CurrentMax(max, value))
  {
  }

  /** An ordered range stays ordered through any handle move. */
  lemma OrderKept(min: real, max: real, value: Option<(real, real)>, x: real)
    requires CurrentMin(min, value) <= CurrentMax(max, value)
    ensures var v := Apply(value, MinChange(min, max, value, x)); CurrentMin(min, v) <= CurrentMax(max, v)
    ensures var v := Apply(value, MaxChange(min, max, value, x)); CurrentMin(min, v) <= CurrentMax(max, v)
  {
  }

  /** No range, no reset control; with a range, the control shows exactly
      when the range is strictly inside `[min, max]` on some side. */
  lemma ActiveMeaning(min: real, max: real, value: Option<(real, real)>)
    ensures value.None? ==> !IsActive(min, max, value)
    ensures value.Some? ==> (IsActive(min, max, value) <==> value.value.0 > min || value.value.1 < max)
    ensures !IsActive(min, max, Apply(value, Reset()))
  {
  }

  /** Dragging the handles back to the ends hides the slider's reset
      control, yet the filter hook still counts the price range as an active
      filter: the two notions of "active" differ. */
  lemma FullRangeStillFilters(min: real, max: real, filters: FilterState)
    requires min <= max
    ensures var value := Some((min + 1.0, max));
      var v := Apply(value, MinChange(min, max, value, min));
      && v == Some((min, max))
      && !IsActive(min, max, v)
      && HasActiveFilters(UpdateFilter(filters, SetPriceRange(v)))
  {
  }
}
