/** The summary line of `src/features/flights/components/FlightSummary.tsx`:
  the result count, the lowest price with its currency, and the nonstop,
  one-stop and multi-stop counters. `formatPrice` is locale formatting and
  is not part of this model: the summary carries the price and currency it
  would format.
*/
module FlightSummary {
  import opened Wrappers
  import opened Seqs
  import opened Text
  import opened FlightTypes

  datatype Summary = Summary(
    header: string,
    minPrice: real,
    currency: string,
    nonStop: nat,
    oneStop: nat,
    multiStop: nat)

  function StopsAre(n: int): Flight -> bool
  {
    (f: Flight) => f.stops == n
  }

  function StopsAbove(n: int): Flight -> bool
  {
    (f: Flight) => f.stops > n
  }

  /** `${n} flights`, or `${n} of ${totalCount} flights` when the list is
      a filtered part of the results. */
  function Header(n: nat, totalCount: int): string
  {
    NatText(n) + HeaderTail(n, totalCount)
  }

  /** What follows the count. */
  function HeaderTail(n: nat, totalCount: int): (t: string)
    ensures |t| > 1 && t[0] == ' '
    ensures t == " flights" <==> n == totalCount
    ensures n != totalCount ==> t == " of " + IntText(totalCount) + " flights"
  {
    if n == totalCount then " flights" else " of " + IntText(totalCount) + " flights"
  }

  /** The component: nothing for an empty list. */
  function Summarize(flights: seq<Flight>, totalCount: int): (r: Option<Summary>)
    ensures r.None? <==> |flights| == 0
    ensures r.Some? ==> r.value.header == Header(|flights|, totalCount)
    ensures r.Some? ==>
      && (forall i :: 0 <= i < |flights| ==> r.value.minPrice <= flights[i].price)
      && (exists i :: 0 <= i < |flights| && r.value.minPrice == flights[i].price)
      && r.value.currency == flights[0].currency
    ensures r.Some? ==>
      && r.value.nonStop == |Filter(flights, StopsAre(0))|
      && r.value.oneStop == |Filter(flights, StopsAre(1))|
      && r.value.multiStop == |Filter(flights, StopsAbove(1))|
  {
    if |flights| == 0 then None
    else Some(Summary(
      Header(|flights|, totalCount),
      MinPrice(flights),
      flights[0].currency,
      |Filter(flights, StopsAre(0))|,
      |Filter(flights, StopsAre(1))|,
      |Filter(flights, StopsAbove(1))|))
  }

  /** With no negative stop counts, every flight falls in exactly one of the
      three counters. */
  lemma {:induction false} CountersPartition(flights: seq<Flight>)
    requires forall i :: 0 <= i < |flights| ==> flights[i].stops >= 0
    ensures |Filter(flights, StopsAre(0))| + |Filter(flights, StopsAre(1))| + |Filter(flights, StopsAbove(1))|
         == |flights|
  {
    if |flights| > 0 {
      CountersPartition(flights[1..]);
    }
  }

  /** The summary's counters add up to the number of flights shown. */
  lemma SummaryCountsAll(flights: seq<Flight>, totalCount: int)
    requires |flights| > 0
    requires forall i :: 0 <= i < |flights| ==> flights[i].stops >= 0
    ensures var s := Summarize(flights, totalCount).value;
      s.nonStop + s.oneStop + s.multiStop == |flights|
  {
    CountersPartition(flights);
  }

  /** The header starts with the number of flights shown, which reads back
      from its leading digits, and it is the short form exactly when that
      number is the total. */
  lemma HeaderReadBack(n: nat, totalCount: int)
    ensures var h := Header(n, totalCount);
      && DigitRun(h) == |NatText(n)|
      && DigitsValue(h[..DigitRun(h)]) == n
      && (h == NatText(n) + " flights" <==> n == totalCount)
  {
    var tail := HeaderTail(n, totalCount);
    LeadingNumber(n, tail, Header(n, totalCount));
    ShortFormIff(NatText(n), tail, n == totalCount);
  }

  /** Two headers with the same count differ exactly when their tails do. */
  lemma ShortFormIff(digits: string, tail: string, same: bool)
    requires same <==> tail == " flights"
    ensures digits + tail == digits + " flights" <==> same
  {
    if digits + tail == digits + " flights" {
      assert tail == (digits + tail)[|digits|..];
    }
  }
}
