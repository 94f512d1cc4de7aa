/** `src/data/airports.ts`: the airport table and its two queries. The table
  itself is a parameter; the queries work on any table.
*/
module Airports {
  import opened Wrappers
  import opened Seqs
  import opened Text

  datatype Airport = Airport(code: string, name: string, city: string, country: string)

  /** `slice(0, 10)`: at most ten suggestions. */
  const MaxResults: nat := 10

  /** `query.toLowerCase().trim()`. */
  function NormalizeQuery(query: string): string
  {
    Trim(Lower(query))
  }

  /** The `filter` callback: the lower-cased code, city or name contains the
      normalised query. */
  function MatchesQuery(q: string): Airport -> bool
  {
    (a: Airport) => Contains(Lower(a.code), q) || Contains(Lower(a.city), q) || Contains(Lower(a.name), q)
  }

  /** `searchAirports(query)` over `table`. */
  function SearchAirports(table: seq<Airport>, query: string): (r: seq<Airport>)
    ensures NormalizeQuery(query) == [] ==> r == []
    ensures |r| <= MaxResults
    ensures forall i :: 0 <= i < |r| ==> r[i] in table && MatchesQuery(NormalizeQuery(query))(r[i])
    ensures Subsequence(r, table)
    ensures NormalizeQuery(query) != [] ==>
      var matches := Filter(table, MatchesQuery(NormalizeQuery(query)));
      && r <= matches
      && |r| == (if |matches| < MaxResults then |matches| else MaxResults)
  {
    var q := NormalizeQuery(query);
    if q == [] then []
    else
      var matches := Filter(table, MatchesQuery(q));
      SubsequenceTake(matches, table, MaxResults);
      Take(matches, MaxResults)
  }

  /** Fewer than ten suggestions means every matching airport is among
      them; a matching airport left out has ten matching airports before
      it in the table, and then there are exactly ten suggestions. */
  lemma SearchComplete(table: seq<Airport>, query: string, j: int)
    requires NormalizeQuery(query) != [] && 0 <= j < |table|
    requires MatchesQuery(NormalizeQuery(query))(table[j])
    ensures |SearchAirports(table, query)| < MaxResults ==> table[j] in SearchAirports(table, query)
    ensures table[j] !in SearchAirports(table, query) ==>
      && |SearchAirports(table, query)| == MaxResults
      && |Filter(table[..j], MatchesQuery(NormalizeQuery(query)))| >= MaxResults
  {
    var m := MatchesQuery(NormalizeQuery(query));
    var before := Filter(table[..j], m);
    FilterPosition(table, j, m);
    var r := SearchAirports(table, query);
    if |before| < MaxResults {
      assert r[|before|] == table[j];
    }
  }

  /** Lower-casing the query first changes nothing. */
  lemma SearchIgnoresCase(table: seq<Airport>, query: string)
    ensures SearchAirports(table, Lower(query)) == SearchAirports(table, query)
  {
    assert Lower(Lower(query)) == Lower(query);
  }

  /** `getAirportByCode(code)`: `find` with exact, case-sensitive equality. */
  function AirportByCode(table: seq<Airport>, code: string): (r: Option<Airport>)
    ensures r.None? <==> forall i :: 0 <= i < |table| ==> table[i].code != code
    ensures r.Some? ==> r.value in table && r.value.code == code
  {
    if |table| == 0 then None
    else if table[0].code == code then Some(table[0])
    else AirportByCode(table[1..], code)
  }

  /** The airport found is the first one with that code. */
  lemma {:induction false} AirportByCodeFirst(table: seq<Airport>, code: string) returns (i: int)
    requires AirportByCode(table, code).Some?
    ensures 0 <= i < |table| && table[i] == AirportByCode(table, code).value
    ensures forall j :: 0 <= j < i ==> table[j].code != code
  {
    if table[0].code == code {
      i := 0;
    } else {
      var k := AirportByCodeFirst(table[1..], code);
      i := k + 1;
    }
  }

  /** In a table whose codes are distinct, looking up the code of any
      airport finds that airport. */
  lemma AirportByCodeOfMember(table: seq<Airport>, k: int)
    requires 0 <= k < |table|
    requires forall i, j :: 0 <= i < j < |table| ==> table[i].code != table[j].code
    ensures AirportByCode(table, table[k].code) == Some(table[k])
  {
    var i := AirportByCodeFirst(table, table[k].code);
  }
}
