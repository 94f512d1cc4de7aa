/** `src/features/charts/utils/chartData.ts`: the per-airline price summary
  of the bar chart and the fixed-bucket histogram of the distribution chart.
*/
module ChartData {
  import opened Seqs
  import opened Text
  import opened FlightTypes
  import opened JsMath

  // ---------------------------------------------------------------------
  // aggregateByAirline

  datatype ChartPoint = ChartPoint(airline: string, airlineCode: string, minPrice: real, avgPrice: int, count: nat)

  /** Names longer than 15 characters keep their first 15 and gain "...". */
  function Shorten(name: string): (r: string)
    ensures |name| <= 15 ==> r == name
    ensures |name| > 15 ==> |r| == 18 && r[..15] == name[..15] && r[15..] == "..."
  {
    if |name| > 15 then name[..15] + "..." else name
  }

  /** `prices.reduce((a, b) => a + b, 0)`. */
  function SumPrices(flights: seq<Flight>): real
  {
    if |flights| == 0 then 0.0 else flights[0].price + SumPrices(flights[1..])
  }

  /** The data point of one `Map` entry: `group` holds the flights of
      `code`, in input order; the name is the first one's. */
  function PointOf(code: string, group: seq<Flight>): ChartPoint
    requires |group| > 0
  {
    ChartPoint(
      Shorten(group[0].airline),
      code,
      MinPrice(group),
      Round(SumPrices(group) / (|group| as real)),
      |group|)
  }

  function PointsOf(g: seq<(string, seq<Flight>)>): (r: seq<ChartPoint>)
    requires forall i :: 0 <= i < |g| ==> |g[i].1| > 0
    ensures |r| == |g|
    ensures forall i :: 0 <= i < |g| ==> r[i] == PointOf(g[i].0, g[i].1)
  {
    seq(|g|, i requires 0 <= i < |g| => PointOf(g[i].0, g[i].1))
  }

  function PointMin(p: ChartPoint): real
  {
    p.minPrice
  }

  function PointCode(p: ChartPoint): string
  {
    p.airlineCode
  }

  function PointCount(p: ChartPoint): int
  {
    p.count
  }

  /** `slice(0, end)`: a negative `end` counts back from the end. */
  function SliceFront<T>(s: seq<T>, end: int): (r: seq<T>)
    ensures |r| <= |s| && r == s[..|r|]
    ensures end >= 0 ==> |r| == (if end < |s| then end else |s|)
    ensures end < 0 ==> |r| == (if |s| + end > 0 then |s| + end else 0)
  {
    if end >= 0 then Take(s, end) else s[..if |s| + end > 0 then |s| + end else 0]
  }

  /** The points of every airline, sorted by `(a, b) => a.minPrice - b.minPrice`. */
  function SortedPoints(flights: seq<Flight>): seq<ChartPoint>
  {
    GroupsNonEmpty(flights, CodeOf);
    InsertionSort(PointsOf(GroupBy(flights, CodeOf)), PointMin)
  }

  /** `aggregateByAirline(flights, limit)`: cheapest airlines first, at most
      `limit` of them. */
  function AggregateByAirline(flights: seq<Flight>, limit: int): (r: seq<ChartPoint>)
    ensures SortedBy(r, PointMin)
    ensures limit >= 0 ==> |r| == (if limit < AirlineCount(flights) then limit else AirlineCount(flights))
  {
    SortedPointsDistinct(flights);
    var sorted := SortedPoints(flights);
    var r := SliceFront(sorted, limit);
    assert forall i :: 0 <= i < |r| ==> r[i] == sorted[i];
    r
  }

  /** Where an aggregated point comes from: the group of its code. */
  lemma PointSource(flights: seq<Flight>, limit: int, i: int) returns (group: seq<Flight>)
    requires 0 <= i < |AggregateByAirline(flights, limit)|
    ensures var p := AggregateByAirline(flights, limit)[i];
      && group == Filter(flights, KeyIs(CodeOf, p.airlineCode))
      && |group| > 0
      && p == PointOf(p.airlineCode, group)
  {
    var g := GroupBy(flights, CodeOf);
    GroupsNonEmpty(flights, CodeOf);
    GroupBySpec(flights, CodeOf);
    var points := PointsOf(g);
    var sorted := InsertionSort(points, PointMin);
    assert AggregateByAirline(flights, limit)[i] == sorted[i];
    var k := PermutedElement(points, sorted, i);
    group := g[k].1;
  }

  /** The number of distinct airline codes, that is, of `Map` entries. */
  function AirlineCount(flights: seq<Flight>): nat
  {
    |Dedup(MapSeq(flights, CodeOf))|
  }

  /** The sorted points are one per airline code. */
  lemma SortedPointsDistinct(flights: seq<Flight>)
    ensures |SortedPoints(flights)| == AirlineCount(flights)
    ensures Distinct(MapSeq(SortedPoints(flights), PointCode))
  {
    var g := GroupBy(flights, CodeOf);
    GroupsNonEmpty(flights, CodeOf);
    var points := PointsOf(g);
    var sorted := InsertionSort(points, PointMin);
    assert sorted == SortedPoints(flights);
    assert Keys(g) == Dedup(MapSeq(flights, CodeOf)) && Distinct(Keys(g)) by {
      GroupBySpec(flights, CodeOf);
    }
    assert Distinct(MapSeq(points, PointCode)) by {
      assert MapSeq(points, PointCode) == Keys(g);
    }
    PermutationDistinctBy(points, sorted, PointCode);
  }

  /** At most one point per airline, never two for the same code. */
  lemma AggregateDistinct(flights: seq<Flight>, limit: int)
    ensures |AggregateByAirline(flights, limit)| <= AirlineCount(flights)
    ensures Distinct(MapSeq(AggregateByAirline(flights, limit), PointCode))
  {
    var sorted := SortedPoints(flights);
    var r := AggregateByAirline(flights, limit);
    assert r == SliceFront(sorted, limit);
    SortedPointsDistinct(flights);
    var codes, rcodes := MapSeq(sorted, PointCode), MapSeq(r, PointCode);
    forall i, j | 0 <= i < j < |r| ensures rcodes[i] != rcodes[j] {
      assert rcodes[i] == codes[i] && rcodes[j] == codes[j];
    }
  }

  /** Every flight's airline has a sorted point, priced at most as the
      flight. */
  lemma PointOfFlight(flights: seq<Flight>, f: Flight) returns (k: int)
    requires f in flights
    ensures 0 <= k < |SortedPoints(flights)|
    ensures SortedPoints(flights)[k].airlineCode == f.airlineCode
    ensures SortedPoints(flights)[k].minPrice <= f.price
  {
    var code := f.airlineCode;
    var g := GroupBy(flights, CodeOf);
    GroupsNonEmpty(flights, CodeOf);
    var i: int;
    assert exists i :: 0 <= i < |g| && g[i].0 == code && g[i].1 == Filter(flights, KeyIs(CodeOf, code)) by {
      GroupBySpec(flights, CodeOf);
      var j :| 0 <= j < |flights| && flights[j] == f;
      assert MapSeq(flights, CodeOf)[j] == code;
      assert code in Keys(g);
      var i :| 0 <= i < |g| && Keys(g)[i] == code;
    }
    i :| 0 <= i < |g| && g[i].0 == code && g[i].1 == Filter(flights, KeyIs(CodeOf, code));
    var points := PointsOf(g);
    GroupMinPrice(flights, code, g[i].1);
    assert points[i].minPrice <= f.price && points[i].airlineCode == code;
    k := PermutedElement(SortedPoints(flights), points, i);
  }

  /** The limit cuts off the dearest airlines: an airline left out has no
      flight cheaper than any kept point's lowest price. */
  lemma CheapestKept(flights: seq<Flight>, limit: int, f: Flight)
    requires f in flights
    requires f.airlineCode !in MapSeq(AggregateByAirline(flights, limit), PointCode)
    ensures var r := AggregateByAirline(flights, limit);
      forall i :: 0 <= i < |r| ==> r[i].minPrice <= f.price
  {
    var sorted := SortedPoints(flights);
    var k := PointOfFlight(flights, f);
    var r := AggregateByAirline(flights, limit);
    assert r == sorted[..|r|];
    assert k >= |r|;
    forall m | 0 <= m < |r| ensures r[m].minPrice <= f.price {
      assert r[m] == sorted[m] && PointMin(sorted[m]) <= PointMin(sorted[k]);
    }
  }

  /** Each point counts exactly the flights of its code, at least one. */
  lemma AggregateCounts(flights: seq<Flight>, limit: int)
    ensures var r := AggregateByAirline(flights, limit);
      forall i :: 0 <= i < |r| ==> r[i].count == |Filter(flights, KeyIs(CodeOf, r[i].airlineCode))| >= 1
  {
    var r := AggregateByAirline(flights, limit);
    forall i | 0 <= i < |r| ensures r[i].count == |Filter(flights, KeyIs(CodeOf, r[i].airlineCode))| >= 1 {
      var group := PointSource(flights, limit, i);
    }
  }

  /** The lowest price of one point's flights. */
  lemma PointMinPrice(flights: seq<Flight>, limit: int, i: int)
    requires 0 <= i < |AggregateByAirline(flights, limit)|
    ensures var p := AggregateByAirline(flights, limit)[i];
      && (forall f :: f in flights && f.airlineCode == p.airlineCode ==> p.minPrice <= f.price)
      && (exists f :: f in flights && f.airlineCode == p.airlineCode && f.price == p.minPrice)
  {
    var p := AggregateByAirline(flights, limit)[i];
    var group := PointSource(flights, limit, i);
    GroupMinPrice(flights, p.airlineCode, group);
  }

  /** The lowest price of the flights of one code. */
  lemma GroupMinPrice(flights: seq<Flight>, code: string, group: seq<Flight>)
    requires group == Filter(flights, KeyIs(CodeOf, code)) && |group| > 0
    ensures forall f :: f in flights && f.airlineCode == code ==> MinPrice(group) <= f.price
    ensures exists f :: f in flights && f.airlineCode == code && f.price == MinPrice(group)
  {
    forall f | f in flights && f.airlineCode == code ensures MinPrice(group) <= f.price {
      var j :| 0 <= j < |flights| && flights[j] == f;
      assert KeyIs(CodeOf, code)(flights[j]);
    }
    var k :| 0 <= k < |group| && group[k].price == MinPrice(group);
    assert group[k] in flights && KeyIs(CodeOf, code)(group[k]);
  }

  /** Each point's `minPrice` is the lowest price among the flights of its
      code. */
  lemma AggregateMinPrice(flights: seq<Flight>, limit: int)
    ensures var r := AggregateByAirline(flights, limit);
      forall i :: 0 <= i < |r| ==>
        && (forall f :: f in flights && f.airlineCode == r[i].airlineCode ==> r[i].minPrice <= f.price)
        && (exists f :: f in flights && f.airlineCode == r[i].airlineCode && f.price == r[i].minPrice)
  {
    var r := AggregateByAirline(flights, limit);
    forall i | 0 <= i < |r|
      ensures forall f :: f in flights && f.airlineCode == r[i].airlineCode ==> r[i].minPrice <= f.price
      ensures exists f :: f in flights && f.airlineCode == r[i].airlineCode && f.price == r[i].minPrice
    {
      PointMinPrice(flights, limit, i);
    }
  }

  /** Each point's `avgPrice` is the mean price of its flights, rounded
      half up, and its name the (shortened) name on the first flight of
      that code. */
  lemma AggregateAverageAndName(flights: seq<Flight>, limit: int)
    ensures var r := AggregateByAirline(flights, limit);
      var codes := MapSeq(flights, CodeOf);
      forall i :: 0 <= i < |r| ==>
        var group := Filter(flights, KeyIs(CodeOf, r[i].airlineCode));
        && |group| > 0
        && r[i].avgPrice == Round(SumPrices(group) / (|group| as real))
        && FirstIndex(codes, r[i].airlineCode) < |flights|
        && r[i].airline == Shorten(flights[FirstIndex(codes, r[i].airlineCode)].airline)
  {
    var r := AggregateByAirline(flights, limit);
    forall i | 0 <= i < |r|
      ensures var group := Filter(flights, KeyIs(CodeOf, r[i].airlineCode));
        && |group| > 0
        && r[i].avgPrice == Round(SumPrices(group) / (|group| as real))
        && FirstIndex(MapSeq(flights, CodeOf), r[i].airlineCode) < |flights|
        && r[i].airline == Shorten(flights[FirstIndex(MapSeq(flights, CodeOf), r[i].airlineCode)].airline)
    {
      var group := PointSource(flights, limit, i);
      var code := r[i].airlineCode;
      var f := group[0];
      assert f in flights && KeyIs(CodeOf, code)(f);
      var j :| 0 <= j < |flights| && flights[j] == f;
      assert MapSeq(flights, CodeOf)[j] == code;
      FilterFirst(flights, CodeOf, code);
    }
  }

  lemma {:induction false} PointsTotal(g: seq<(string, seq<Flight>)>)
    requires forall i :: 0 <= i < |g| ==> |g[i].1| > 0
    ensures SumBy(PointsOf(g), PointCount) == TotalSize(g)
  {
    if |g| > 0 {
      assert PointsOf(g)[1..] == PointsOf(g[1..]);
      PointsTotal(g[1..]);
    }
  }

  /** When the limit leaves every airline in, the counts add up to the
      number of flights. */
  lemma AggregateTotal(flights: seq<Flight>, limit: int)
    requires limit >= AirlineCount(flights)
    ensures SumBy(AggregateByAirline(flights, limit), PointCount) == |flights|
  {
    var g := GroupBy(flights, CodeOf);
    GroupsNonEmpty(flights, CodeOf);
    GroupBySpec(flights, CodeOf);
    var points := PointsOf(g);
    var sorted := InsertionSort(points, PointMin);
    assert |sorted| == |Keys(g)|;
    assert AggregateByAirline(flights, limit) == sorted;
    InsertionSortSum(points, PointMin, PointCount);
    PointsTotal(g);
  }

  // ---------------------------------------------------------------------
  // getPriceDistribution

  datatype PriceBucket = PriceBucket(range: string, count: nat, minPrice: real, maxPrice: real)

  /** `Math.ceil((max - min) / buckets) || 1`. */
  function BucketSize(lo: real, hi: real, buckets: int): (size: int)
    requires buckets > 0 && lo <= hi
    ensures size >= 1
    ensures (hi - lo) / (buckets as real) <= size as real
    ensures size == 1 || ((size - 1) as real) < (hi - lo) / (buckets as real)
    ensures size == 1 <==> (hi - lo) / (buckets as real) <= 1.0
  {
    var c := Ceil((hi - lo) / (buckets as real));
    if c == 0 then 1 else c
  }

  function BucketLow(lo: real, size: int, i: int): real
  {
    lo + (i * size) as real
  }

  /** The last bucket ends at the highest price itself. */
  function BucketHigh(lo: real, hi: real, size: int, buckets: int, i: int): real
  {
    if i == buckets - 1 then hi else lo + ((i + 1) * size) as real
  }

  /** `p >= bucketMin && p <= bucketMax`: both ends inclusive. */
  function InRange(a: real, b: real): Flight -> bool
  {
    (f: Flight) => a <= f.price <= b
  }

  function CountIn(flights: seq<Flight>, a: real, b: real): nat
  {
    |Filter(flights, InRange(a, b))|
  }

  /** The `i`-th entry the loop would push. */
  function BucketAt(flights: seq<Flight>, lo: real, hi: real, size: int, buckets: int, i: int): PriceBucket
  {
    var a := BucketLow(lo, size, i);
    var b := BucketHigh(lo, hi, size, buckets, i);
    PriceBucket(RangeText(a, b), CountIn(flights, a, b), a, b)
  }

  /** `$${Math.round(bucketMin)}-${Math.round(bucketMax)}`. */
  function RangeText(a: real, b: real): string
  {
    "$" + IntText(Round(a)) + "-" + IntText(Round(b))
  }

  /** The lowest price lies in the first bucket. */
  lemma FirstBucketHoldsMin(flights: seq<Flight>, buckets: int)
    requires |flights| > 0 && buckets > 0
    ensures var lo, hi := MinPrice(flights), MaxPrice(flights);
      BucketAt(flights, lo, hi, BucketSize(lo, hi, buckets), buckets, 0).count > 0
  {
    var lo, hi := MinPrice(flights), MaxPrice(flights);
    var size := BucketSize(lo, hi, buckets);
    var b := BucketHigh(lo, hi, size, buckets, 0);
    var j :| 0 <= j < |flights| && flights[j].price == lo;
    assert InRange(lo, b)(flights[j]);
    assert flights[j] in Filter(flights, InRange(lo, b));
  }

  /** `getPriceDistribution(flights, buckets)`. Because the first bucket
      always holds the lowest price, the leading-empty-bucket suppression
      never drops anything: there are exactly `buckets` entries, the first
      starting at the lowest price and the last ending at the highest. */
  method GetPriceDistribution(flights: seq<Flight>, buckets: int) returns (dist: seq<PriceBucket>)
    ensures |flights| == 0 || buckets <= 0 ==> dist == []
    ensures |flights| > 0 && buckets > 0 ==>
      var lo, hi := MinPrice(flights), MaxPrice(flights);
      && |dist| == buckets
      && dist[0].minPrice == lo
      && dist[buckets - 1].maxPrice == hi
      && forall k :: 0 <= k < buckets ==> dist[k] == BucketAt(flights, lo, hi, BucketSize(lo, hi, buckets), buckets, k)
  {
    dist := [];
    if |flights| == 0 || buckets <= 0 {
      return;
    }
    var lo := MinPrice(flights);
    var hi := MaxPrice(flights);
    var size := BucketSize(lo, hi, buckets);
    FirstBucketHoldsMin(flights, buckets);
    var i := 0;
    while i < buckets
      invariant 0 <= i <= buckets
      invariant |dist| == i
      invariant BucketsUpTo(dist, flights, lo, hi, size, buckets)
    {
      var bucketMin := BucketLow(lo, size, i);
      var bucketMax := BucketHigh(lo, hi, size, buckets, i);
      var count := CountIn(flights, bucketMin, bucketMax);
      if count > 0 || |dist| > 0 {
        var entry := PriceBucket(RangeText(bucketMin, bucketMax), count, bucketMin, bucketMax);
        assert entry == BucketAt(flights, lo, hi, size, buckets, i);
        BucketsExtend(dist, entry, flights, lo, hi, size, buckets);
        dist := dist + [entry];
      }
      i := i + 1;
    }
  }

  /** `dist` holds buckets `0 .. |dist|-1` in order. */
  ghost predicate BucketsUpTo(dist: seq<PriceBucket>, flights: seq<Flight>, lo: real, hi: real, size: int, buckets: int)
  {
    Agrees(dist, BucketFn(flights, lo, hi, size, buckets))
  }

  function BucketFn(flights: seq<Flight>, lo: real, hi: real, size: int, buckets: int): int -> PriceBucket
  {
    k => BucketAt(flights, lo, hi, size, buckets, k)
  }

  lemma BucketsExtend(dist: seq<PriceBucket>, entry: PriceBucket, flights: seq<Flight>, lo: real, hi: real, size: int, buckets: int)
    requires BucketsUpTo(dist, flights, lo, hi, size, buckets)
    requires entry == BucketAt(flights, lo, hi, size, buckets, |dist|)
    ensures BucketsUpTo(dist + [entry], flights, lo, hi, size, buckets)
  {
    AgreesExtend(dist, entry, BucketFn(flights, lo, hi, size, buckets));
  }

  /** Every price lies in some bucket. */
  lemma EveryPriceBucketed(flights: seq<Flight>, buckets: int, j: int) returns (k: int)
    requires buckets > 0 && 0 <= j < |flights|
    ensures var lo, hi := MinPrice(flights), MaxPrice(flights);
      var size := BucketSize(lo, hi, buckets);
      && 0 <= k < buckets
      && BucketLow(lo, size, k) <= flights[j].price <= BucketHigh(lo, hi, size, buckets, k)
  {
    var lo, hi := MinPrice(flights), MaxPrice(flights);
    var size := BucketSize(lo, hi, buckets);
    var p := flights[j].price;
    k := 0;
    while k < buckets - 1 && BucketLow(lo, size, k + 1) <= p
      invariant 0 <= k < buckets
      invariant BucketLow(lo, size, k) <= p
    {
      k := k + 1;
    }
  }

  /** No flight falls between the buckets: each is among those counted by
      some bucket of the distribution. */
  lemma EveryFlightCounted(flights: seq<Flight>, buckets: int, j: int) returns (k: int)
    requires buckets > 0 && 0 <= j < |flights|
    ensures var lo, hi := MinPrice(flights), MaxPrice(flights);
      var b := BucketAt(flights, lo, hi, BucketSize(lo, hi, buckets), buckets, k);
      && 0 <= k < buckets
      && flights[j] in Filter(flights, InRange(b.minPrice, b.maxPrice))
      && b.count > 0
  {
    var lo, hi := MinPrice(flights), MaxPrice(flights);
    var size := BucketSize(lo, hi, buckets);
    k := EveryPriceBucketed(flights, buckets, j);
    var b := BucketAt(flights, lo, hi, size, buckets, k);
    assert InRange(b.minPrice, b.maxPrice)(flights[j]);
  }

  /** A price on the edge shared by two neighbouring buckets is counted in
      both. */
  lemma SharedEdgeCountedTwice(flights: seq<Flight>, lo: real, hi: real, size: int, buckets: int, k: int, j: int)
    requires 0 <= k && k + 1 < buckets && 0 <= j < |flights|
    requires BucketLow(lo, size, k) <= flights[j].price
    requires flights[j].price == BucketLow(lo, size, k + 1) <= BucketHigh(lo, hi, size, buckets, k + 1)
    ensures flights[j] in Filter(flights, InRange(BucketLow(lo, size, k), BucketHigh(lo, hi, size, buckets, k)))
    ensures flights[j] in Filter(flights, InRange(BucketLow(lo, size, k + 1), BucketHigh(lo, hi, size, buckets, k + 1)))
  {
    assert BucketHigh(lo, hi, size, buckets, k) == BucketLow(lo, size, k + 1);
    assert InRange(BucketLow(lo, size, k), BucketHigh(lo, hi, size, buckets, k))(flights[j]);
    assert InRange(BucketLow(lo, size, k + 1), BucketHigh(lo, hi, size, buckets, k + 1))(flights[j]);
  }
}
