/** The pure updaters of `src/features/search/hooks/useSearchHistory.ts`:
  `addSearch`, `removeItem` and `clearHistory`. The fresh id
  (`crypto.randomUUID()`) and the clock (`Date.now()`) are parameters, and
  `localStorage` is not modelled.
*/
module SearchHistory {
  import opened Seqs
  import opened SearchTypes

  datatype HistoryItem = HistoryItem(params: SearchParams, id: string, timestamp: int)

  /** `MAX_HISTORY_ITEMS`. */
  const MaxHistoryItems: nat := 5

  /** Two searches are the same when origin, destination and departure date
      agree; the other fields do not take part. */
  predicate SameSearch(a: SearchParams, b: SearchParams)
  {
    a.origin == b.origin && a.destination == b.destination && a.departureDate == b.departureDate
  }

  /** `prev.findIndex(...)`, with `|prev|` standing for `-1`. */
  function FindSearch(prev: seq<HistoryItem>, p: SearchParams): (i: nat)
    ensures i <= |prev|
    ensures i < |prev| ==> SameSearch(prev[i].params, p)
    ensures forall j :: 0 <= j < i ==> !SameSearch(prev[j].params, p)
    ensures i == |prev| <==> forall j :: 0 <= j < |prev| ==> !SameSearch(prev[j].params, p)
  {
    if |prev| == 0 then 0
    else if SameSearch(prev[0].params, p) then 0
    else 1 + FindSearch(prev[1..], p)
  }

  /** `prev` without its `i`-th item. */
  function Without(prev: seq<HistoryItem>, i: nat): (r: seq<HistoryItem>)
    requires i < |prev|
    ensures |r| == |prev| - 1
    ensures forall k :: 0 <= k < i ==> r[k] == prev[k]
    ensures forall k :: i <= k < |r| ==> r[k] == prev[k + 1]
  {
    prev[..i] + prev[i + 1..]
  }

  /** The updater `addSearch(params)` hands to `setHistory`. */
  function AddSearch(prev: seq<HistoryItem>, p: SearchParams, newId: string, now: int): (r: seq<HistoryItem>)
    ensures |r| > 0 && r[0].params == p && r[0].timestamp == now
    ensures FindSearch(prev, p) < |prev| ==>
      && r[0].id == prev[FindSearch(prev, p)].id
      && |r| == |prev|
      && multiset(r[1..]) + multiset{prev[FindSearch(prev, p)]} == multiset(prev)
    ensures FindSearch(prev, p) == |prev| ==>
      && r[0].id == newId
      && |r| == (if |prev| < MaxHistoryItems then |prev| + 1 else MaxHistoryItems)
      && forall k :: 1 <= k < |r| ==> r[k] == prev[k - 1]
  {
    var i := FindSearch(prev, p);
    if i < |prev| then
      var rest := Without(prev, i);
      assert prev == prev[..i] + [prev[i]] + prev[i + 1..];
      [HistoryItem(p, prev[i].id, now)] + rest
    else
      Take([HistoryItem(p, newId, now)] + prev, MaxHistoryItems)
  }

  /** Moving an existing search to the front keeps the other items in their
      order. */
  lemma AddExistingKeepsOrder(prev: seq<HistoryItem>, p: SearchParams, newId: string, now: int)
    requires FindSearch(prev, p) < |prev|
    ensures var r, i := AddSearch(prev, p, newId, now), FindSearch(prev, p);
      r[1..] == prev[..i] + prev[i + 1..]
  {
  }

  /** A history of at most five items stays within five. */
  lemma AddSearchBounded(prev: seq<HistoryItem>, p: SearchParams, newId: string, now: int)
    requires |prev| <= MaxHistoryItems
    ensures |AddSearch(prev, p, newId, now)| <= MaxHistoryItems
  {
  }

  /** No two items describe the same search. */
  predicate SearchesDistinct(h: seq<HistoryItem>)
  {
    forall i, j :: 0 <= i < j < |h| ==> !SameSearch(h[i].params, h[j].params)
  }

  /** Adding a search never creates a duplicate. */
  lemma AddSearchKeepsDistinct(prev: seq<HistoryItem>, p: SearchParams, newId: string, now: int)
    requires SearchesDistinct(prev)
    ensures SearchesDistinct(AddSearch(prev, p, newId, now))
  {
    var r := AddSearch(prev, p, newId, now);
    var i := FindSearch(prev, p);
    forall a, b | 0 <= a < b < |r| ensures !SameSearch(r[a].params, r[b].params) {
      if i < |prev| {
        var rest := Without(prev, i);
        assert r[b] == rest[b - 1];
        var pb := if b - 1 < i then b - 1 else b;
        assert r[b] == prev[pb] && pb != i;
        if a == 0 {
          if pb < i {
            assert !SameSearch(prev[pb].params, p);
          } else {
            assert !SameSearch(prev[i].params, prev[pb].params);
          }
        } else {
          assert r[a] == rest[a - 1];
          var pa := if a - 1 < i then a - 1 else a;
          assert r[a] == prev[pa] && pa < pb;
        }
      } else {
        assert r[b] == prev[b - 1];
        if a > 0 {
          assert r[a] == prev[a - 1];
        }
      }
    }
  }

  /** `removeItem(id)`: `prev.filter(item => item.id !== id)`. */
  function IdIsNot(id: string): HistoryItem -> bool
  {
    (item: HistoryItem) => item.id != id
  }

  function RemoveItem(prev: seq<HistoryItem>, id: string): (r: seq<HistoryItem>)
    ensures Subsequence(r, prev)
    ensures forall k :: 0 <= k < |r| ==> r[k].id != id
    ensures forall k :: 0 <= k < |prev| && prev[k].id != id ==> prev[k] in r
    ensures forall x :: multiset(r)[x] == if x.id != id then multiset(prev)[x] else 0
  {
    FilterMultiset(prev, IdIsNot(id));
    Filter(prev, IdIsNot(id))
  }

  /** Removing an id that no item carries changes nothing. */
  lemma RemoveAbsent(prev: seq<HistoryItem>, id: string)
    requires forall k :: 0 <= k < |prev| ==> prev[k].id != id
    ensures RemoveItem(prev, id) == prev
  {
    FilterAll(prev, IdIsNot(id));
  }

  /** Removal preserves the no-duplicate invariant. */
  lemma RemoveKeepsDistinct(prev: seq<HistoryItem>, id: string)
    requires SearchesDistinct(prev)
    ensures SearchesDistinct(RemoveItem(prev, id))
  {
    SubsequenceDistinctBy(RemoveItem(prev, id), prev);
  }

  lemma {:induction false} SubsequenceDistinctBy(a: seq<HistoryItem>, b: seq<HistoryItem>)
    requires Subsequence(a, b) && SearchesDistinct(b)
    ensures SearchesDistinct(a)
    decreases |b|
  {
    if |a| > 0 {
      if a[0] == b[0] && Subsequence(a[1..], b[1..]) {
        SubsequenceDistinctBy(a[1..], b[1..]);
        forall j | 0 < j < |a| ensures !SameSearch(a[0].params, a[j].params) {
          var k := SubsequenceMember(a[1..], b[1..], j - 1);
          assert a[j] == b[k + 1];
        }
      } else {
        SubsequenceDistinctBy(a, b[1..]);
      }
    }
  }

  /** `clearHistory()`: the history becomes empty. */
  const Cleared: seq<HistoryItem> := []

  /** After clearing, the next search is the only item, whatever it was. */
  lemma ClearThenAdd(p: SearchParams, newId: string, now: int)
    ensures AddSearch(Cleared, p, newId, now) == [HistoryItem(p, newId, now)]
  {
  }
}
