/** Sequence operations the JavaScript code gets from `Array.prototype` and
  `Map`, stated once and proved once:

  - `Filter` is `Array.prototype.filter`;
  - `Take` is `slice(0, n)` for a non-negative `n`;
  - `GroupBy` is the `Map` a loop builds by "get, then set or append": its
    entries are in first-insertion order and each holds its members in order;
  - `InsertionSort` is a stable `Array.prototype.sort` with the numeric
    comparator `(a, b) => key(a) - key(b)`.
*/
module Seqs {

  /** Greedy-free definition of "a is obtained from b by deleting elements". */
  ghost predicate Subsequence<T>(a: seq<T>, b: seq<T>)
    decreases |b|
  {
    |a| == 0 || (|b| > 0 && ((a[0] == b[0] && Subsequence(a[1..], b[1..])) || Subsequence(a, b[1..])))
  }

  predicate Distinct<T(==)>(s: seq<T>)
  {
    forall i, j :: 0 <= i < j < |s| ==> s[i] != s[j]
  }

  /** The elements of `s` satisfying `p`, in input order. */
  function Filter<T(==)>(s: seq<T>, p: T -> bool): (r: seq<T>)
    ensures |r| <= |s|
    ensures forall i :: 0 <= i < |r| ==> r[i] in s && p(r[i])
    ensures forall i :: 0 <= i < |s| && p(s[i]) ==> s[i] in r
    ensures Subsequence(r, s)
  {
    if |s| == 0 then []
    else if p(s[0]) then [s[0]] + Filter(s[1..], p)
    else Filter(s[1..], p)
  }

  lemma {:induction false} FilterConcat<T>(a: seq<T>, b: seq<T>, p: T -> bool)
    ensures Filter(a + b, p) == Filter(a, p) + Filter(b, p)
  {
    if |a| == 0 {
      assert a + b == b;
    } else {
      assert (a + b)[1..] == a[1..] + b;
      FilterConcat(a[1..], b, p);
    }
  }

  /** Keeping what satisfies `p` twice is keeping it once. */
  lemma {:induction false} FilterIdempotent<T>(s: seq<T>, p: T -> bool)
    ensures Filter(Filter(s, p), p) == Filter(s, p)
  {
    if |s| > 0 {
      FilterIdempotent(s[1..], p);
      if p(s[0]) {
        assert ([s[0]] + Filter(s[1..], p))[1..] == Filter(s[1..], p);
      }
    }
  }

  /** A filter whose predicate holds everywhere is the identity. */
  lemma {:induction false} FilterAll<T>(s: seq<T>, p: T -> bool)
    requires forall i :: 0 <= i < |s| ==> p(s[i])
    ensures Filter(s, p) == s
  {
    if |s| > 0 {
      FilterAll(s[1..], p);
      assert [s[0]] + s[1..] == s;
    }
  }

  /** A filter whose predicate holds nowhere is empty. */
  lemma {:induction false} FilterNone<T>(s: seq<T>, p: T -> bool)
    requires forall i :: 0 <= i < |s| ==> !p(s[i])
    ensures Filter(s, p) == []
  {
    if |s| > 0 {
      FilterNone(s[1..], p);
    }
  }

  /** A filter keeps every copy of what satisfies `p` and no copy of the
      rest. */
  lemma {:induction false} FilterMultiset<T>(s: seq<T>, p: T -> bool)
    ensures forall x :: multiset(Filter(s, p))[x] == if p(x) then multiset(s)[x] else 0
  {
    if |s| > 0 {
      FilterMultiset(s[1..], p);
      assert s == [s[0]] + s[1..];
    }
  }

  /** An element that satisfies `p` sits in the filtered sequence just
      after those of the elements before it. */
  lemma FilterPosition<T>(s: seq<T>, j: int, p: T -> bool)
    requires 0 <= j < |s| && p(s[j])
    ensures |Filter(s[..j], p)| < |Filter(s, p)|
    ensures Filter(s, p)[|Filter(s[..j], p)|] == s[j]
  {
    FilterPrefix(s, j, p);
    assert s[j..] == [s[j]] + s[j + 1..];
    FilterConcat([s[j]], s[j + 1..], p);
  }

  /** The elements of a prefix that satisfy `p` come first among those of
      the whole. */
  lemma FilterPrefix<T>(s: seq<T>, j: int, p: T -> bool)
    requires 0 <= j <= |s|
    ensures Filter(s, p) == Filter(s[..j], p) + Filter(s[j..], p)
  {
    assert s == s[..j] + s[j..];
    FilterConcat(s[..j], s[j..], p);
  }

  /** `d` lists `f(0)`, `f(1)`, ... in order. */
  ghost predicate Agrees<T>(d: seq<T>, f: int -> T)
  {
    forall k :: 0 <= k < |d| ==> d[k] == f(k)
  }

  lemma AgreesExtend<T>(d: seq<T>, x: T, f: int -> T)
    requires Agrees(d, f) && x == f(|d|)
    ensures Agrees(d + [x], f)
  {
    assert forall k :: 0 <= k < |d| ==> (d + [x])[k] == d[k];
  }

  /** `slice(0, n)` for `n >= 0`. */
  function Take<T>(s: seq<T>, n: nat): (r: seq<T>)
    ensures |r| == if n < |s| then n else |s|
    ensures forall i :: 0 <= i < |r| ==> r[i] == s[i]
  {
    if n < |s| then s[..n] else s
  }

  /** A prefix of a subsequence is a subsequence. */
  lemma {:induction false} SubsequenceTake<T>(a: seq<T>, b: seq<T>, n: nat)
    requires Subsequence(a, b)
    ensures Subsequence(Take(a, n), b)
    decreases |b|
  {
    var t := Take(a, n);
    if |t| > 0 {
      if a[0] == b[0] && Subsequence(a[1..], b[1..]) {
        SubsequenceTake(a[1..], b[1..], n - 1);
        assert t[1..] == Take(a[1..], n - 1);
      } else {
        SubsequenceTake(a, b[1..], n);
      }
    }
  }

  /** Every element of a subsequence is an element of the whole. */
  lemma {:induction false} SubsequenceMember<T>(a: seq<T>, b: seq<T>, j: int) returns (k: int)
    requires Subsequence(a, b) && 0 <= j < |a|
    ensures 0 <= k < |b| && b[k] == a[j]
    decreases |b|
  {
    if a[0] == b[0] && Subsequence(a[1..], b[1..]) {
      if j == 0 {
        k := 0;
      } else {
        var k' := SubsequenceMember(a[1..], b[1..], j - 1);
        k := k' + 1;
      }
    } else {
      var k' := SubsequenceMember(a, b[1..], j);
      k := k' + 1;
    }
  }

  function SumBy<T>(s: seq<T>, w: T -> int): int
  {
    if |s| == 0 then 0 else w(s[0]) + SumBy(s[1..], w)
  }

  function MapSeq<T, U>(s: seq<T>, f: T -> U): (r: seq<U>)
    ensures |r| == |s|
    ensures forall i :: 0 <= i < |s| ==> r[i] == f(s[i])
  {
    seq(|s|, i requires 0 <= i < |s| => f(s[i]))
  }

  // ---------------------------------------------------------------------
  // First appearances

  /** Index of the first occurrence of `x`, or `|s|` when there is none. */
  function FirstIndex<T(==)>(s: seq<T>, x: T): (i: nat)
    ensures i <= |s|
    ensures i < |s| <==> x in s
    ensures i < |s| ==> s[i] == x
    ensures forall j :: 0 <= j < i ==> s[j] != x
  {
    if |s| == 0 then 0 else if s[0] == x then 0 else 1 + FirstIndex(s[1..], x)
  }

  lemma FirstIndexExtend<T>(s: seq<T>, y: T, x: T)
    requires x in s
    ensures FirstIndex(s + [y], x) == FirstIndex(s, x)
  {
    var i := FirstIndex(s, x);
    var j := FirstIndex(s + [y], x);
    assert (s + [y])[i] == x;
    assert j <= i;
    assert s[j] == (s + [y])[j];
  }

  /** The distinct elements of `s` in order of first appearance, built the
      way a `Map` keeps its keys: append a key the first time it is seen. */
  function Dedup<T(==)>(s: seq<T>): (r: seq<T>)
    ensures Distinct(r)
    ensures forall i :: 0 <= i < |r| ==> r[i] in s
    ensures forall i :: 0 <= i < |s| ==> s[i] in r
  {
    if |s| == 0 then []
    else
      var d := Dedup(s[..|s| - 1]);
      assert s == s[..|s| - 1] + [s[|s| - 1]];
      if s[|s| - 1] in d then d else d + [s[|s| - 1]]
  }

  lemma DedupStep<T>(p: seq<T>, x: T)
    ensures Dedup(p + [x]) == if x in Dedup(p) then Dedup(p) else Dedup(p) + [x]
  {
    assert (p + [x])[..|p|] == p;
  }

  /** `Dedup` lists elements in order of their first appearance in `s`. */
  lemma {:induction false} DedupFirstAppearance<T>(s: seq<T>)
    ensures var d := Dedup(s);
      forall i, j :: 0 <= i < j < |d| ==> FirstIndex(s, d[i]) < FirstIndex(s, d[j])
  {
    if |s| > 0 {
      var p := s[..|s| - 1];
      var x := s[|s| - 1];
      assert s == p + [x];
      DedupFirstAppearance(p);
      DedupStep(p, x);
      var dp := Dedup(p);
      var d := Dedup(s);
      forall i, j | 0 <= i < j < |d|
        ensures FirstIndex(s, d[i]) < FirstIndex(s, d[j])
      {
        assert d[i] == dp[i];
        assert dp[i] in p;
        FirstIndexExtend(p, x, dp[i]);
        if j < |dp| {
          assert d[j] == dp[j];
          assert dp[j] in p;
          FirstIndexExtend(p, x, dp[j]);
        } else {
          assert d[j] == x && x !in dp;
          assert x !in p;
          assert s[|p|] == x;
        }
      }
    }
  }

  // ---------------------------------------------------------------------
  // Grouping in insertion order

  function Keys<K, V>(g: seq<(K, V)>): (r: seq<K>)
    ensures |r| == |g|
    ensures forall i :: 0 <= i < |g| ==> r[i] == g[i].0
  {
    seq(|g|, i requires 0 <= i < |g| => g[i].0)
  }

  /** Total number of members over all groups. */
  function TotalSize<K, T>(g: seq<(K, seq<T>)>): nat
  {
    if |g| == 0 then 0 else |g[0].1| + TotalSize(g[1..])
  }

  /** The predicate "has key `k`", as one named function so that every
      mention of it denotes the same value. */
  function KeyIs<T, K(==)>(key: T -> K, k: K): T -> bool
  {
    x => key(x) == k
  }

  /** `map.get(k)` then `map.set(k, [...old, x])`, or append `(k, [x])`. */
  function AddToGroup<T, K(==)>(g: seq<(K, seq<T>)>, k: K, x: T): seq<(K, seq<T>)>
  {
    if |g| == 0 then [(k, [x])]
    else if g[0].0 == k then [(k, g[0].1 + [x])] + g[1..]
    else [g[0]] + AddToGroup(g[1..], k, x)
  }

  lemma {:induction false} AddToGroupSpec<T, K>(g: seq<(K, seq<T>)>, k: K, x: T)
    requires Distinct(Keys(g))
    ensures var r := AddToGroup(g, k, x);
      && |r| == (if k in Keys(g) then |g| else |g| + 1)
      && (forall i :: 0 <= i < |g| ==> r[i].0 == g[i].0)
      && (forall i :: 0 <= i < |g| ==> r[i].1 == if g[i].0 == k then g[i].1 + [x] else g[i].1)
      && (k !in Keys(g) ==> r[|g|] == (k, [x]))
      && TotalSize(r) == TotalSize(g) + 1
  {
    if |g| > 0 {
      if g[0].0 == k {
        assert k in Keys(g);
        forall i | 1 <= i < |g| ensures g[i].0 != k {
          assert Keys(g)[0] != Keys(g)[i];
        }
        assert AddToGroup(g, k, x)[1..] == g[1..];
      } else {
        assert Keys(g[1..]) == Keys(g)[1..];
        assert k in Keys(g) <==> k in Keys(g[1..]);
        AddToGroupSpec(g[1..], k, x);
      }
    }
  }

  /** `GroupBy(s, key)` is the insertion-ordered `Map` from `key` values to the
      elements having them. */
  function GroupBy<T, K(==)>(s: seq<T>, key: T -> K): seq<(K, seq<T>)>
  {
    if |s| == 0 then []
    else AddToGroup(GroupBy(s[..|s| - 1], key), key(s[|s| - 1]), s[|s| - 1])
  }

  lemma GroupByStep<T, K>(p: seq<T>, x: T, key: T -> K)
    ensures GroupBy(p + [x], key) == AddToGroup(GroupBy(p, key), key(x), x)
  {
    assert (p + [x])[..|p|] == p;
  }

  lemma MapSeqAppend<T, U>(p: seq<T>, x: T, f: T -> U)
    ensures MapSeq(p + [x], f) == MapSeq(p, f) + [f(x)]
  {
  }

  /** Every group holds exactly the elements of `s` with its key. */
  ghost predicate GroupsFiltered<T, K>(g: seq<(K, seq<T>)>, s: seq<T>, key: T -> K)
  {
    forall i :: 0 <= i < |g| ==> g[i].1 == Filter(s, KeyIs(key, g[i].0))
  }

  /** Groups are keyed by the distinct keys in first-appearance order, each
      holds exactly the elements with its key in input order, and together
      they hold every element once. */
  lemma {:induction false} GroupBySpec<T, K>(s: seq<T>, key: T -> K)
    ensures var g := GroupBy(s, key);
      && Keys(g) == Dedup(MapSeq(s, key))
      && Distinct(Keys(g))
      && (forall i :: 0 <= i < |g| ==> g[i].1 == Filter(s, KeyIs(key, g[i].0)))
      && TotalSize(g) == |s|
  {
    GroupByInvariant(s, key);
  }

  lemma {:induction false} GroupByInvariant<T, K>(s: seq<T>, key: T -> K)
    ensures var g := GroupBy(s, key);
      && Keys(g) == Dedup(MapSeq(s, key))
      && GroupsFiltered(g, s, key)
      && TotalSize(g) == |s|
  {
    if |s| > 0 {
      var p := s[..|s| - 1];
      var x := s[|s| - 1];
      assert s == p + [x];
      GroupByInvariant(p, key);
      var gp := GroupBy(p, key);
      GroupByStep(p, x, key);
      AddToGroupSpec(gp, key(x), x);
      GroupByKeysStep(p, x, key, gp);
      GroupByFilterStep(p, x, key, gp);
    }
  }

  lemma GroupByKeysStep<T, K>(p: seq<T>, x: T, key: T -> K, gp: seq<(K, seq<T>)>)
    requires Keys(gp) == Dedup(MapSeq(p, key))
    ensures Keys(AddToGroup(gp, key(x), x)) == Dedup(MapSeq(p + [x], key))
  {
    var k := key(x);
    var g := AddToGroup(gp, k, x);
    AddToGroupSpec(gp, k, x);
    MapSeqAppend(p, x, key);
    DedupStep(MapSeq(p, key), k);
    if k in Keys(gp) {
      KeysOfSameLength(gp, g);
    } else {
      KeysOfLonger(gp, g, k);
    }
  }

  lemma KeysOfSameLength<K, V, W>(a: seq<(K, V)>, b: seq<(K, W)>)
    requires |a| == |b|
    requires forall i :: 0 <= i < |a| ==> b[i].0 == a[i].0
    ensures Keys(b) == Keys(a)
  {
  }

  lemma KeysOfLonger<K, V>(a: seq<(K, V)>, b: seq<(K, V)>, k: K)
    requires |b| == |a| + 1
    requires forall i :: 0 <= i < |a| ==> b[i].0 == a[i].0
    requires b[|a|].0 == k
    ensures Keys(b) == Keys(a) + [k]
  {
  }

  lemma GroupByFilterStep<T, K>(p: seq<T>, x: T, key: T -> K, gp: seq<(K, seq<T>)>)
    requires Keys(gp) == Dedup(MapSeq(p, key))
    requires GroupsFiltered(gp, p, key)
    ensures GroupsFiltered(AddToGroup(gp, key(x), x), p + [x], key)
  {
    var k := key(x);
    var g := AddToGroup(gp, k, x);
    AddToGroupSpec(gp, k, x);
    forall i | 0 <= i < |g|
      ensures g[i].1 == Filter(p + [x], KeyIs(key, g[i].0))
    {
      if i < |gp| {
        var gk, gv := gp[i].0, gp[i].1;
        assert gv == Filter(p, KeyIs(key, gk));
        FilterAppend(p, x, key, gk);
        assert g[i].0 == gk;
        assert g[i].1 == if gk == k then gv + [x] else gv;
        assert g[i].1 == Filter(p + [x], KeyIs(key, gk));
      } else {
        assert i == |gp| && k !in Keys(gp);
        assert g[i] == (k, [x]);
        FilterAppend(p, x, key, k);
        GroupByNewKey(p, key, k);
        assert Filter(p + [x], KeyIs(key, k)) == [x];
      }
    }
  }

  lemma FilterAppend<T, K>(p: seq<T>, x: T, key: T -> K, k: K)
    ensures Filter(p + [x], KeyIs(key, k)) ==
      if key(x) == k then Filter(p, KeyIs(key, k)) + [x] else Filter(p, KeyIs(key, k))
  {
    var q := KeyIs(key, k);
    FilterConcat(p, [x], q);
    assert Filter([x], q) == if q(x) then [x] else [];
  }

  lemma GroupByNewKey<T, K>(p: seq<T>, key: T -> K, k: K)
    requires k !in Dedup(MapSeq(p, key))
    ensures Filter(p, KeyIs(key, k)) == []
  {
    forall j | 0 <= j < |p| ensures !KeyIs(key, k)(p[j]) {
      assert MapSeq(p, key)[j] == key(p[j]);
      assert MapSeq(p, key)[j] in Dedup(MapSeq(p, key));
    }
    FilterNone(p, KeyIs(key, k));
  }

  // ---------------------------------------------------------------------
  // Counting in insertion order

  /** `map.set(k, (map.get(k) || 0) + 1)` on an insertion-ordered map of
      counts. */
  function AddCount<K(==)>(c: seq<(K, nat)>, k: K): seq<(K, nat)>
  {
    if |c| == 0 then [(k, 1)]
    else if c[0].0 == k then [(k, c[0].1 + 1)] + c[1..]
    else [c[0]] + AddCount(c[1..], k)
  }

  /** The counts a loop of `AddCount` builds over the keys of `s`. */
  function Tally<T, K(==)>(s: seq<T>, key: T -> K): seq<(K, nat)>
  {
    if |s| == 0 then [] else AddCount(Tally(s[..|s| - 1], key), key(s[|s| - 1]))
  }

  /** Each group's key with its number of members. */
  function Sizes<K, T>(g: seq<(K, seq<T>)>): (r: seq<(K, nat)>)
    ensures |r| == |g|
    ensures forall i :: 0 <= i < |g| ==> r[i] == (g[i].0, |g[i].1|)
  {
    seq(|g|, i requires 0 <= i < |g| => (g[i].0, |g[i].1|))
  }

  function Count<K>(e: (K, nat)): int
  {
    e.1
  }

  /** Counting a key is growing its group by one. */
  lemma {:induction false} AddCountSizes<T, K>(g: seq<(K, seq<T>)>, k: K, x: T)
    ensures Sizes(AddToGroup(g, k, x)) == AddCount(Sizes(g), k)
  {
    if |g| > 0 {
      assert Sizes(g)[1..] == Sizes(g[1..]);
      if g[0].0 == k {
        assert Sizes(AddToGroup(g, k, x)) == [(k, |g[0].1| + 1)] + Sizes(g[1..]);
      } else {
        AddCountSizes(g[1..], k, x);
        assert Sizes(AddToGroup(g, k, x)) == [Sizes(g)[0]] + Sizes(AddToGroup(g[1..], k, x));
      }
    }
  }

  /** Counting is grouping and measuring the groups. */
  lemma {:induction false} TallySizes<T, K>(s: seq<T>, key: T -> K)
    ensures Tally(s, key) == Sizes(GroupBy(s, key))
  {
    if |s| > 0 {
      TallySizes(s[..|s| - 1], key);
      AddCountSizes(GroupBy(s[..|s| - 1], key), key(s[|s| - 1]), s[|s| - 1]);
    }
  }

  lemma {:induction false} SizesTotal<K, T>(g: seq<(K, seq<T>)>)
    ensures SumBy(Sizes(g), Count) == TotalSize(g)
  {
    if |g| > 0 {
      assert Sizes(g)[1..] == Sizes(g[1..]);
      SizesTotal(g[1..]);
    }
  }

  /** The counted keys are the distinct keys of `s` in first-appearance
      order. */
  lemma TallyKeys<T, K>(s: seq<T>, key: T -> K)
    ensures Keys(Tally(s, key)) == Dedup(MapSeq(s, key))
    ensures Distinct(Keys(Tally(s, key)))
  {
    TallySizes(s, key);
    GroupBySpec(s, key);
    KeysOfSameLength(GroupBy(s, key), Tally(s, key));
  }

  /** Every entry of `c` counts the elements of `s` with its key, and there
      is at least one. */
  ghost predicate CountsExact<T, K>(c: seq<(K, nat)>, s: seq<T>, key: T -> K)
  {
    forall i :: 0 <= i < |c| ==> c[i].1 == |Filter(s, KeyIs(key, c[i].0))| >= 1
  }

  /** An element of a rearrangement of `c` is an element of `c`. */
  lemma PermutedElement<T>(c: seq<T>, d: seq<T>, i: int) returns (k: int)
    requires multiset(d) == multiset(c)
    requires 0 <= i < |d|
    ensures 0 <= k < |c| && c[k] == d[i]
  {
    assert d[i] in multiset(c);
    k :| 0 <= k < |c| && c[k] == d[i];
  }

  lemma PermutedCounts<T, K>(c: seq<(K, nat)>, d: seq<(K, nat)>, s: seq<T>, key: T -> K)
    requires multiset(d) == multiset(c)
    requires CountsExact(c, s, key)
    ensures CountsExact(d, s, key)
  {
    forall i | 0 <= i < |d| ensures d[i].1 == |Filter(s, KeyIs(key, d[i].0))| >= 1 {
      var k := PermutedElement(c, d, i);
    }
  }

  /** Each count is the number of elements with that key, so at least 1. */
  lemma TallyCounts<T, K>(s: seq<T>, key: T -> K)
    ensures CountsExact(Tally(s, key), s, key)
  {
    var c := Tally(s, key);
    TallySizes(s, key);
    GroupBySpec(s, key);
    TallyKeys(s, key);
    forall i | 0 <= i < |c| ensures c[i].1 == |Filter(s, KeyIs(key, c[i].0))| >= 1 {
      var k := c[i].0;
      assert k == Keys(c)[i];
      assert k in MapSeq(s, key);
      var j :| 0 <= j < |s| && MapSeq(s, key)[j] == k;
      assert KeyIs(key, k)(s[j]);
    }
  }

  /** The counts add up to the length of `s`. */
  lemma TallyTotal<T, K>(s: seq<T>, key: T -> K)
    ensures SumBy(Tally(s, key), Count) == |s|
  {
    TallySizes(s, key);
    GroupBySpec(s, key);
    SizesTotal(GroupBy(s, key));
  }

  /** Every key that occurs in `s` is counted. */
  lemma TallyCovers<T, K>(s: seq<T>, key: T -> K, i: int)
    requires 0 <= i < |s|
    ensures key(s[i]) in Keys(Tally(s, key))
  {
    TallyKeys(s, key);
    assert MapSeq(s, key)[i] == key(s[i]);
  }

  /** Every group of `GroupBy` has at least one member. */
  lemma GroupsNonEmpty<T, K>(s: seq<T>, key: T -> K)
    ensures forall i :: 0 <= i < |GroupBy(s, key)| ==> |GroupBy(s, key)[i].1| > 0
  {
    TallySizes(s, key);
    TallyCounts(s, key);
    var g := GroupBy(s, key);
    forall i | 0 <= i < |g| ensures |g[i].1| > 0 {
      assert Tally(s, key)[i] == (g[i].0, |g[i].1|);
    }
  }

  /** The first element with key `k` is the element at the first
      occurrence of `k` among the keys. */
  lemma {:induction false} FilterFirst<T, K>(s: seq<T>, key: T -> K, k: K)
    requires k in MapSeq(s, key)
    ensures |Filter(s, KeyIs(key, k))| > 0
    ensures FirstIndex(MapSeq(s, key), k) < |s|
    ensures Filter(s, KeyIs(key, k))[0] == s[FirstIndex(MapSeq(s, key), k)]
  {
    var m := MapSeq(s, key);
    var p := KeyIs(key, k);
    assert m[0] == key(s[0]);
    if key(s[0]) == k {
      assert Filter(s, p) == [s[0]] + Filter(s[1..], p);
    } else {
      var m' := MapSeq(s[1..], key);
      assert m[1..] == m';
      assert k in m' by {
        var j :| 0 <= j < |m| && m[j] == k;
        assert m'[j - 1] == k;
      }
      FilterFirst(s[1..], key, k);
      assert Filter(s, p) == Filter(s[1..], p);
      assert FirstIndex(m, k) == 1 + FirstIndex(m', k);
    }
  }

  lemma {:induction false} SumByMapSeq<T, U>(s: seq<T>, f: T -> U, w: U -> int, v: T -> int)
    requires forall x :: w(f(x)) == v(x)
    ensures SumBy(MapSeq(s, f), w) == SumBy(s, v)
  {
    if |s| > 0 {
      assert MapSeq(s, f)[1..] == MapSeq(s[1..], f);
      SumByMapSeq(s[1..], f, w, v);
    }
  }

  // ---------------------------------------------------------------------
  // Stable sorting by a numeric key

  predicate SortedBy<T>(s: seq<T>, key: T -> real)
  {
    forall i, j :: 0 <= i < j < |s| ==> key(s[i]) <= key(s[j])
  }

  /** Places `x` before the first element whose key is not smaller. */
  function Insert<T>(x: T, s: seq<T>, key: T -> real): seq<T>
  {
    if |s| == 0 then [x]
    else if key(x) <= key(s[0]) then [x] + s
    else [s[0]] + Insert(x, s[1..], key)
  }

  lemma InsertSpec<T>(x: T, s: seq<T>, key: T -> real)
    ensures |Insert(x, s, key)| == |s| + 1
    ensures multiset(Insert(x, s, key)) == multiset(s) + multiset{x}
    ensures SortedBy(s, key) ==> SortedBy(Insert(x, s, key), key)
  {
    InsertMultiset(x, s, key);
    if SortedBy(s, key) {
      InsertSorted(x, s, key);
    }
  }

  lemma {:induction false} InsertMultiset<T>(x: T, s: seq<T>, key: T -> real)
    ensures |Insert(x, s, key)| == |s| + 1
    ensures multiset(Insert(x, s, key)) == multiset(s) + multiset{x}
  {
    if |s| > 0 && key(s[0]) < key(x) {
      InsertMultiset(x, s[1..], key);
      assert s == [s[0]] + s[1..];
    }
  }

  lemma {:induction false} InsertSorted<T>(x: T, s: seq<T>, key: T -> real)
    requires SortedBy(s, key)
    ensures SortedBy(Insert(x, s, key), key)
  {
    if |s| > 0 && key(s[0]) < key(x) {
      InsertSorted(x, s[1..], key);
      InsertMultiset(x, s[1..], key);
      var t := Insert(x, s[1..], key);
      forall j | 0 <= j < |t| ensures key(s[0]) <= key(t[j]) {
        var k := InsertedFrom(t, s[1..], x, j);
        if t[j] != x {
          assert s[k + 1] == t[j];
        }
      }
      assert Insert(x, s, key) == [s[0]] + t;
    } else if |s| > 0 {
      assert Insert(x, s, key) == [x] + s;
    }
  }

  /** An element of `s` with `x` added is `x` or an element of `s`. */
  lemma InsertedFrom<T>(t: seq<T>, s: seq<T>, x: T, j: int) returns (k: int)
    requires multiset(t) == multiset(s) + multiset{x}
    requires 0 <= j < |t|
    ensures t[j] != x ==> 0 <= k < |s| && s[k] == t[j]
  {
    k := 0;
    assert t[j] in multiset(t);
    if t[j] != x {
      assert t[j] in multiset(s);
      k :| 0 <= k < |s| && s[k] == t[j];
    }
  }

  /** Stable ascending sort by `key`. */
  function InsertionSort<T>(s: seq<T>, key: T -> real): (r: seq<T>)
    ensures |r| == |s|
    ensures multiset(r) == multiset(s)
    ensures SortedBy(r, key)
  {
    if |s| == 0 then []
    else
      var t := InsertionSort(s[1..], key);
      InsertSpec(s[0], t, key);
      assert s == [s[0]] + s[1..];
      Insert(s[0], t, key)
  }

  /** Sorting by `key` a sequence strictly ordered by `tie` leaves equal-key
      elements in their `tie` order: the sort is stable. */
  predicate LexSorted<T>(s: seq<T>, key: T -> real, tie: T -> int)
  {
    forall i, j :: 0 <= i < j < |s| ==>
      key(s[i]) < key(s[j]) || (key(s[i]) == key(s[j]) && tie(s[i]) < tie(s[j]))
  }

  lemma {:induction false} InsertLex<T>(x: T, s: seq<T>, key: T -> real, tie: T -> int)
    requires LexSorted(s, key, tie)
    requires forall i :: 0 <= i < |s| ==> tie(x) < tie(s[i])
    ensures LexSorted(Insert(x, s, key), key, tie)
  {
    if |s| > 0 && key(s[0]) < key(x) {
      InsertLex(x, s[1..], key, tie);
      var t := Insert(x, s[1..], key);
      InsertMultiset(x, s[1..], key);
      forall j | 0 <= j < |t| ensures key(s[0]) < key(t[j]) || (key(s[0]) == key(t[j]) && tie(s[0]) < tie(t[j])) {
        var k := InsertedFrom(t, s[1..], x, j);
        if t[j] != x {
          assert s[k + 1] == t[j];
        }
      }
    } else if |s| > 0 {
      assert Insert(x, s, key) == [x] + s;
      forall j | 0 < j < |s| ensures key(x) <= key(s[j]) {
        assert key(s[0]) <= key(s[j]);
      }
    }
  }

  lemma {:induction false} InsertionSortStable<T>(s: seq<T>, key: T -> real, tie: T -> int)
    requires forall i, j :: 0 <= i < j < |s| ==> tie(s[i]) < tie(s[j])
    ensures LexSorted(InsertionSort(s, key), key, tie)
  {
    if |s| > 0 {
      InsertionSortStable(s[1..], key, tie);
      var t := InsertionSort(s[1..], key);
      forall i | 0 <= i < |t| ensures tie(s[0]) < tie(t[i]) {
        assert t[i] in multiset(s[1..]);
        var k :| 0 <= k < |s[1..]| && s[1..][k] == t[i];
        assert s[k + 1] == t[i];
      }
      InsertLex(s[0], t, key, tie);
    }
  }

  lemma {:induction false} InsertSum<T>(x: T, s: seq<T>, key: T -> real, w: T -> int)
    ensures SumBy(Insert(x, s, key), w) == w(x) + SumBy(s, w)
  {
    if |s| > 0 && key(s[0]) < key(x) {
      InsertSum(x, s[1..], key, w);
    } else if |s| > 0 {
      assert ([x] + s)[1..] == s;
    }
  }

  /** Sorting keeps every weighted total. */
  lemma {:induction false} InsertionSortSum<T>(s: seq<T>, key: T -> real, w: T -> int)
    ensures SumBy(InsertionSort(s, key), w) == SumBy(s, w)
  {
    if |s| > 0 {
      InsertionSortSum(s[1..], key, w);
      InsertSum(s[0], InsertionSort(s[1..], key), key, w);
    }
  }

  lemma {:induction false} DistinctCounts<T>(s: seq<T>, x: T)
    requires Distinct(s)
    ensures multiset(s)[x] <= 1
  {
    if |s| > 0 {
      DistinctCounts(s[1..], x);
      assert s == [s[0]] + s[1..];
      assert s[0] !in s[1..] by {
        forall k | 0 <= k < |s[1..]| ensures s[1..][k] != s[0] {
          assert s[k + 1] != s[0];
        }
      }
    }
  }

  lemma RepeatCounts<T>(s: seq<T>, i: int, j: int)
    requires 0 <= i < j < |s|
    ensures s[i] == s[j] ==> multiset(s)[s[i]] >= 2
  {
    assert s == s[..i] + [s[i]] + s[i + 1..j] + [s[j]] + s[j + 1..];
  }

  /** Rearranging a sequence whose elements have distinct `f`-images keeps
      the images distinct. */
  lemma PermutationDistinctBy<T, U>(a: seq<T>, b: seq<T>, f: T -> U)
    requires multiset(a) == multiset(b)
    requires Distinct(MapSeq(a, f))
    ensures Distinct(MapSeq(b, f))
  {
    assert Distinct(a) by {
      forall i, j | 0 <= i < j < |a| ensures a[i] != a[j] {
        assert MapSeq(a, f)[i] != MapSeq(a, f)[j];
      }
    }
    PermutationDistinct(a, b);
    forall i, j | 0 <= i < j < |b| ensures MapSeq(b, f)[i] != MapSeq(b, f)[j] {
      assert b[i] in multiset(a) && b[j] in multiset(a);
      var p :| 0 <= p < |a| && a[p] == b[i];
      var q :| 0 <= q < |a| && a[q] == b[j];
      if p < q {
        assert MapSeq(a, f)[p] != MapSeq(a, f)[q];
      } else if q < p {
        assert MapSeq(a, f)[q] != MapSeq(a, f)[p];
      }
    }
  }

  /** Sorting keeps distinct elements distinct. */
  lemma PermutationDistinct<T>(a: seq<T>, b: seq<T>)
    requires multiset(a) == multiset(b)
    requires Distinct(a)
    ensures Distinct(b)
  {
    forall i, j | 0 <= i < j < |b| ensures b[i] != b[j] {
      DistinctCounts(a, b[i]);
      RepeatCounts(b, i, j);
    }
  }
}
