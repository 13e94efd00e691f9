/**
 * The array built-ins the handlers are written with: `filter`, the stable
 * `sort` with a numeric comparator, `slice(0, n)` and `slice(-n)`.
 */
module Seqs {
  import opened Wrappers

  /** `s.filter(keep)`: the elements that pass, in their original order. */
  function Filter<T>(s: seq<T>, keep: T -> bool): (r: seq<T>)
    ensures |r| <= |s|
    ensures forall i :: 0 <= i < |r| ==> keep(r[i])
  {
    if |s| == 0 then [] else (if keep(s[0]) then [s[0]] else []) + Filter(s[1..], keep)
  }

  /** What `filter` keeps: every passing element, as often as it occurs, and nothing else. */
  lemma {:induction false} FilterMultiset<T(!new)>(s: seq<T>, keep: T -> bool)
    ensures forall x :: multiset(Filter(s, keep))[x] == if keep(x) then multiset(s)[x] else 0
  {
    if |s| > 0 {
      FilterMultiset(s[1..], keep);
      assert s == [s[0]] + s[1..];
    }
  }

  /** Filtering commutes with concatenation, so it keeps the relative order of what passes. */
  lemma {:induction false} FilterAppend<T>(a: seq<T>, b: seq<T>, keep: T -> bool)
    ensures Filter(a + b, keep) == Filter(a, keep) + Filter(b, keep)
  {
    if |a| == 0 {
      assert a + b == b;
    } else {
      assert (a + b)[0] == a[0];
      assert (a + b)[1..] == a[1..] + b;
      FilterAppend(a[1..], b, keep);
    }
  }

  /** Every element passes, so filtering changes nothing. */
  lemma {:induction false} FilterAll<T>(s: seq<T>, keep: T -> bool)
    requires forall i :: 0 <= i < |s| ==> keep(s[i])
    ensures Filter(s, keep) == s
  {
    if |s| > 0 {
      FilterAll(s[1..], keep);
    }
  }

  /** `s.filter(p).length`. */
  function Count<T>(s: seq<T>, p: T -> bool): nat {
    |Filter(s, p)|
  }

  /** Nothing passes exactly when the count is zero. */
  lemma {:induction false} CountZero<T>(s: seq<T>, p: T -> bool)
    ensures Count(s, p) == 0 <==> forall i :: 0 <= i < |s| ==> !p(s[i])
  {
    if |s| > 0 {
      CountZero(s[1..], p);
      assert forall i :: 1 <= i < |s| ==> s[1..][i - 1] == s[i];
    }
  }

  /** `s.findIndex(p)`: the first position whose element passes, if any. */
  function FirstIndex<T>(s: seq<T>, p: T -> bool): (r: Option<nat>)
    ensures r.None? <==> forall i :: 0 <= i < |s| ==> !p(s[i])
    ensures r.Some? ==> r.value < |s| && p(s[r.value])
    ensures r.Some? ==> forall i :: 0 <= i < r.value ==> !p(s[i])
  {
    if |s| == 0 then None
    else if p(s[0]) then Some(0)
    else match FirstIndex(s[1..], p)
      case None => None
      case Some(k) => Some(k + 1)
  }

  /** `s.lastIndexOf`-style search: the last position whose element passes, if any. */
  function LastIndex<T>(s: seq<T>, p: T -> bool): (r: Option<nat>)
    ensures r.None? <==> forall i :: 0 <= i < |s| ==> !p(s[i])
    ensures r.Some? ==> r.value < |s| && p(s[r.value])
    ensures r.Some? ==> forall i :: r.value < i < |s| ==> !p(s[i])
  {
    if |s| == 0 then None
    else if p(s[|s| - 1]) then Some(|s| - 1)
    else LastIndex(s[..|s| - 1], p)
  }

  /** `slice(0, n)`: the first `n` elements, or all of them when there are fewer. */
  function Take<T>(s: seq<T>, n: nat): (r: seq<T>)
    ensures |r| == if |s| < n then |s| else n
    ensures r == s[..|r|]
  {
    if |s| < n then s else s[..n]
  }

  /**
   * `slice(-n)` for `n > 0`: the last `n` elements, or all of them when there
   * are fewer. (For `n == 0` JavaScript's `slice(-0)` keeps everything; the
   * handlers only ever pass 10.)
   */
  function Last<T>(s: seq<T>, n: nat): (r: seq<T>)
    ensures |r| == if |s| < n then |s| else n
    ensures r == s[|s| - |r|..]
  {
    if |s| < n then s else s[|s| - n..]
  }

  /** `reverse`. */
  function Reverse<T>(s: seq<T>): (r: seq<T>)
    ensures |r| == |s|
    ensures forall i :: 0 <= i < |s| ==> r[i] == s[|s| - 1 - i]
  {
    if |s| == 0 then [] else Reverse(s[1..]) + [s[0]]
  }

  predicate SortedBy<T>(s: seq<T>, key: T -> int) {
    forall i, j :: 0 <= i < j < |s| ==> key(s[i]) <= key(s[j])
  }

  /** Every suffix of a sorted list is sorted. */
  lemma {:induction false} SortedSuffix<T>(s: seq<T>, key: T -> int, k: nat)
    requires SortedBy(s, key) && k <= |s|
    ensures SortedBy(s[k..], key)
  {
    forall i, j | 0 <= i < j < |s| - k ensures key(s[k..][i]) <= key(s[k..][j]) {
      assert s[k..][i] == s[k + i] && s[k..][j] == s[k + j];
    }
  }

  /** Cutting a sorted list in two: the pieces hold its elements, and no key of the head exceeds one of the tail. */
  lemma {:induction false} SplitSorted<T>(s: seq<T>, key: T -> int, k: nat)
    requires SortedBy(s, key) && k <= |s|
    ensures multiset(s[..k]) + multiset(s[k..]) == multiset(s)
    ensures forall i, j :: 0 <= i < k && 0 <= j < |s| - k ==> key(s[..k][i]) <= key(s[k..][j])
  {
    assert s == s[..k] + s[k..];
    forall i, j | 0 <= i < k && 0 <= j < |s| - k ensures key(s[..k][i]) <= key(s[k..][j]) {
      assert s[..k][i] == s[i] && s[k..][j] == s[k + j];
    }
  }

  /** In a sorted list, the last `n` hold the largest keys: the elements before them have no larger key. */
  lemma {:induction false} SuffixIsLargest<T>(sorted: seq<T>, key: T -> int, n: nat)
    requires SortedBy(sorted, key)
    ensures exists rest: seq<T> ::
      && multiset(rest) + multiset(Last(sorted, n)) == multiset(sorted)
      && forall i, j :: 0 <= i < |rest| && 0 <= j < |Last(sorted, n)| ==> key(rest[i]) <= key(Last(sorted, n)[j])
  {
    var w := Last(sorted, n);
    var k := |sorted| - |w|;
    SplitSorted(sorted, key, k);
    var rest := sorted[..k];
    assert w == sorted[k..];
    assert multiset(rest) + multiset(w) == multiset(sorted) && forall i, j :: 0 <= i < |rest| && 0 <= j < |w| ==> key(rest[i]) <= key(w[j]);
  }

  /**
   * The last `n` of a sorted copy are the `n` largest keys: what is left out
   * holds no key above any kept one.
   */
  lemma {:induction false} LastOfSortedIsLargest<T>(s: seq<T>, key: T -> int, n: nat)
    ensures exists rest: seq<T> ::
      && multiset(rest) + multiset(Last(SortBy(s, key), n)) == multiset(s)
      && forall i, j :: 0 <= i < |rest| && 0 <= j < |Last(SortBy(s, key), n)| ==>
           key(rest[i]) <= key(Last(SortBy(s, key), n)[j])
  {
    SuffixIsLargest(SortBy(s, key), key, n);
  }

  /** Every key of `s` is at least `lo`. */
  predicate KeysAtLeast<T>(s: seq<T>, key: T -> int, lo: int) {
    forall j :: 0 <= j < |s| ==> lo <= key(s[j])
  }

  /** A lower bound on the keys survives any rearrangement of the elements. */
  lemma {:induction false} KeysAtLeastMultiset<T>(a: seq<T>, b: seq<T>, key: T -> int, lo: int)
    requires multiset(a) == multiset(b) && KeysAtLeast(a, key, lo)
    ensures KeysAtLeast(b, key, lo)
  {
    forall j | 0 <= j < |b| ensures lo <= key(b[j]) {
      assert b[j] in multiset(a);
    }
  }

  /** A sorted list stays sorted when an element no larger than all of it is put in front. */
  lemma {:induction false} PrependSorted<T>(x: T, s: seq<T>, key: T -> int)
    requires SortedBy(s, key) && KeysAtLeast(s, key, key(x))
    ensures SortedBy([x] + s, key)
  {
    var r := [x] + s;
    forall i, j | 0 <= i < j < |r| ensures key(r[i]) <= key(r[j]) {
      assert r[j] == s[j - 1];
      if i > 0 {
        assert r[i] == s[i - 1];
      }
    }
  }

  /** The tail of a sorted list is sorted and bounded below by its head. */
  lemma {:induction false} SortedTail<T>(s: seq<T>, key: T -> int)
    requires SortedBy(s, key) && |s| > 0
    ensures SortedBy(s[1..], key) && KeysAtLeast(s[1..], key, key(s[0]))
  {
    SortedSuffix(s, key, 1);
  }

  /** The step of insertion past the head: the head stays in front of the tail with `x` inserted. */
  lemma {:induction false} InsertAfterHead<T>(x: T, s: seq<T>, rest: seq<T>, key: T -> int)
    requires SortedBy(s, key) && |s| > 0 && key(s[0]) <= key(x)
    requires SortedBy(rest, key) && multiset(rest) == multiset(s[1..]) + multiset{x}
    ensures SortedBy([s[0]] + rest, key)
    ensures multiset([s[0]] + rest) == multiset(s) + multiset{x}
  {
    SortedTail(s, key);
    assert KeysAtLeast(s[1..] + [x], key, key(s[0]));
    KeysAtLeastMultiset(s[1..] + [x], rest, key, key(s[0]));
    PrependSorted(s[0], rest, key);
    assert s == [s[0]] + s[1..];
  }

  /** Places `x` after every element whose key is at most its own. */
  function InsertBy<T>(x: T, s: seq<T>, key: T -> int): (r: seq<T>)
    requires SortedBy(s, key)
    ensures |r| == |s| + 1
    ensures SortedBy(r, key)
    ensures multiset(r) == multiset(s) + multiset{x}
  {
    if |s| == 0 then [x]
    else if key(x) < key(s[0]) then
      SortedTail(s, key);
      PrependSorted(x, s, key);
      [x] + s
    else
      SortedTail(s, key);
      var rest := InsertBy(x, s[1..], key);
      InsertAfterHead(x, s, rest, key);
      [s[0]] + rest
  }

  /**
   * `s.sort((a, b) => key(a) - key(b))`: JavaScript's sort is stable, which
   * this insertion sort reproduces by taking the elements in order and
   * placing each after its equals.
   */
  function SortBy<T>(s: seq<T>, key: T -> int): (r: seq<T>)
    ensures |r| == |s|
    ensures SortedBy(r, key)
    ensures multiset(r) == multiset(s)
  {
    if |s| == 0 then []
    else
      assert s == s[..|s| - 1] + [s[|s| - 1]];
      InsertBy(s[|s| - 1], SortBy(s[..|s| - 1], key), key)
  }

  /** The test "has key `k`". */
  function KeyIs<T>(key: T -> int, k: int): T -> bool {
    y => key(y) == k
  }

  /** In a list sorted by key, nothing has a key below that of its head. */
  lemma {:induction false} NoneWithSmallerKey<T>(s: seq<T>, key: T -> int, k: int)
    requires SortedBy(s, key)
    requires |s| > 0 && k < key(s[0])
    ensures Filter(s, KeyIs(key, k)) == []
  {
    if |s| > 1 {
      NoneWithSmallerKey(s[1..], key, k);
    }
  }

  /** Filtering a single element keeps it exactly when it passes. */
  lemma {:induction false} FilterOne<T>(x: T, keep: T -> bool)
    ensures Filter([x], keep) == if keep(x) then [x] else []
  {
    assert [x][1..] == [];
  }

  /** An element put in front of two lists whose filters differ by a suffix keeps them differing by it. */
  lemma {:induction false} ConsFilter<T>(a: T, s: seq<T>, t: seq<T>, keep: T -> bool, extra: seq<T>)
    requires Filter(s, keep) == Filter(t, keep) + extra
    ensures Filter([a] + s, keep) == Filter([a] + t, keep) + extra
  {
    FilterAppend([a], s, keep);
    FilterAppend([a], t, keep);
  }

  /** Filtering a non-empty list: filter all but the last, then the last. */
  lemma {:induction false} FilterSnoc<T>(s: seq<T>, keep: T -> bool)
    requires |s| > 0
    ensures Filter(s, keep) == Filter(s[..|s| - 1], keep) + if keep(s[|s| - 1]) then [s[|s| - 1]] else []
  {
    assert s == s[..|s| - 1] + [s[|s| - 1]];
    FilterAppend(s[..|s| - 1], [s[|s| - 1]], keep);
    FilterOne(s[|s| - 1], keep);
  }

  /** Putting `x` in front of a list whose keys all exceed its own adds it in front of its (empty) run. */
  lemma {:induction false} InsertByRunsFront<T>(x: T, s: seq<T>, key: T -> int, k: int)
    requires SortedBy(s, key) && |s| > 0 && key(x) < key(s[0])
    ensures Filter([x] + s, KeyIs(key, k)) == Filter(s, KeyIs(key, k)) + (if key(x) == k then [x] else [])
  {
    var p := KeyIs(key, k);
    FilterAppend([x], s, p);
    FilterOne(x, p);
    if key(x) == k {
      NoneWithSmallerKey(s, key, k);
    }
  }

  /** Inserting `x` appends it to the run of its equals and leaves every other run alone. */
  lemma {:induction false} InsertByRuns<T>(x: T, s: seq<T>, key: T -> int, k: int)
    requires SortedBy(s, key)
    ensures Filter(InsertBy(x, s, key), KeyIs(key, k))
         == Filter(s, KeyIs(key, k)) + (if key(x) == k then [x] else [])
  {
    var p := KeyIs(key, k);
    if |s| == 0 {
      assert InsertBy(x, s, key) == [x];
      FilterOne(x, p);
    } else if key(x) < key(s[0]) {
      assert InsertBy(x, s, key) == [x] + s;
      InsertByRunsFront(x, s, key, k);
    } else {
      SortedTail(s, key);
      var rest := InsertBy(x, s[1..], key);
      assert InsertBy(x, s, key) == [s[0]] + rest;
      InsertByRuns(x, s[1..], key, k);
      ConsFilter(s[0], rest, s[1..], p, if key(x) == k then [x] else []);
      assert s == [s[0]] + s[1..];
    }
  }

  /**
   * Sorting is stable: for every key, the elements with that key come out in
   * the order they went in.
   */
  lemma {:induction false} SortByStable<T>(s: seq<T>, key: T -> int, k: int)
    ensures Filter(SortBy(s, key), KeyIs(key, k)) == Filter(s, KeyIs(key, k))
  {
    if |s| > 0 {
      var init, x, p := s[..|s| - 1], s[|s| - 1], KeyIs(key, k);
      var sorted := SortBy(init, key);
      assert SortBy(s, key) == InsertBy(x, sorted, key);
      SortByStable(init, key, k);
      InsertByRuns(x, sorted, key, k);
      FilterSnoc(s, p);
    }
  }
}
