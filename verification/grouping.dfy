/**
 * The dashboards' `reduce` into an object keyed by a label, read back with
 * `Object.entries`: one bucket per distinct label, in order of first
 * appearance, holding how many entries carry the label and the sum of their
 * values.
 */
module Grouping {

  /** One labelled number fed to the `reduce`. */
  datatype Entry = Entry(key: string, value: int)

  /** One bucket `[key, { total, count }]`. */
  datatype Group = Group(key: string, total: int, count: nat)

  predicate DistinctKeys(gs: seq<Group>) {
    forall i, j :: 0 <= i < j < |gs| ==> gs[i].key != gs[j].key
  }

  predicate HasKey(gs: seq<Group>, k: string) {
    exists i :: 0 <= i < |gs| && gs[i].key == k
  }

  /** The count of the bucket labelled `k`, or 0 if there is none. */
  function CountOf(gs: seq<Group>, k: string): nat {
    if |gs| == 0 then 0 else if gs[0].key == k then gs[0].count else CountOf(gs[1..], k)
  }

  /** The total of the bucket labelled `k`, or 0 if there is none. */
  function TotalOf(gs: seq<Group>, k: string): int {
    if |gs| == 0 then 0 else if gs[0].key == k then gs[0].total else TotalOf(gs[1..], k)
  }

  /** The sum of all bucket counts. */
  function TotalCount(gs: seq<Group>): nat {
    if |gs| == 0 then 0 else gs[0].count + TotalCount(gs[1..])
  }

  /** How many entries carry label `k` (independent of the buckets). */
  function Occurrences(es: seq<Entry>, k: string): nat {
    if |es| == 0 then 0
    else Occurrences(es[..|es| - 1], k) + (if es[|es| - 1].key == k then 1 else 0)
  }

  /** The sum of the values of the entries labelled `k` (independent of the buckets). */
  function SumFor(es: seq<Entry>, k: string): int {
    if |es| == 0 then 0
    else SumFor(es[..|es| - 1], k) + (if es[|es| - 1].key == k then es[|es| - 1].value else 0)
  }

  /** One step of the `reduce`: bump the bucket of `e.key`, or open it at the end. */
  function Add(gs: seq<Group>, e: Entry): seq<Group> {
    if |gs| == 0 then [Group(e.key, e.value, 1)]
    else if gs[0].key == e.key then [gs[0].(total := gs[0].total + e.value, count := gs[0].count + 1)] + gs[1..]
    else [gs[0]] + Add(gs[1..], e)
  }

  /** The whole `reduce`, from an empty object, over the entries in order. */
  function GroupBy(es: seq<Entry>): seq<Group> {
    if |es| == 0 then [] else Add(GroupBy(es[..|es| - 1]), es[|es| - 1])
  }

  /** A label has a bucket exactly when the first bucket or one of the rest carries it. */
  lemma {:induction false} HasKeyCons(gs: seq<Group>, k: string)
    requires |gs| > 0
    ensures HasKey(gs, k) <==> gs[0].key == k || HasKey(gs[1..], k)
  {
    if HasKey(gs[1..], k) {
      var j :| 0 <= j < |gs[1..]| && gs[1..][j].key == k;
      assert gs[j + 1].key == k;
    }
    if HasKey(gs, k) && gs[0].key != k {
      var i :| 0 <= i < |gs| && gs[i].key == k;
      assert gs[1..][i - 1].key == k;
    }
  }

  /** How one `Add` changes the bucket of any label `k`. */
  lemma {:induction false} AddBucket(gs: seq<Group>, e: Entry, k: string)
    ensures CountOf(Add(gs, e), k) == CountOf(gs, k) + (if k == e.key then 1 else 0)
    ensures TotalOf(Add(gs, e), k) == TotalOf(gs, k) + (if k == e.key then e.value else 0)
    ensures HasKey(Add(gs, e), k) <==> HasKey(gs, k) || k == e.key
    ensures TotalCount(Add(gs, e)) == TotalCount(gs) + 1
  {
    var r := Add(gs, e);
    if |gs| == 0 {
      assert r[0].key == e.key;
    } else {
      HasKeyCons(gs, k);
      HasKeyCons(r, k);
      if gs[0].key != e.key {
        AddBucket(gs[1..], e, k);
        assert r[1..] == Add(gs[1..], e);
      } else {
        assert r[1..] == gs[1..];
      }
    }
  }

  /** `Add` opens a bucket only for a new label, so labels stay distinct. */
  lemma {:induction false} AddKeepsDistinct(gs: seq<Group>, e: Entry)
    requires DistinctKeys(gs)
    ensures DistinctKeys(Add(gs, e))
    ensures forall j :: 0 <= j < |Add(gs, e)| ==> Add(gs, e)[j].count > 0 || (j < |gs| && Add(gs, e)[j] == gs[j])
  {
    if |gs| > 0 && gs[0].key != e.key {
      AddKeepsDistinct(gs[1..], e);
      var r := Add(gs, e);
      forall j | 1 <= j < |r| ensures r[j].key != gs[0].key {
        AddBucket(gs[1..], e, gs[0].key);
        forall i | 0 <= i < |gs[1..]| ensures gs[1..][i].key != gs[0].key {
          assert gs[1..][i] == gs[i + 1];
        }
        assert r[1..][j - 1].key == r[j].key;
      }
    }
  }

  /** In buckets with distinct labels, the bucket at position `j` is the one `CountOf` and `TotalOf` find. */
  lemma {:induction false} BucketAt(gs: seq<Group>, j: nat)
    requires DistinctKeys(gs) && j < |gs|
    ensures CountOf(gs, gs[j].key) == gs[j].count && TotalOf(gs, gs[j].key) == gs[j].total
  {
    if j > 0 {
      assert gs[1..][j - 1] == gs[j];
      BucketAt(gs[1..], j - 1);
    }
  }

  /**
   * The buckets agree with the reference counts: for every label, the count
   * and total of its bucket are the number and value sum of the entries so
   * labelled, and a bucket exists exactly for the labels that occur.
   */
  lemma {:induction false} GroupByCounts(es: seq<Entry>, k: string)
    ensures CountOf(GroupBy(es), k) == Occurrences(es, k)
    ensures TotalOf(GroupBy(es), k) == SumFor(es, k)
    ensures HasKey(GroupBy(es), k) <==> Occurrences(es, k) > 0
    ensures TotalCount(GroupBy(es)) == |es|
  {
    if |es| > 0 {
      GroupByCounts(es[..|es| - 1], k);
      AddBucket(GroupBy(es[..|es| - 1]), es[|es| - 1], k);
    }
  }

  /** The buckets have distinct labels and none of them is empty. */
  lemma {:induction false} GroupByShape(es: seq<Entry>)
    ensures DistinctKeys(GroupBy(es))
    ensures forall j :: 0 <= j < |GroupBy(es)| ==> GroupBy(es)[j].count > 0
  {
    if |es| > 0 {
      var init := es[..|es| - 1];
      GroupByShape(init);
      AddKeepsDistinct(GroupBy(init), es[|es| - 1]);
    }
  }

  /** Each bucket, read by position, holds exactly the count and sum of its label's entries. */
  lemma {:induction false} GroupByBuckets(es: seq<Entry>)
    ensures DistinctKeys(GroupBy(es))
    ensures forall j :: 0 <= j < |GroupBy(es)| ==>
      && GroupBy(es)[j].count == Occurrences(es, GroupBy(es)[j].key) > 0
      && GroupBy(es)[j].total == SumFor(es, GroupBy(es)[j].key)
    ensures TotalCount(GroupBy(es)) == |es|
  {
    var gs := GroupBy(es);
    GroupByShape(es);
    GroupByCounts(es, "");
    forall j | 0 <= j < |gs|
      ensures gs[j].count == Occurrences(es, gs[j].key) && gs[j].total == SumFor(es, gs[j].key)
    {
      BucketAt(gs, j);
      GroupByCounts(es, gs[j].key);
    }
  }
}
