/**
 * `deduplicate_results`: one canonical match per `(file_uri, line_number)`,
 * the best-ranked one, listed in ascending key order.
 */
module Dedup {
  import opened Results

  /**
   * The record index each key is bound to after the first `n` records went
   * through `entry(key).and_modify(..).or_insert(r)`: a new key is inserted, and
   * a later record replaces the kept one only when it ranks strictly lower.
   * The indices stand for the `&ResultNode` references the map holds.
   */
  function BestIndex(rs: seq<ResultNode>, n: nat): (best: map<Key, nat>)
    requires n <= |rs|
    ensures forall k :: k in best ==> best[k] < n && KeyOf(rs[best[k]]) == k
    decreases n
  {
    if n == 0 then map[]
    else
      var prev := BestIndex(rs, n - 1);
      var k := KeyOf(rs[n - 1]);
      if k !in prev then prev[k := n - 1]
      else if RankLess(RankOf(rs[n - 1]), RankOf(rs[prev[k]])) then prev[k := n - 1]
      else prev
  }

  /**
   * Among the first `n` records, index `i` is the one kept for its key: every
   * earlier record with that key ranks strictly worse, and no later one ranks
   * strictly better. So it is minimal, and the first of the minimal ones.
   */
  ghost predicate SelectedWithin(rs: seq<ResultNode>, n: nat, i: int)
    requires n <= |rs|
  {
    && 0 <= i < n
    && forall j :: 0 <= j < n && KeyOf(rs[j]) == KeyOf(rs[i]) ==>
         && (j < i ==> RankLess(RankOf(rs[i]), RankOf(rs[j])))
         && (i < j ==> !RankLess(RankOf(rs[j]), RankOf(rs[i])))
  }

  ghost predicate SelectedAt(rs: seq<ResultNode>, i: int) {
    SelectedWithin(rs, |rs|, i)
  }

  /** `r` is the record of `rs` selected for its key. */
  ghost predicate Kept(rs: seq<ResultNode>, r: ResultNode) {
    exists i :: SelectedAt(rs, i) && rs[i] == r
  }

  /**
   * `out` is a deduplication of `rs`: its keys ascend strictly, they are exactly
   * the keys of `rs`, and each of its records is the one selected for its key.
   */
  ghost predicate Deduplicated(rs: seq<ResultNode>, out: seq<ResultNode>) {
    && StrictlyAscending(Keys(out))
    && KeySet(out) == KeySet(rs)
    && forall j :: 0 <= j < |out| ==> Kept(rs, out[j])
  }

  ghost predicate DistinctKeys(rs: seq<ResultNode>) {
    forall i, j :: 0 <= i < j < |rs| ==> KeyOf(rs[i]) != KeyOf(rs[j])
  }

  /** Inserting a new key into the ordered key sequence of the map. */
  method InsertKey(keys: seq<Key>, key: Key) returns (r: seq<Key>)
    requires StrictlyAscending(keys) && key !in keys
    ensures StrictlyAscending(r)
    ensures forall k :: k in r <==> k in keys || k == key
    ensures |r| == |keys| + 1
  {
    var i := 0;
    while i < |keys| && KeyLess(keys[i], key)
      invariant 0 <= i <= |keys|
      invariant forall j :: 0 <= j < i ==> KeyLess(keys[j], key)
    {
      i := i + 1;
    }
    forall j | i <= j < |keys|
      ensures KeyLess(key, keys[j])
    {
      KeyLessTotal(keys[i], key);
      if j > i {
        KeyLessTransitive(key, keys[i], keys[j]);
      }
    }
    r := keys[..i] + [key] + keys[i..];
    assert forall j :: 0 <= j < i ==> r[j] == keys[j];
    assert r[i] == key;
    assert forall j :: i < j < |r| ==> r[j] == keys[j - 1];
    forall p, q | 0 <= p < q < |r|
      ensures KeyLess(r[p], r[q])
    {
      if p < i && q > i {
        KeyLessTransitive(r[p], key, r[q]);
      }
    }
  }

  /** `deduplicate_results`: a fold of the records into the ordered map, then its values. */
  method DeduplicateResults(results: seq<ResultNode>) returns (deduplicated: seq<ResultNode>)
    ensures Deduplicated(results, deduplicated)
    ensures |deduplicated| <= |results|
  {
    var bestByLocation: map<Key, nat> := map[];
    var order: seq<Key> := [];
    for n := 0 to |results|
      invariant bestByLocation == BestIndex(results, n)
      invariant StrictlyAscending(order)
      invariant forall k :: k in order <==> k in bestByLocation
      invariant |order| <= n
    {
      var r := results[n];
      var key := KeyOf(r);
      if key in bestByLocation {
        var current := results[bestByLocation[key]];
        if RankLess(RankOf(r), RankOf(current)) {
          bestByLocation := bestByLocation[key := n];
        }
      } else {
        order := InsertKey(order, key);
        bestByLocation := bestByLocation[key := n];
      }
    }
    deduplicated := seq(|order|, j requires 0 <= j < |order| => results[bestByLocation[order[j]]]);
    ValuesInKeyOrder(results, order, deduplicated);
  }

  /** Listing the final map's values in key order yields a deduplication. */
  lemma {:induction false} ValuesInKeyOrder(rs: seq<ResultNode>, order: seq<Key>, out: seq<ResultNode>)
    requires StrictlyAscending(order)
    requires forall k :: k in order <==> k in BestIndex(rs, |rs|)
    requires |out| == |order|
    requires forall j :: 0 <= j < |order| ==> out[j] == rs[BestIndex(rs, |rs|)[order[j]]]
    ensures Deduplicated(rs, out)
  {
    var best := BestIndex(rs, |rs|);
    assert Keys(out) == order;
    assert KeySet(out) == KeySet(rs) by {
      KeysCoverKeySet(out);
      BestIndexKeys(rs, |rs|);
      assert rs[..|rs|] == rs;
    }
    BestIndexSelected(rs, |rs|);
    forall j | 0 <= j < |out|
      ensures Kept(rs, out[j])
    {
      var i := best[order[j]];
      assert SelectedAt(rs, i) && rs[i] == out[j];
    }
  }

  lemma {:induction false} BestIndexKeys(rs: seq<ResultNode>, n: nat)
    requires n <= |rs|
    ensures BestIndex(rs, n).Keys == KeySet(rs[..n])
    decreases n
  {
    if n > 0 {
      BestIndexKeys(rs, n - 1);
      assert rs[..n] == rs[..n - 1] + [rs[n - 1]];
      assert KeySet(rs[..n]) == KeySet(rs[..n - 1]) + {KeyOf(rs[n - 1])};
    }
  }

  lemma {:induction false} BestIndexSelected(rs: seq<ResultNode>, n: nat)
    requires n <= |rs|
    ensures forall k :: k in BestIndex(rs, n) ==> SelectedWithin(rs, n, BestIndex(rs, n)[k])
    decreases n
  {
    if n > 0 {
      BestIndexSelected(rs, n - 1);
      BestIndexKeys(rs, n - 1);
      forall k | k in BestIndex(rs, n)
        ensures SelectedWithin(rs, n, BestIndex(rs, n)[k])
      {
        StepSelected(rs, n - 1, k);
      }
    }
  }

  /** One step of the fold keeps every entry of the map selected. */
  lemma StepSelected(rs: seq<ResultNode>, m: nat, k: Key)
    requires m < |rs|
    requires forall k' :: k' in BestIndex(rs, m) ==> SelectedWithin(rs, m, BestIndex(rs, m)[k'])
    requires BestIndex(rs, m).Keys == KeySet(rs[..m])
    requires k in BestIndex(rs, m + 1)
    ensures SelectedWithin(rs, m + 1, BestIndex(rs, m + 1)[k])
  {
    var prev := BestIndex(rs, m);
    var key := KeyOf(rs[m]);
    if k != key {
      KeepSelected(rs, m + 1, prev[k]);
    } else if key !in prev {
      FirstOfItsKey(rs, m + 1);
    } else if RankLess(RankOf(rs[m]), RankOf(rs[prev[key]])) {
      ReplaceSelected(rs, m + 1, prev[key]);
    } else {
      KeepSelected(rs, m + 1, prev[key]);
    }
  }

  /** The first record with a key is selected among the records so far. */
  lemma FirstOfItsKey(rs: seq<ResultNode>, n: nat)
    requires 0 < n <= |rs| && KeyOf(rs[n - 1]) !in KeySet(rs[..n - 1])
    ensures SelectedWithin(rs, n, n - 1)
  {
    forall j | 0 <= j < n - 1
      ensures KeyOf(rs[j]) != KeyOf(rs[n - 1])
    {
      assert rs[..n - 1][j] == rs[j];
    }
  }

  /** A record that neither shares the key nor ranks strictly lower leaves the selection in place. */
  lemma KeepSelected(rs: seq<ResultNode>, n: nat, i: int)
    requires 0 < n <= |rs| && SelectedWithin(rs, n - 1, i)
    requires KeyOf(rs[n - 1]) == KeyOf(rs[i]) ==> !RankLess(RankOf(rs[n - 1]), RankOf(rs[i]))
    ensures SelectedWithin(rs, n, i)
  {
  }

  /** A record that ranks strictly below the kept one of its key takes its place. */
  lemma ReplaceSelected(rs: seq<ResultNode>, n: nat, i: int)
    requires 0 < n <= |rs| && SelectedWithin(rs, n - 1, i)
    requires KeyOf(rs[n - 1]) == KeyOf(rs[i]) && RankLess(RankOf(rs[n - 1]), RankOf(rs[i]))
    ensures SelectedWithin(rs, n, n - 1)
  {
    var x := RankOf(rs[n - 1]);
    var b := RankOf(rs[i]);
    forall j | 0 <= j < n - 1 && KeyOf(rs[j]) == KeyOf(rs[i])
      ensures RankLess(x, RankOf(rs[j]))
    {
      if j != i {
        if RankLess(b, RankOf(rs[j])) {
          RankLessTransitive(x, b, RankOf(rs[j]));
        } else {
          RankLessTotal(b, RankOf(rs[j]));
        }
      }
    }
  }

  /** The record kept for a key ranks no worse than any record with that key. */
  lemma SelectedIsMinimal(rs: seq<ResultNode>, i: int, j: int)
    requires SelectedAt(rs, i) && 0 <= j < |rs| && KeyOf(rs[j]) == KeyOf(rs[i])
    ensures !RankLess(RankOf(rs[j]), RankOf(rs[i]))
  {
    if j < i && RankLess(RankOf(rs[j]), RankOf(rs[i])) {
      RankLessTransitive(RankOf(rs[j]), RankOf(rs[i]), RankOf(rs[j]));
    }
  }

  /** Only one index is selected per key. */
  lemma SelectedUnique(rs: seq<ResultNode>, i: int, i': int)
    requires SelectedAt(rs, i) && SelectedAt(rs, i') && KeyOf(rs[i]) == KeyOf(rs[i'])
    ensures i == i'
  {
  }

  /**
   * Exactly one record per key: every key of the input is present, and no two
   * records of the output share a key. Records on different lines are therefore
   * never merged, however close their spans are.
   */
  lemma OnePerKey(rs: seq<ResultNode>, out: seq<ResultNode>)
    requires Deduplicated(rs, out)
    ensures forall r :: r in rs ==> exists j :: 0 <= j < |out| && KeyOf(out[j]) == KeyOf(r)
    ensures forall j1, j2 :: 0 <= j1 < j2 < |out| ==> KeyOf(out[j1]) != KeyOf(out[j2])
  {
    KeysCoverKeySet(out);
    forall r | r in rs
      ensures exists j :: 0 <= j < |out| && KeyOf(out[j]) == KeyOf(r)
    {
      assert KeyOf(r) in KeySet(rs);
      var j :| 0 <= j < |out| && Keys(out)[j] == KeyOf(r);
    }
    forall j1, j2 | 0 <= j1 < j2 < |out|
      ensures KeyOf(out[j1]) != KeyOf(out[j2])
    {
      assert KeyLess(Keys(out)[j1], Keys(out)[j2]);
      KeyLessIrreflexive(KeyOf(out[j1]));
    }
  }

  /**
   * The record kept for a key comes from the input, no record with that key
   * ranks strictly lower, and among records of equal rank the earliest is kept.
   */
  lemma KeptIsFirstMinimal(rs: seq<ResultNode>, out: seq<ResultNode>, j: int, p: int)
    requires Deduplicated(rs, out)
    requires 0 <= j < |out| && 0 <= p < |rs| && KeyOf(rs[p]) == KeyOf(out[j])
    ensures out[j] in rs
    ensures !RankLess(RankOf(rs[p]), RankOf(out[j]))
    ensures RankOf(rs[p]) == RankOf(out[j]) ==> exists i :: 0 <= i <= p && rs[i] == out[j]
  {
    assert Kept(rs, out[j]);
    var i :| SelectedAt(rs, i) && rs[i] == out[j];
    SelectedIsMinimal(rs, i, p);
  }

  /** The deduplication of a sequence is unique. */
  lemma Deterministic(rs: seq<ResultNode>, a: seq<ResultNode>, b: seq<ResultNode>)
    requires Deduplicated(rs, a) && Deduplicated(rs, b)
    ensures a == b
  {
    KeysCoverKeySet(a);
    KeysCoverKeySet(b);
    AscendingUnique(Keys(a), Keys(b));
    forall j | 0 <= j < |a|
      ensures a[j] == b[j]
    {
      assert Kept(rs, a[j]) && Kept(rs, b[j]);
      var i :| SelectedAt(rs, i) && rs[i] == a[j];
      var i' :| SelectedAt(rs, i') && rs[i'] == b[j];
      assert Keys(a)[j] == Keys(b)[j];
      SelectedUnique(rs, i, i');
    }
  }

  /**
   * Reordering the input changes nothing the caller can compare: for every
   * permutation the output has the same keys in the same order and, per key,
   * the same `(line_number, span, start.character, end.character)`.
   */
  lemma PermutationInvariant(rs: seq<ResultNode>, ps: seq<ResultNode>, a: seq<ResultNode>, b: seq<ResultNode>)
    requires multiset(rs) == multiset(ps)
    requires Deduplicated(rs, a) && Deduplicated(ps, b)
    ensures |a| == |b|
    ensures forall j :: 0 <= j < |a| ==> KeyOf(a[j]) == KeyOf(b[j]) && RankOf(a[j]) == RankOf(b[j])
  {
    assert forall r :: r in rs <==> r in ps by {
      forall r
        ensures r in rs <==> r in ps
      {
        assert r in rs <==> r in multiset(rs);
        assert r in ps <==> r in multiset(ps);
      }
    }
    assert KeySet(rs) == KeySet(ps);
    KeysCoverKeySet(a);
    KeysCoverKeySet(b);
    AscendingUnique(Keys(a), Keys(b));
    forall j | 0 <= j < |a|
      ensures KeyOf(a[j]) == KeyOf(b[j]) && RankOf(a[j]) == RankOf(b[j])
    {
      assert Keys(a)[j] == Keys(b)[j];
      assert Kept(rs, a[j]) && Kept(ps, b[j]);
      var i :| SelectedAt(rs, i) && rs[i] == a[j];
      var i' :| SelectedAt(ps, i') && ps[i'] == b[j];
      assert a[j] in ps;
      var p :| 0 <= p < |ps| && ps[p] == a[j];
      SelectedIsMinimal(ps, i', p);
      assert b[j] in rs;
      var q :| 0 <= q < |rs| && rs[q] == b[j];
      SelectedIsMinimal(rs, i, q);
      RankLessTotal(RankOf(a[j]), RankOf(b[j]));
    }
  }

  /** A deduplicated sequence is its own deduplication. */
  lemma SelfDeduplicated(rs: seq<ResultNode>, out: seq<ResultNode>)
    requires Deduplicated(rs, out)
    ensures Deduplicated(out, out)
  {
    OnePerKey(rs, out);
    forall j | 0 <= j < |out|
      ensures Kept(out, out[j])
    {
      assert SelectedAt(out, j);
    }
  }

  /** Deduplicating the output again gives the output back. */
  lemma Idempotent(rs: seq<ResultNode>, out: seq<ResultNode>, again: seq<ResultNode>)
    requires Deduplicated(rs, out) && Deduplicated(out, again)
    ensures again == out
  {
    SelfDeduplicated(rs, out);
    Deterministic(out, out, again);
  }

  ghost predicate Distinct(s: seq<ResultNode>) {
    forall i, j :: 0 <= i < j < |s| ==> s[i] != s[j]
  }

  lemma {:induction false} DistinctMultiplicity(s: seq<ResultNode>, x: ResultNode)
    requires Distinct(s)
    ensures multiset(s)[x] == if x in s then 1 else 0
    decreases |s|
  {
    if s != [] {
      var init := s[..|s| - 1];
      assert s == init + [s[|s| - 1]];
      DistinctMultiplicity(init, x);
    }
  }

  /** When the input keys are already distinct, the output is the input reordered by key. */
  lemma DistinctKeysReordered(rs: seq<ResultNode>, out: seq<ResultNode>)
    requires Deduplicated(rs, out) && DistinctKeys(rs)
    ensures multiset(out) == multiset(rs)
  {
    OnePerKey(rs, out);
    forall x
      ensures x in out <==> x in rs
    {
      if x in out {
        var j :| 0 <= j < |out| && out[j] == x;
        assert Kept(rs, out[j]);
      }
      if x in rs {
        var i :| 0 <= i < |rs| && rs[i] == x;
        var j :| 0 <= j < |out| && KeyOf(out[j]) == KeyOf(x);
        assert Kept(rs, out[j]);
        var i' :| SelectedAt(rs, i') && rs[i'] == out[j];
        assert i' == i;
      }
    }
    forall x
      ensures multiset(out)[x] == multiset(rs)[x]
    {
      DistinctMultiplicity(out, x);
      DistinctMultiplicity(rs, x);
    }
  }

  /** The output is empty exactly when the input is. */
  lemma EmptyExactlyWhenInputEmpty(rs: seq<ResultNode>, out: seq<ResultNode>)
    requires Deduplicated(rs, out)
    ensures |out| == 0 <==> |rs| == 0
  {
    if |rs| > 0 {
      assert KeyOf(rs[0]) in KeySet(out);
    }
    if |out| > 0 {
      assert KeyOf(out[0]) in KeySet(rs);
    }
  }
}
