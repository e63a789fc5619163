/** Order-preserving sequence operations shared by the date utilities, the
    finance utilities and the record store: `Array.prototype.filter` and the
    notions needed to state what it keeps. */
module Seqs {

  /** No value occurs twice. */
  predicate Distinct<T(==)>(s: seq<T>) {
    forall i, j :: 0 <= i < j < |s| ==> s[i] != s[j]
  }

  /** `sub` is obtained from `s` by deleting elements, the survivors keeping
      their relative order. Matching the first element greedily is complete. */
  ghost predicate IsSubsequence<T>(sub: seq<T>, s: seq<T>)
    decreases |s|
  {
    if |sub| == 0 then true
    else if |s| == 0 then false
    else if sub[0] == s[0] then IsSubsequence(sub[1..], s[1..])
    else IsSubsequence(sub, s[1..])
  }

  /** `Array.prototype.filter`: the elements of `s` that satisfy `p`, in order. */
  function Filter<T>(s: seq<T>, p: T -> bool): (r: seq<T>)
    ensures |r| <= |s|
    ensures forall i :: 0 <= i < |r| ==> p(r[i])
    ensures forall i :: 0 <= i < |r| ==> r[i] in s
    ensures forall i :: 0 <= i < |s| ==> (s[i] in r <==> p(s[i]))
  {
    if |s| == 0 then []
    else (if p(s[0]) then [s[0]] else []) + Filter(s[1..], p)
  }

  /** The position of the first element of `s` whose key is `k`, or `|s|`
      when there is none. */
  function FirstIndex<T, K(==)>(s: seq<T>, key: T -> K, k: K): (n: nat)
    ensures n <= |s|
    ensures n < |s| ==> key(s[n]) == k
    ensures forall i :: 0 <= i < n ==> key(s[i]) != k
    ensures n == |s| <==> forall i :: 0 <= i < |s| ==> key(s[i]) != k
    decreases |s|
  {
    if |s| == 0 then 0
    else
      var f := FirstIndex(s[..|s| - 1], key, k);
      if f < |s| - 1 then f
      else if key(s[|s| - 1]) == k then |s| - 1
      else |s|
  }

  /** The distinct values of `key` over `s` in order of first occurrence:
      the order in which a JavaScript object built by walking `s` gains those
      (non-numeric) property names. The order itself is stated by
      `KeysInOrderFirstOccurrence`. */
  function KeysInOrder<T, K(==)>(s: seq<T>, key: T -> K): (r: seq<K>)
    ensures Distinct(r)
    ensures forall i :: 0 <= i < |s| ==> key(s[i]) in r
    ensures forall j :: 0 <= j < |r| ==> exists i :: 0 <= i < |s| && key(s[i]) == r[j]
    decreases |s|
  {
    if |s| == 0 then []
    else
      var o := KeysInOrder(s[..|s| - 1], key);
      var k := key(s[|s| - 1]);
      if k in o then o else o + [k]
  }

  /** Every listed key occurs in `s`, and a key listed earlier first occurs
      earlier: with `Distinct` and the covering clause of `KeysInOrder`,
      this pins the list down as the keys in order of first occurrence. */
  lemma {:induction false} KeysInOrderFirstOccurrence<T, K>(s: seq<T>, key: T -> K)
    ensures forall j :: 0 <= j < |KeysInOrder(s, key)| ==> FirstIndex(s, key, KeysInOrder(s, key)[j]) < |s|
    ensures forall j', j :: 0 <= j' < j < |KeysInOrder(s, key)| ==>
              FirstIndex(s, key, KeysInOrder(s, key)[j']) < FirstIndex(s, key, KeysInOrder(s, key)[j])
    decreases |s|
  {
    if |s| > 0 {
      var p := s[..|s| - 1];
      KeysInOrderFirstOccurrence(p, key);
      KeysInOrderStep(s, key, KeysInOrder(p, key));
    }
  }

  /** Extending the list by one element keeps the key list in
      first-occurrence order: a listed key leaves it alone, a new one goes
      last. */
  lemma KeysInOrderStep<T, K>(s: seq<T>, key: T -> K, o: seq<K>)
    requires |s| > 0
    requires Distinct(o)
    requires forall i :: 0 <= i < |s| - 1 ==> key(s[i]) in o
    requires forall j :: 0 <= j < |o| ==> FirstIndex(s[..|s| - 1], key, o[j]) < |s| - 1
    requires forall j', j :: 0 <= j' < j < |o| ==> FirstIndex(s[..|s| - 1], key, o[j']) < FirstIndex(s[..|s| - 1], key, o[j])
    ensures var k := key(s[|s| - 1]);
            var r := if k in o then o else o + [k];
            && Distinct(r)
            && (forall i :: 0 <= i < |s| ==> key(s[i]) in r)
            && (forall j :: 0 <= j < |r| ==> FirstIndex(s, key, r[j]) < |s|)
            && (forall j', j :: 0 <= j' < j < |r| ==> FirstIndex(s, key, r[j']) < FirstIndex(s, key, r[j]))
  {
    var n := |s| - 1;
    var k := key(s[n]);
    var r := if k in o then o else o + [k];
    PrefixCovered(s, key, o);
    ListedKeysKeepIndex(s, key, o);
    if k in o {
      assert r == o;
    } else {
      NewKeyIndex(s, key, o);
      assert forall j :: 0 <= j < |o| ==> r[j] == o[j];
      assert r[|o|] == k;
      forall j', j | 0 <= j' < j < |r|
        ensures FirstIndex(s, key, r[j']) < FirstIndex(s, key, r[j])
      {
        if j == |o| {
          assert FirstIndex(s, key, r[j']) < n;
        }
      }
    }
  }

  lemma PrefixCovered<T, K>(s: seq<T>, key: T -> K, o: seq<K>)
    requires |s| > 0
    requires forall i :: 0 <= i < |s| - 1 ==> key(s[i]) in o
    ensures var k := key(s[|s| - 1]);
            forall i :: 0 <= i < |s| ==> key(s[i]) in (if k in o then o else o + [k])
  {
    var p := s[..|s| - 1];
    assert forall i :: 0 <= i < |s| - 1 ==> s[i] == p[i];
  }

  /** A key that occurs in the prefix first occurs at the same place in
      the whole list. */
  lemma ListedKeysKeepIndex<T, K>(s: seq<T>, key: T -> K, o: seq<K>)
    requires |s| > 0
    requires forall j :: 0 <= j < |o| ==> FirstIndex(s[..|s| - 1], key, o[j]) < |s| - 1
    ensures forall j :: 0 <= j < |o| ==> FirstIndex(s, key, o[j]) == FirstIndex(s[..|s| - 1], key, o[j])
  {
  }

  /** A key the prefix lacks first occurs at the last position. */
  lemma NewKeyIndex<T, K>(s: seq<T>, key: T -> K, o: seq<K>)
    requires |s| > 0
    requires forall i :: 0 <= i < |s| - 1 ==> key(s[i]) in o
    requires key(s[|s| - 1]) !in o
    ensures FirstIndex(s, key, key(s[|s| - 1])) == |s| - 1
  {
    var n := |s| - 1;
    var p := s[..n];
    var k := key(s[n]);
    assert forall i :: 0 <= i < n ==> key(p[i]) != k by {
      assert forall i :: 0 <= i < n ==> p[i] == s[i];
    }
    assert FirstIndex(p, key, k) == n;
  }

  lemma {:induction false} FilterIsSubsequence<T>(s: seq<T>, p: T -> bool)
    ensures IsSubsequence(Filter(s, p), s)
    decreases |s|
  {
    if |s| > 0 {
      FilterIsSubsequence(s[1..], p);
      if p(s[0]) {
        assert Filter(s, p) == [s[0]] + Filter(s[1..], p);
        assert Filter(s, p)[1..] == Filter(s[1..], p);
      } else {
        assert Filter(s, p) == Filter(s[1..], p);
      }
    }
  }

  lemma {:induction false} FilterConcat<T>(a: seq<T>, b: seq<T>, p: T -> bool)
    ensures Filter(a + b, p) == Filter(a, p) + Filter(b, p)
    decreases |a|
  {
    if |a| == 0 {
      assert a + b == b;
    } else {
      assert (a + b)[1..] == a[1..] + b;
      FilterConcat(a[1..], b, p);
    }
  }

  /** Filtering a list extended by one element extends the result by that
      element exactly when it passes. */
  lemma FilterSnoc<T>(s: seq<T>, x: T)
    ensures forall p: T -> bool {:trigger Filter(s + [x], p)} ::
      Filter(s + [x], p) == Filter(s, p) + (if p(x) then [x] else [])
  {
    forall p: T -> bool {
      FilterConcat(s, [x], p);
    }
  }

  /** Filtering twice by the same predicate keeps the same elements. */
  lemma {:induction false} FilterIdempotent<T>(s: seq<T>, p: T -> bool)
    ensures Filter(Filter(s, p), p) == Filter(s, p)
  {
    FilterAllPass(Filter(s, p), p);
  }

  /** A filter that rejects nothing returns its input. */
  lemma {:induction false} FilterAllPass<T>(s: seq<T>, p: T -> bool)
    requires forall i :: 0 <= i < |s| ==> p(s[i])
    ensures Filter(s, p) == s
    decreases |s|
  {
    if |s| > 0 {
      FilterAllPass(s[1..], p);
    }
  }

  /** Two predicates that agree on every element of `s` filter it alike. */
  lemma {:induction false} FilterCongruent<T>(s: seq<T>, p: T -> bool, q: T -> bool)
    requires forall i :: 0 <= i < |s| ==> p(s[i]) == q(s[i])
    ensures Filter(s, p) == Filter(s, q)
    decreases |s|
  {
    if |s| > 0 {
      FilterCongruent(s[1..], p, q);
    }
  }
}
