/** The list utilities of src/utils/dateUtils.ts over any record that
    carries a timestamp: month filtering, newest-first sorting and grouping
    by day. `dateOf` and `keyOf` stand for decoding a record's ISO date
    string; the parse itself is not modelled. */
module DateUtils {
  import opened Seqs
  import opened Dates

  /** The membership test `filterByMonth` applies to every item. */
  function InMonthOf<T>(dateOf: T -> DateTime, ref: DateTime): T -> bool
    requires Valid(ref)
  {
    x => InMonth(dateOf(x), ref)
  }

  /** `filterByMonth`: the items whose timestamp lies in `ref`'s month
      window, in their original order. */
  function FilterByMonth<T>(items: seq<T>, dateOf: T -> DateTime, ref: DateTime): (r: seq<T>)
    requires Valid(ref)
    ensures IsSubsequence(r, items)
    ensures forall i :: 0 <= i < |r| ==> InMonth(dateOf(r[i]), ref)
    ensures forall i :: 0 <= i < |items| ==> (items[i] in r <==> InMonth(dateOf(items[i]), ref))
  {
    FilterIsSubsequence(items, InMonthOf(dateOf, ref));
    Filter(items, InMonthOf(dateOf, ref))
  }

  /** For items with valid timestamps, `filterByMonth` keeps exactly the
      items of the reference's calendar month, in the reference's year as
      the `Date` constructor reads it. */
  lemma FilterByMonthKeepsSameMonth<T>(items: seq<T>, dateOf: T -> DateTime, ref: DateTime)
    requires Valid(ref)
    requires forall i :: 0 <= i < |items| ==> Valid(dateOf(items[i]))
    ensures forall i :: 0 <= i < |items| ==>
      (items[i] in FilterByMonth(items, dateOf, ref) <==>
       dateOf(items[i]).year == FullYear(ref.year) && dateOf(items[i]).month == ref.month)
  {
    forall i | 0 <= i < |items| {
      InMonthIffSameMonth(dateOf(items[i]), ref);
    }
  }

  /** Filtering an already filtered list by the same month changes nothing. */
  lemma FilterByMonthIdempotent<T>(items: seq<T>, dateOf: T -> DateTime, ref: DateTime)
    requires Valid(ref)
    ensures FilterByMonth(FilterByMonth(items, dateOf, ref), dateOf, ref)
         == FilterByMonth(items, dateOf, ref)
  {
    FilterIdempotent(items, InMonthOf(dateOf, ref));
  }

  /** The same list filtered by references whose windows are different
      calendar months gives results with no item in common. */
  lemma FilterByMonthDisjoint<T>(items: seq<T>, dateOf: T -> DateTime, a: DateTime, b: DateTime)
    requires Valid(a) && Valid(b)
    requires (FullYear(a.year), a.month) != (FullYear(b.year), b.month)
    ensures forall i :: 0 <= i < |items| ==>
      !(items[i] in FilterByMonth(items, dateOf, a) && items[i] in FilterByMonth(items, dateOf, b))
  {
  }

  /** References whose windows are the same calendar month filter alike,
      e.g. a date in the year 50 and one in 1950. */
  lemma FilterByMonthSameWindow<T>(items: seq<T>, dateOf: T -> DateTime, a: DateTime, b: DateTime)
    requires Valid(a) && Valid(b)
    requires (FullYear(a.year), a.month) == (FullYear(b.year), b.month)
    ensures FilterByMonth(items, dateOf, a) == FilterByMonth(items, dateOf, b)
  {
    assert MonthRange(a) == MonthRange(b);
    FilterCongruent(items, InMonthOf(dateOf, a), InMonthOf(dateOf, b));
  }

  /** Every element is at least as recent as every element after it. */
  ghost predicate NewestFirst<T>(s: seq<T>, dateOf: T -> DateTime) {
    forall i, j :: 0 <= i < j < |s| ==> NotAfter(dateOf(s[j]), dateOf(s[i]))
  }

  /** Places `x` before the first element of `s` that is not newer than it,
      so that among equal timestamps `x` comes first. */
  function InsertNewestFirst<T>(x: T, s: seq<T>, dateOf: T -> DateTime): (r: seq<T>)
    ensures |r| == |s| + 1
    ensures multiset(r) == multiset(s) + multiset{x}
  {
    if |s| == 0 then [x]
    else if NotAfter(dateOf(s[0]), dateOf(x)) then [x] + s
    else
      assert s == [s[0]] + s[1..];
      [s[0]] + InsertNewestFirst(x, s[1..], dateOf)
  }

  lemma {:induction false} InsertKeepsNewestFirst<T>(x: T, s: seq<T>, dateOf: T -> DateTime)
    requires NewestFirst(s, dateOf)
    ensures NewestFirst(InsertNewestFirst(x, s, dateOf), dateOf)
    decreases |s|
  {
    if |s| == 0 {
    } else if NotAfter(dateOf(s[0]), dateOf(x)) {
      var r := [x] + s;
      forall i, j | 0 <= i < j < |r|
        ensures NotAfter(dateOf(r[j]), dateOf(r[i]))
      {
        if i == 0 {
          NotAfterIsTotalOrder(dateOf(s[j - 1]), dateOf(s[0]), dateOf(x));
        }
      }
    } else {
      var t := InsertNewestFirst(x, s[1..], dateOf);
      InsertKeepsNewestFirst(x, s[1..], dateOf);
      var r := [s[0]] + t;
      InsertedNotNewer(x, s, dateOf);
      forall i, j | 0 <= i < j < |r|
        ensures NotAfter(dateOf(r[j]), dateOf(r[i]))
      {
        if i > 0 {
          assert r[i] == t[i - 1] && r[j] == t[j - 1];
        }
      }
    }
  }

  /** When `x` is older than the head of a newest-first list, nothing in
      the rest with `x` inserted is newer than that head. */
  lemma InsertedNotNewer<T>(x: T, s: seq<T>, dateOf: T -> DateTime)
    requires |s| > 0 && NewestFirst(s, dateOf) && !NotAfter(dateOf(s[0]), dateOf(x))
    ensures forall j :: 0 <= j < |InsertNewestFirst(x, s[1..], dateOf)| ==>
              NotAfter(dateOf(InsertNewestFirst(x, s[1..], dateOf)[j]), dateOf(s[0]))
  {
    var t := InsertNewestFirst(x, s[1..], dateOf);
    forall j | 0 <= j < |t|
      ensures NotAfter(dateOf(t[j]), dateOf(s[0]))
    {
      assert t[j] in multiset(t);
      if t[j] != x {
        assert t[j] in multiset(s[1..]);
        var k :| 0 <= k < |s[1..]| && s[1..][k] == t[j];
        assert s[k + 1] == t[j];
      } else {
        NotAfterIsTotalOrder(dateOf(s[0]), dateOf(x), dateOf(x));
      }
    }
  }

  /** `sortByDate`: a sorted copy, newest first. `Array.prototype.sort` is
      stable, so items with equal timestamps keep their input order. The
      input itself is a value and is untouched. */
  function SortByDate<T>(items: seq<T>, dateOf: T -> DateTime): (r: seq<T>)
    ensures |r| == |items|
    ensures multiset(r) == multiset(items)
  {
    if |items| == 0 then []
    else
      assert items == [items[0]] + items[1..];
      InsertNewestFirst(items[0], SortByDate(items[1..], dateOf), dateOf)
  }

  /** The sorted copy is ordered newest first. */
  lemma {:induction false} SortByDateNewestFirst<T>(items: seq<T>, dateOf: T -> DateTime)
    ensures NewestFirst(SortByDate(items, dateOf), dateOf)
    decreases |items|
  {
    if |items| > 0 {
      SortByDateNewestFirst(items[1..], dateOf);
      InsertKeepsNewestFirst(items[0], SortByDate(items[1..], dateOf), dateOf);
    }
  }

  /** The items stamped exactly `d`. */
  function AtDate<T>(dateOf: T -> DateTime, d: DateTime): T -> bool {
    x => dateOf(x) == d
  }

  lemma NewestFirstTail<T>(s: seq<T>, dateOf: T -> DateTime)
    requires |s| > 0 && NewestFirst(s, dateOf)
    ensures NewestFirst(s[1..], dateOf)
  {
    var s1 := s[1..];
    forall i, j | 0 <= i < j < |s1|
      ensures NotAfter(dateOf(s1[j]), dateOf(s1[i]))
    {
      assert s1[i] == s[i + 1] && s1[j] == s[j + 1];
    }
  }

  /** When `x` is strictly older than `y`, at most one of them is stamped
      `d`, so their filtered singletons commute. */
  lemma OlderCommutes<T>(x: T, y: T, dateOf: T -> DateTime, d: DateTime)
    requires !NotAfter(dateOf(y), dateOf(x))
    ensures Filter([y], AtDate(dateOf, d)) + Filter([x], AtDate(dateOf, d))
         == Filter([x], AtDate(dateOf, d)) + Filter([y], AtDate(dateOf, d))
  {
    var p := AtDate(dateOf, d);
    assert !(p(x) && p(y));
  }

  lemma {:induction false} InsertKeepsTies<T>(x: T, s: seq<T>, dateOf: T -> DateTime, d: DateTime)
    requires NewestFirst(s, dateOf)
    ensures Filter(InsertNewestFirst(x, s, dateOf), AtDate(dateOf, d))
         == Filter([x], AtDate(dateOf, d)) + Filter(s, AtDate(dateOf, d))
    decreases |s|
  {
    var p := AtDate(dateOf, d);
    if |s| == 0 {
      assert s + [x] == [x];
    } else if NotAfter(dateOf(s[0]), dateOf(x)) {
      FilterConcat([x], s, p);
    } else {
      var s1 := s[1..];
      NewestFirstTail(s, dateOf);
      InsertKeepsTies(x, s1, dateOf, d);
      FilterConcat([s[0]], InsertNewestFirst(x, s1, dateOf), p);
      assert s == [s[0]] + s1;
      FilterConcat([s[0]], s1, p);
      OlderCommutes(x, s[0], dateOf, d);
    }
  }

  /** Stability: for every timestamp, the items stamped with it appear in
      the sorted list in the order they had in the input. */
  lemma {:induction false} SortByDateStable<T>(items: seq<T>, dateOf: T -> DateTime, d: DateTime)
    ensures Filter(SortByDate(items, dateOf), AtDate(dateOf, d)) == Filter(items, AtDate(dateOf, d))
    decreases |items|
  {
    if |items| > 0 {
      SortByDateStable(items[1..], dateOf, d);
      SortByDateNewestFirst(items[1..], dateOf);
      InsertKeepsTies(items[0], SortByDate(items[1..], dateOf), dateOf, d);
      assert items == [items[0]] + items[1..];
      FilterConcat([items[0]], items[1..], AtDate(dateOf, d));
    }
  }

  /** The items whose day key is `k`. */
  function KeyIs<T>(keyOf: T -> string, k: string): T -> bool {
    x => keyOf(x) == k
  }

  /** `groupByDate`: walks the items once, appending each to the group of
      its day key (the UTC `yyyy-mm-dd` prefix of its ISO timestamp). Every
      item's key becomes a key of the result, and every group is non-empty
      and holds only items with its key. */
  function GroupByDate<T>(items: seq<T>, keyOf: T -> string): (g: map<string, seq<T>>)
    ensures forall i :: 0 <= i < |items| ==> keyOf(items[i]) in g
    ensures forall k :: k in g ==> |g[k]| > 0 && forall j :: 0 <= j < |g[k]| ==> keyOf(g[k][j]) == k
    decreases |items|
  {
    if |items| == 0 then map[]
    else
      var n := |items| - 1;
      var prev := GroupByDate(items[..n], keyOf);
      var k := keyOf(items[n]);
      assert forall i :: 0 <= i < n ==> items[..n][i] == items[i];
      prev[k := (if k in prev then prev[k] else []) + [items[n]]]
  }

  /** Each group is exactly the items with that day key, in input order;
      a key no item has gets no group. */
  lemma {:induction false} GroupByDateIsFilter<T>(items: seq<T>, keyOf: T -> string, k: string)
    ensures var g := GroupByDate(items, keyOf);
            (k in g ==> g[k] == Filter(items, KeyIs(keyOf, k)))
            && (k !in g ==> Filter(items, KeyIs(keyOf, k)) == [])
    decreases |items|
  {
    if |items| > 0 {
      var n := |items| - 1;
      GroupByDateIsFilter(items[..n], keyOf, k);
      assert items == items[..n] + [items[n]];
      FilterConcat(items[..n], [items[n]], KeyIs(keyOf, k));
      assert Filter([items[n]], KeyIs(keyOf, k)) == if keyOf(items[n]) == k then [items[n]] else [];
    }
  }

  /** The total number of items in the groups named by `ks`. */
  function GroupSizes<T>(g: map<string, seq<T>>, ks: seq<string>): nat
    requires forall j :: 0 <= j < |ks| ==> ks[j] in g
  {
    if |ks| == 0 then 0
    else GroupSizes(g, ks[..|ks| - 1]) + |g[ks[|ks| - 1]]|
  }

  lemma {:induction false} GroupSizesAgree<T>(g: map<string, seq<T>>, h: map<string, seq<T>>, ks: seq<string>)
    requires forall j :: 0 <= j < |ks| ==> ks[j] in g && ks[j] in h && |g[ks[j]]| == |h[ks[j]]|
    ensures GroupSizes(g, ks) == GroupSizes(h, ks)
    decreases |ks|
  {
    if |ks| > 0 {
      GroupSizesAgree(g, h, ks[..|ks| - 1]);
    }
  }

  /** Growing the one group `k` of a key list without repetitions by one
      item grows the total by one. */
  lemma {:induction false} GroupSizesBump<T>(g: map<string, seq<T>>, ks: seq<string>, k: string, x: T)
    requires forall j :: 0 <= j < |ks| ==> ks[j] in g
    requires Distinct(ks) && k in ks
    ensures GroupSizes(g[k := g[k] + [x]], ks) == GroupSizes(g, ks) + 1
    decreases |ks|
  {
    var n := |ks| - 1;
    var h := g[k := g[k] + [x]];
    if ks[n] == k {
      assert k !in ks[..n];
      GroupSizesAgree(g, h, ks[..n]);
    } else {
      assert k in ks[..n];
      GroupSizesBump(g, ks[..n], k, x);
    }
  }

  /** The groups' keys are exactly the day keys that occur, which are the
      keys `KeysInOrder` lists. */
  lemma {:induction false} GroupKeysInOrder<T>(items: seq<T>, keyOf: T -> string)
    ensures forall k :: k in GroupByDate(items, keyOf) <==> k in KeysInOrder(items, keyOf)
    decreases |items|
  {
    if |items| > 0 {
      GroupKeysInOrder(items[..|items| - 1], keyOf);
    }
  }

  /** No item is lost or counted twice: the groups, taken in the order
      their keys first occur, hold as many items as the input. */
  lemma {:induction false} GroupByDateCountsAll<T>(items: seq<T>, keyOf: T -> string)
    ensures var g := GroupByDate(items, keyOf);
            var ks := KeysInOrder(items, keyOf);
            (forall j :: 0 <= j < |ks| ==> ks[j] in g) && GroupSizes(g, ks) == |items|
    decreases |items|, 1
  {
    GroupKeysInOrder(items, keyOf);
    if |items| > 0 {
      GroupCountStep(items, keyOf);
    }
  }

  lemma {:induction false} GroupCountStep<T>(items: seq<T>, keyOf: T -> string)
    requires |items| > 0
    ensures var g := GroupByDate(items, keyOf);
            var ks := KeysInOrder(items, keyOf);
            (forall j :: 0 <= j < |ks| ==> ks[j] in g) && GroupSizes(g, ks) == |items|
    decreases |items|, 0
  {
    var n := |items| - 1;
    GroupKeysInOrder(items, keyOf);
    GroupKeysInOrder(items[..n], keyOf);
    GroupByDateCountsAll(items[..n], keyOf);
    if keyOf(items[n]) in GroupByDate(items[..n], keyOf) {
      GroupCountOld(items, keyOf);
    } else {
      GroupCountNew(items, keyOf);
    }
  }

  lemma GroupCountOld<T>(items: seq<T>, keyOf: T -> string)
    requires |items| > 0
    requires var n := |items| - 1;
             var prev := GroupByDate(items[..n], keyOf);
             var pks := KeysInOrder(items[..n], keyOf);
             && keyOf(items[n]) in prev
             && (forall k :: k in prev <==> k in pks)
             && (forall j :: 0 <= j < |pks| ==> pks[j] in prev)
             && GroupSizes(prev, pks) == n
    ensures var g := GroupByDate(items, keyOf);
            var ks := KeysInOrder(items, keyOf);
            (forall j :: 0 <= j < |ks| ==> ks[j] in g) && GroupSizes(g, ks) == |items|
  {
    var n := |items| - 1;
    var prev := GroupByDate(items[..n], keyOf);
    var pks := KeysInOrder(items[..n], keyOf);
    var k := keyOf(items[n]);
    assert k in pks;
    var g := GroupByDate(items, keyOf);
    var ks := KeysInOrder(items, keyOf);
    assert ks == pks;
    assert g == prev[k := prev[k] + [items[n]]];
    GroupSizesBump(prev, pks, k, items[n]);
    assert GroupSizes(g, ks) == n + 1;
  }

  lemma GroupCountNew<T>(items: seq<T>, keyOf: T -> string)
    requires |items| > 0
    requires var n := |items| - 1;
             var prev := GroupByDate(items[..n], keyOf);
             var pks := KeysInOrder(items[..n], keyOf);
             && keyOf(items[n]) !in prev
             && (forall k :: k in prev <==> k in pks)
             && (forall j :: 0 <= j < |pks| ==> pks[j] in prev)
             && GroupSizes(prev, pks) == n
    ensures var g := GroupByDate(items, keyOf);
            var ks := KeysInOrder(items, keyOf);
            (forall j :: 0 <= j < |ks| ==> ks[j] in g) && GroupSizes(g, ks) == |items|
  {
    var n := |items| - 1;
    var prev := GroupByDate(items[..n], keyOf);
    var pks := KeysInOrder(items[..n], keyOf);
    var k := keyOf(items[n]);
    var g := GroupByDate(items, keyOf);
    var ks := KeysInOrder(items, keyOf);
    assert ks == pks + [k];
    assert ks[..|ks| - 1] == pks;
    assert g == prev[k := [] + [items[n]]];
    GroupSizesAgree(prev, g, pks);
  }
}
