/** Keeping the k highest-ranked rows: a bounded heap, and `heapq.nlargest` over positions. */
module TopSelection {
  import opened Orders

  /** Rows that the order cannot separate are the same row. */
  ghost predicate NoTies<T>(rows: seq<T>, le: (T, T) -> bool)
  {
    forall x, y :: x in rows && y in rows && le(x, y) && le(y, x) ==> x == y
  }

  ghost predicate Converse<T(!new)>(ge: (T, T) -> bool, le: (T, T) -> bool)
  {
    forall a, b :: ge(a, b) == le(b, a)
  }

  /** The k highest-ranked rows, lowest first: `heap[0]` is the first of them. */
  function TopK<T>(rows: seq<T>, k: nat, le: (T, T) -> bool): seq<T> { LastOf(SortBy(rows, le), k) }

  /** The kept rows are rows, as many as there may be, and no row left out outranks one of them. */
  lemma TopKMeaning<T(!new)>(rows: seq<T>, k: nat, le: (T, T) -> bool)
    requires TotalPreorder(le)
    ensures |TopK(rows, k, le)| == if |rows| < k then |rows| else k
    ensures multiset(TopK(rows, k, le)) <= multiset(rows)
    ensures forall x, y :: x in rows && x !in TopK(rows, k, le) && y in TopK(rows, k, le) ==> le(x, y)
  {
    var sorted := SortBy(rows, le);
    SortIsSorted(rows, le);
    MultisetMembers(sorted, rows);
    if k < |sorted| {
      var n := |sorted| - k;
      assert sorted == sorted[..n] + sorted[n..];
      forall x, y | x in rows && x !in sorted[n..] && y in sorted[n..] ensures le(x, y) {
        assert x in sorted[..n];
        var i :| 0 <= i < n && sorted[i] == x;
        var j :| n <= j < |sorted| && sorted[j] == y;
      }
    }
  }

  /** `heappush` below the limit, `heapreplace` when the row outranks `heap[0]`. */
  function Offer<T>(heap: seq<T>, row: T, k: nat, le: (T, T) -> bool): seq<T>
    requires k > 0
  {
    if |heap| < k then InsertBy(row, heap, le)
    else if !le(row, heap[0]) then InsertBy(row, heap[1..], le)
    else heap
  }

  lemma {:induction false} InsertAbove<T(!new)>(x: T, a: seq<T>, b: seq<T>, le: (T, T) -> bool)
    requires forall i :: 0 <= i < |a| ==> !le(x, a[i])
    ensures InsertBy(x, a + b, le) == a + InsertBy(x, b, le)
  {
    if a == [] {
      assert a + b == b;
    } else {
      assert (a + b)[0] == a[0] && (a + b)[1..] == a[1..] + b;
      InsertAbove(x, a[1..], b, le);
      assert [a[0]] + (a[1..] + InsertBy(x, b, le)) == a + InsertBy(x, b, le);
    }
  }

  lemma {:induction false} InsertBelow<T>(x: T, a: seq<T>, b: seq<T>, le: (T, T) -> bool)
    requires b != [] && le(x, b[0])
    ensures InsertBy(x, a + b, le) == InsertBy(x, a, le) + b
  {
    if a == [] {
      assert a + b == b;
    } else if le(x, a[0]) {
      assert [x] + (a + b) == [x] + a + b;
    } else {
      assert (a + b)[1..] == a[1..] + b;
      InsertBelow(x, a[1..], b, le);
    }
  }

  lemma SortAppend<T(!new)>(rows: seq<T>, row: T, le: (T, T) -> bool)
    requires TotalPreorder(le) && NoTies(rows + [row], le)
    ensures SortBy(rows + [row], le) == InsertBy(row, SortBy(rows, le), le)
  {
    SortIsSorted(rows, le);
    SortIsSorted(rows + [row], le);
    InsertSorted(row, SortBy(rows, le), le);
    MultisetMembers(SortBy(rows + [row], le), rows + [row]);
    SortedUnique(SortBy(rows + [row], le), InsertBy(row, SortBy(rows, le), le), le);
  }

  /** Offering one more row keeps the heap at the k highest-ranked rows seen. */
  lemma OfferKeepsTopK<T(!new)>(rows: seq<T>, row: T, k: nat, le: (T, T) -> bool)
    requires k > 0 && TotalPreorder(le) && NoTies(rows + [row], le)
    ensures Offer(TopK(rows, k, le), row, k, le) == TopK(rows + [row], k, le)
  {
    SortAppend(rows, row, le);
    SortIsSorted(rows, le);
    if |rows| >= k {
      OfferToSorted(SortBy(rows, le), row, k, le);
    }
  }

  lemma OfferToSorted<T(!new)>(s: seq<T>, row: T, k: nat, le: (T, T) -> bool)
    requires 0 < k <= |s| && TotalPreorder(le) && Sorted(s, le)
    ensures Offer(LastOf(s, k), row, k, le) == LastOf(InsertBy(row, s, le), k)
  {
    var a, b := s[..|s| - k], s[|s| - k..];
    assert s == a + b;
    forall i | 0 <= i < |a| && !le(row, b[0]) ensures !le(row, a[i]) {
      assert le(a[i], b[0]) by { assert le(s[i], s[|s| - k]); }
    }
    OfferToSplit(a, b, row, le);
  }

  lemma OfferToSplit<T(!new)>(a: seq<T>, b: seq<T>, row: T, le: (T, T) -> bool)
    requires b != [] && (le(row, b[0]) || forall i :: 0 <= i < |a| ==> !le(row, a[i]))
    ensures Offer(b, row, |b|, le) == LastOf(InsertBy(row, a + b, le), |b|)
  {
    if le(row, b[0]) {
      InsertBelow(row, a, b, le);
      LastOfAppend(InsertBy(row, a, le), b);
    } else {
      var rest := InsertBy(row, b[1..], le);
      InsertAbove(row, a, b, le);
      assert InsertBy(row, b, le) == [b[0]] + rest;
      assert a + ([b[0]] + rest) == (a + [b[0]]) + rest;
      LastOfAppend(a + [b[0]], rest);
    }
  }

  lemma LastOfAppend<T>(a: seq<T>, b: seq<T>)
    ensures LastOf(a + b, |b|) == b
  {
  }

  // ---------------------------------------------------- nlargest over positions

  function At<T>(rows: seq<T>): nat -> T
    requires rows != []
  {
    (i: nat) => if i < |rows| then rows[i] else rows[0]
  }

  function PositionsBy<T>(rows: seq<T>, le: (T, T) -> bool): (nat, nat) -> bool
    requires rows != []
  {
    (i: nat, j: nat) => le(At(rows)(i), At(rows)(j))
  }

  /** The positions of `rows`, ordered by their rows. */
  function Positions<T>(rows: seq<T>, ge: (T, T) -> bool): (r: seq<nat>)
    requires rows != []
    ensures |r| == |rows| && multiset(r) == multiset(Indices(|rows|))
  {
    SortBy<nat>(Indices(|rows|), PositionsBy(rows, ge))
  }

  /** `set(heapq.nlargest(k, range(len(rows)), key=...))`, where `ge` is the descending order of the key. */
  function Largest<T>(rows: seq<T>, k: nat, ge: (T, T) -> bool): set<nat>
    requires k < |rows|
  {
    set i | i in Positions(rows, ge)[..k]
  }

  /** The rows at the chosen positions, in their order. */
  function RowsAt<T>(rows: seq<T>, chosen: set<nat>): seq<T>
    requires rows != []
  {
    Map(Filter(Indices(|rows|), Among(chosen)), At(rows))
  }

  function Reverse<T>(s: seq<T>): (r: seq<T>)
    ensures |r| == |s| && forall i :: 0 <= i < |s| ==> r[i] == s[|s| - 1 - i]
    ensures multiset(r) == multiset(s)
  {
    if s == [] then []
    else
      assert s == [s[0]] + s[1..];
      Reverse(s[1..]) + [s[0]]
  }

  /** The descending order lists the ascending one backwards. */
  lemma DescendingIsReverse<T(!new)>(rows: seq<T>, le: (T, T) -> bool, ge: (T, T) -> bool)
    requires TotalPreorder(le) && NoTies(rows, le) && Converse(ge, le)
    ensures SortBy(rows, ge) == Reverse(SortBy(rows, le))
  {
    var up := SortBy(rows, le);
    SortIsSorted(rows, le);
    SortIsSorted(rows, ge);
    MultisetMembers(SortBy(rows, ge), rows);
    assert Sorted(Reverse(up), ge);
    SortedUnique(SortBy(rows, ge), Reverse(up), ge);
  }

  lemma LargestAreTopK<T(!new)>(rows: seq<T>, k: nat, le: (T, T) -> bool, ge: (T, T) -> bool, x: T)
    requires TotalPreorder(le) && NoTies(rows, le) && Converse(ge, le) && k < |rows|
    ensures x in SortBy(rows, ge)[..k] <==> x in TopK(rows, k, le)
  {
    DescendingIsReverse(rows, le, ge);
    FrontOfReverse(SortBy(rows, le), k, x);
  }

  lemma FrontOfReverse<T>(s: seq<T>, k: nat, x: T)
    requires k < |s|
    ensures x in Reverse(s)[..k] <==> x in LastOf(s, k)
  {
    if x in LastOf(s, k) {
      var i :| |s| - k <= i < |s| && s[i] == x;
      assert Reverse(s)[|s| - 1 - i] == x;
    }
    if x in Reverse(s)[..k] {
      var i :| 0 <= i < k && Reverse(s)[i] == x;
      assert s[|s| - 1 - i] == x;
      assert LastOf(s, k)[k - 1 - i] == x;
    }
  }

  /** A position is kept exactly when its row is among the k highest-ranked. */
  lemma LargestMeansTopK<T(!new)>(rows: seq<T>, k: nat, le: (T, T) -> bool, ge: (T, T) -> bool, i: nat)
    requires TotalPreorder(le) && NoTies(rows, le) && Converse(ge, le)
    requires Distinct(rows) && k < |rows| && i < |rows|
    ensures i in Largest(rows, k, ge) <==> rows[i] in TopK(rows, k, le)
  {
    LargestAreTopK(rows, k, le, ge, rows[i]);
    PositionsFollowRows(rows, ge);
    PositionInFront(rows, k, ge, i);
  }

  lemma PositionInFront<T(!new)>(rows: seq<T>, k: nat, ge: (T, T) -> bool, i: nat)
    requires Distinct(rows) && k < |rows| && i < |rows|
    requires forall q :: 0 <= q < |rows| ==> Positions(rows, ge)[q] < |rows| && SortBy(rows, ge)[q] == rows[Positions(rows, ge)[q]]
    ensures i in Largest(rows, k, ge) <==> rows[i] in SortBy(rows, ge)[..k]
  {
    var order, down := Positions(rows, ge), SortBy(rows, ge);
    if rows[i] in down[..k] {
      var q :| 0 <= q < k && down[q] == rows[i];
      assert rows[order[q]] == rows[i];
      assert order[q] == i;
      assert order[..k][q] == i;
    }
    if i in Largest(rows, k, ge) {
      var q :| 0 <= q < k && order[..k][q] == i;
      assert down[..k][q] == rows[i];
    }
  }

  /** The sorted positions point at the sorted rows. */
  lemma PositionsFollowRows<T(!new)>(rows: seq<T>, ge: (T, T) -> bool)
    requires rows != []
    ensures forall q :: 0 <= q < |rows| ==> Positions(rows, ge)[q] < |rows| && SortBy(rows, ge)[q] == rows[Positions(rows, ge)[q]]
  {
    var order := Positions(rows, ge);
    SortedRowsByPosition(rows, ge);
    MultisetMembers(order, Indices(|rows|));
    forall q | 0 <= q < |rows| ensures order[q] < |rows| && SortBy(rows, ge)[q] == rows[order[q]] {
      assert order[q] in Indices(|rows|);
    }
  }

  lemma SortedRowsByPosition<T(!new)>(rows: seq<T>, ge: (T, T) -> bool)
    requires rows != []
    ensures forall q :: 0 <= q < |rows| ==> SortBy(rows, ge)[q] == At(rows)(Positions(rows, ge)[q])
  {
    var at := At(rows);
    var order := PositionsBy(rows, ge);
    assert forall i: nat, j: nat :: order(i, j) == ge(at(i), at(j));
    SortMap<nat, T>(Indices(|rows|), at, order, ge);
    assert Map(Indices(|rows|), at) == rows;
  }

  lemma {:induction false} RowsAtIsFilter<T(!new)>(rows: seq<T>, n: nat, chosen: set<nat>, p: T -> bool)
    requires rows != [] && n <= |rows|
    requires forall i :: 0 <= i < n ==> (i in chosen <==> p(rows[i]))
    ensures Map(Filter(Indices(n), Among(chosen)), At(rows)) == Filter(rows[..n], p)
  {
    if n > 0 {
      RowsAtIsFilter(rows, n - 1, chosen, p);
      RowsAtStep(rows, n - 1, chosen);
      FilterNext(rows, n - 1, p);
    }
  }

  lemma RowsAtStep<T>(rows: seq<T>, m: nat, chosen: set<nat>)
    requires m < |rows|
    ensures Map(Filter(Indices(m + 1), Among(chosen)), At(rows))
            == Map(Filter(Indices(m), Among(chosen)), At(rows)) + if m in chosen then [rows[m]] else []
  {
    var last: seq<nat> := [m];
    assert Indices(m + 1) == Indices(m) + last;
    FilterAppend(Indices(m), last, Among(chosen));
    MapAppend(Filter(Indices(m), Among(chosen)), Filter(last, Among(chosen)), At(rows));
  }

  function In<T(==)>(rows: seq<T>): T -> bool { x => x in rows }

  lemma SubsetMultiset<T(!new)>(rows: seq<T>, part: seq<T>)
    requires Distinct(rows) && Distinct(part) && forall x :: x in part ==> x in rows
    ensures multiset(Filter(rows, In(part))) == multiset(part)
  {
    forall x ensures multiset(Filter(rows, In(part)))[x] == multiset(part)[x] {
      FilterCount(rows, In(part), x);
      DistinctCounts(rows, x);
      DistinctCounts(part, x);
    }
  }

  /** Capping the displayed list keeps the displayed order of the k highest-ranked rows. */
  lemma CapOfDisplayed<T(!new)>(all: seq<T>, k: nat, le: (T, T) -> bool, ge: (T, T) -> bool, display: (T, T) -> bool)
    requires TotalPreorder(le) && NoTies(all, le) && Converse(ge, le)
    requires Distinct(all) && 0 < k < |all|
    ensures var v := SortBy(all, display);
            RowsAt(v, Largest(v, k, ge)) == Filter(v, In(TopK(all, k, le)))
  {
    var v := SortBy(all, display);
    DistinctMultiset(all, v);
    MultisetMembers(all, v);
    SortForgetsOrder(all, v, le);
    assert TopK(v, k, le) == TopK(all, k, le);
    CapOfList(v, k, le, ge);
  }

  lemma CapOfList<T(!new)>(v: seq<T>, k: nat, le: (T, T) -> bool, ge: (T, T) -> bool)
    requires TotalPreorder(le) && NoTies(v, le) && Converse(ge, le)
    requires Distinct(v) && 0 < k < |v|
    ensures RowsAt(v, Largest(v, k, ge)) == Filter(v, In(TopK(v, k, le)))
  {
    var p := In(TopK(v, k, le));
    forall i | 0 <= i < |v| ensures i in Largest(v, k, ge) <==> p(v[i]) {
      LargestMeansTopK(v, k, le, ge, i);
    }
    RowsAtIsFilter(v, |v|, Largest(v, k, ge), p);
    assert v[..|v|] == v;
  }

  /** Displaying the k highest-ranked rows and capping the full display at k give the same list. */
  lemma TopKDisplayedIsCap<T(!new)>(all: seq<T>, k: nat, le: (T, T) -> bool, ge: (T, T) -> bool, display: (T, T) -> bool)
    requires TotalPreorder(le) && NoTies(all, le) && Converse(ge, le)
    requires TotalPreorder(display) && NoTies(all, display)
    requires Distinct(all) && 0 < k < |all|
    ensures var v := SortBy(all, display);
            SortBy(TopK(all, k, le), display) == RowsAt(v, Largest(v, k, ge))
  {
    var top := TopK(all, k, le);
    TopKIsPart(all, k, le);
    SubsetMultiset(all, top);
    FilterSort(all, display, In(top));
    SortForgetsOrder(top, Filter(all, In(top)), display);
    CapOfDisplayed(all, k, le, ge, display);
  }

  lemma SuffixFacts<T(!new)>(s: seq<T>, k: nat)
    requires Distinct(s)
    ensures Distinct(LastOf(s, k))
    ensures forall x :: x in LastOf(s, k) ==> x in s
  {
  }

  lemma TopKIsPart<T(!new)>(all: seq<T>, k: nat, le: (T, T) -> bool)
    requires Distinct(all)
    ensures Distinct(TopK(all, k, le))
    ensures forall x :: x in TopK(all, k, le) ==> x in all
  {
    var s := SortBy(all, le);
    DistinctMultiset(all, s);
    MultisetMembers(all, s);
    SuffixFacts(s, k);
    assert TopK(all, k, le) == LastOf(s, k);
  }
}
