/** Longest-processing-time scheduling and its guarantee against every other assignment. */
module Makespan {
  import opened Arithmetic

  function Sum(w: seq<nat>): nat
  {
    if w == [] then 0 else Sum(w[..|w| - 1]) + w[|w| - 1]
  }

  /** Total weight that assignment `a` gives to machine `k`. */
  function LoadOn(w: seq<nat>, a: seq<nat>, k: nat): nat
    requires |a| == |w|
  {
    if w == [] then 0
    else
      var n := |w| - 1;
      LoadOn(w[..n], a[..n], k) + if a[n] == k then w[n] else 0
  }

  function Loads(w: seq<nat>, a: seq<nat>, m: nat): (r: seq<nat>)
    requires |a| == |w|
    ensures |r| == m
  {
    seq(m, k requires 0 <= k < m => LoadOn(w, a, k))
  }

  /** `min(range(len(loads)), key=lambda c: (loads[c], c))`: the first least-loaded candidate. */
  function LeastLoaded(loads: seq<nat>): (k: nat)
    requires loads != []
    ensures k < |loads|
    ensures forall c :: 0 <= c < |loads| ==> loads[k] <= loads[c]
    ensures forall c :: 0 <= c < k ==> loads[k] < loads[c]
  {
    if |loads| == 1 then 0
    else
      var n := |loads| - 1;
      var best := LeastLoaded(loads[..n]);
      if loads[n] < loads[best] then n else best
  }

  /** Give each weight in turn to the least-loaded machine. */
  function Lpt(w: seq<nat>, m: nat): (a: seq<nat>)
    requires m > 0
    ensures |a| == |w|
    ensures forall j :: 0 <= j < |a| ==> a[j] < m
  {
    if w == [] then []
    else
      var n := |w| - 1;
      var a := Lpt(w[..n], m);
      a + [LeastLoaded(Loads(w[..n], a, m))]
  }

  ghost predicate Descending(w: seq<nat>)
  {
    forall i, j :: 0 <= i <= j < |w| ==> w[i] >= w[j]
  }

  ghost predicate Assigns(a: seq<nat>, n: nat, m: nat)
  {
    |a| == n && forall j :: 0 <= j < n ==> a[j] < m
  }

  /** No machine carries more than `cap` under `a`. */
  ghost predicate Within(w: seq<nat>, a: seq<nat>, m: nat, cap: nat)
    requires |a| == |w|
  {
    forall k :: 0 <= k < m ==> LoadOn(w, a, k) <= cap
  }

  // ---------------------------------------------------------- double counting

  function SumOfLoads(w: seq<nat>, a: seq<nat>, m: nat): nat
    requires |a| == |w|
  {
    if m == 0 then 0 else SumOfLoads(w, a, m - 1) + LoadOn(w, a, m - 1)
  }

  lemma {:induction false} SumOfLoadsStep(w: seq<nat>, a: seq<nat>, m: nat)
    requires |a| == |w| && w != []
    ensures var n := |w| - 1;
            SumOfLoads(w, a, m) == SumOfLoads(w[..n], a[..n], m) + if a[n] < m then w[n] else 0
  {
    if m > 0 {
      SumOfLoadsStep(w, a, m - 1);
    }
  }

  /** Every job sits on exactly one machine, so the loads add up to the total work. */
  lemma {:induction false} LoadsAddUp(w: seq<nat>, a: seq<nat>, m: nat)
    requires Assigns(a, |w|, m)
    ensures SumOfLoads(w, a, m) == Sum(w)
  {
    if w == [] {
      NoJobsNoLoad(w, a, m);
    } else {
      SumOfLoadsStep(w, a, m);
      LoadsAddUp(w[..|w| - 1], a[..|w| - 1], m);
    }
  }

  lemma {:induction false} NoJobsNoLoad(w: seq<nat>, a: seq<nat>, m: nat)
    requires w == [] == a
    ensures SumOfLoads(w, a, m) == 0
  {
    if m > 0 { NoJobsNoLoad(w, a, m - 1); }
  }

  lemma {:induction false} JobFitsItsMachine(w: seq<nat>, a: seq<nat>, j: nat)
    requires |a| == |w| && j < |w|
    ensures w[j] <= LoadOn(w, a, a[j])
  {
    var n := |w| - 1;
    if j < n { JobFitsItsMachine(w[..n], a[..n], j); }
  }

  // ------------------------------------------------ list-scheduling stepping stone

  /** Job `j` goes to `k` and brings it to `load`. */
  ghost predicate Completes(w: seq<nat>, m: nat, k: nat, j: nat, load: nat)
    requires m > 0
  {
    && j < |w| && Lpt(w[..j + 1], m)[j] == k
    && LoadOn(w[..j + 1], Lpt(w[..j + 1], m), k) == load
  }

  /** The load a machine ends with, seen from the last job it received. */
  lemma {:induction false} LastJobOfMachine(w: seq<nat>, m: nat, k: nat)
    returns (j: nat)
    requires m > 0 && k < m && LoadOn(w, Lpt(w, m), k) > 0
    ensures Completes(w, m, k, j, LoadOn(w, Lpt(w, m), k))
  {
    var n := |w| - 1;
    if Lpt(w, m)[n] == k {
      j := n;
      assert w[..n + 1] == w;
    } else {
      LoadWithoutLastJob(w, m, k);
      j := LastJobOfMachine(w[..n], m, k);
      CompletesInPrefix(w, n, m, k, j, LoadOn(w, Lpt(w, m), k));
    }
  }

  lemma CompletesInPrefix(w: seq<nat>, n: nat, m: nat, k: nat, j: nat, load: nat)
    requires m > 0 && n <= |w| && Completes(w[..n], m, k, j, load)
    ensures Completes(w, m, k, j, load)
  {
    assert w[..n][..j + 1] == w[..j + 1];
  }

  lemma LoadWithoutLastJob(w: seq<nat>, m: nat, k: nat)
    requires m > 0 && w != [] && Lpt(w, m)[|w| - 1] != k
    ensures LoadOn(w, Lpt(w, m), k) == LoadOn(w[..|w| - 1], Lpt(w[..|w| - 1], m), k)
  {
    var n := |w| - 1;
    assert Lpt(w, m)[..n] == Lpt(w[..n], m);
  }

  /** When the last job lands on `k`, every machine already carried `k`'s earlier load. */
  lemma LastJobWentToLeast(w: seq<nat>, m: nat, k: nat)
    requires m > 0 && w != [] && Lpt(w, m)[|w| - 1] == k
    ensures var n := |w| - 1; var before := Lpt(w[..n], m);
            && LoadOn(w, Lpt(w, m), k) == LoadOn(w[..n], before, k) + w[n]
            && forall c :: 0 <= c < m ==> LoadOn(w[..n], before, k) <= LoadOn(w[..n], before, c)
  {
    var n := |w| - 1;
    var before := Lpt(w[..n], m);
    assert Lpt(w, m)[..n] == before;
    var loads := Loads(w[..n], before, m);
    forall c | 0 <= c < m ensures LoadOn(w[..n], before, k) <= LoadOn(w[..n], before, c) {
      assert loads[k] <= loads[c];
    }
  }

  lemma {:induction false} PrefixSum(w: seq<nat>, n: nat)
    requires n <= |w|
    ensures Sum(w[..n]) <= Sum(w)
  {
    if n < |w| {
      PrefixSum(w[..|w| - 1], n);
      assert w[..|w| - 1][..n] == w[..n];
    } else {
      assert w[..n] == w;
    }
  }

  /** Graham's list-scheduling bound: m * load <= total + (m - 1) * largest job. */
  lemma ListSchedulingBound(w: seq<nat>, m: nat, k: nat, largest: nat)
    requires m > 0 && k < m
    requires forall j :: 0 <= j < |w| ==> w[j] <= largest
    ensures m * LoadOn(w, Lpt(w, m), k) <= Sum(w) + (m - 1) * largest
  {
    var load := LoadOn(w, Lpt(w, m), k);
    if load > 0 {
      var j := LastJobOfMachine(w, m, k);
      ListBoundAtLastJob(w[..j + 1], m, k);
      PrefixSum(w, j + 1);
      WithLargest(m, load, Sum(w[..j + 1]), Sum(w), w[j], largest);
    } else {
      WithLargest(m, 0, 0, Sum(w), 0, largest);
    }
  }

  lemma WithLargest(m: nat, load: nat, part: nat, total: nat, last: nat, largest: nat)
    requires m > 0 && part <= total && last <= largest && m * load <= part + (m - 1) * last
    ensures m * load <= total + (m - 1) * largest
  {
    MulLe(m - 1, last, largest);
  }

  lemma ListBoundAtLastJob(w: seq<nat>, m: nat, k: nat)
    requires m > 0 && w != [] && Lpt(w, m)[|w| - 1] == k
    ensures m * LoadOn(w, Lpt(w, m), k) <= Sum(w) + (m - 1) * w[|w| - 1]
  {
    var n := |w| - 1;
    LastJobWentToLeast(w, m, k);
    var before := Lpt(w[..n], m);
    var least := LoadOn(w[..n], before, k);
    LeastTimesMachines(w[..n], before, m, least);
    LoadsAddUp(w[..n], before, m);
    ListArithmetic(m, least, w[n], Sum(w));
  }

  lemma ListArithmetic(m: nat, least: nat, last: nat, total: nat)
    requires m > 0 && least * m + last <= total
    ensures m * (least + last) <= total + (m - 1) * last
  {
    assert m * (least + last) == least * m + m * last;
    assert m * last == last + (m - 1) * last;
  }

  lemma MulGe(c: nat, d: nat, x: nat)
    requires c <= d
    ensures c * x <= d * x
  {
    assert d * x == c * x + (d - c) * x;
  }

  lemma {:induction false} LeastTimesMachines(w: seq<nat>, a: seq<nat>, m: nat, lo: nat)
    requires |a| == |w|
    requires forall k :: 0 <= k < m ==> lo <= LoadOn(w, a, k)
    ensures lo * m <= SumOfLoads(w, a, m)
  {
    if m > 0 {
      LeastTimesMachines(w, a, m - 1, lo);
      assert lo * m == lo * (m - 1) + lo;
    }
  }

  // ------------------------------------------------------ the 4/3 - 1/(3m) bound

  /** A job counts double when nothing can share a machine with it under capacity `cap`. */
  function Charge(p: nat, q: nat, cap: nat): nat
  {
    if p + q > cap then 2 else 1
  }

  function Charges(w: seq<nat>, q: nat, cap: nat): (r: seq<nat>)
    ensures |r| == |w|
  {
    seq(|w|, j requires 0 <= j < |w| => Charge(w[j], q, cap))
  }

  /** If every job is at least `q` and 3q exceeds the capacity, a machine within capacity is charged at most 2. */
  lemma {:induction false} ChargedAtMostTwo(w: seq<nat>, a: seq<nat>, k: nat, q: nat, cap: nat)
    requires |a| == |w| && 3 * q > cap
    requires forall j :: 0 <= j < |w| ==> w[j] >= q
    ensures var c := LoadOn(Charges(w, q, cap), a, k); var p := LoadOn(w, a, k);
            (c >= 1 ==> p >= q) && (c == 2 ==> p + q > cap) && (c >= 3 ==> p > cap)
  {
    if w != [] {
      var n := |w| - 1;
      ChargedAtMostTwo(w[..n], a[..n], k, q, cap);
      assert Charges(w, q, cap)[..n] == Charges(w[..n], q, cap);
    }
  }

  /** A machine on which a job of size `q` would no longer fit is charged at least 2. */
  lemma {:induction false} ChargedAtLeastTwo(w: seq<nat>, a: seq<nat>, k: nat, q: nat, cap: nat)
    requires |a| == |w| && q <= cap
    ensures LoadOn(Charges(w, q, cap), a, k) <= 1 ==> LoadOn(w, a, k) + q <= cap
    ensures LoadOn(Charges(w, q, cap), a, k) == 0 ==> LoadOn(w, a, k) == 0
  {
    if w != [] {
      var n := |w| - 1;
      ChargedAtLeastTwo(w[..n], a[..n], k, q, cap);
      assert Charges(w, q, cap)[..n] == Charges(w[..n], q, cap);
    }
  }

  /** With jobs larger than a third of the capacity the last job always fits: otherwise the charges overflow. */
  lemma BigJobsFit(w: seq<nat>, m: nat, k: nat, other: seq<nat>, cap: nat)
    requires m > 0 && w != [] && Descending(w)
    requires Lpt(w, m)[|w| - 1] == k
    requires Assigns(other, |w|, m) && Within(w, other, m, cap)
    requires 3 * w[|w| - 1] > cap
    ensures LoadOn(w, Lpt(w, m), k) <= cap
  {
    var n := |w| - 1;
    var q := w[n];
    var before := Lpt(w[..n], m);
    LastJobWentToLeast(w, m, k);
    JobFitsItsMachine(w, other, n);
    var charges := Charges(w, q, cap);
    if LoadOn(w[..n], before, k) + q > cap {
      forall c | 0 <= c < m ensures LoadOn(charges, other, c) <= 2 {
        ChargedAtMostTwo(w, other, c, q, cap);
      }
      AtMostTimesMachines(charges, other, m, 2);
      LoadsAddUp(charges, other, m);
      assert Sum(charges) == Sum(charges[..n]) + charges[n];
      assert charges[..n] == Charges(w[..n], q, cap);
      forall c | 0 <= c < m ensures 2 <= LoadOn(charges[..n], before, c) {
        ChargedAtLeastTwo(w[..n], before, c, q, cap);
      }
      LeastTimesMachines(charges[..n], before, m, 2);
      LoadsAddUp(charges[..n], before, m);
      assert false;
    }
  }

  lemma {:induction false} AtMostTimesMachines(w: seq<nat>, a: seq<nat>, m: nat, hi: nat)
    requires |a| == |w|
    requires forall k :: 0 <= k < m ==> LoadOn(w, a, k) <= hi
    ensures SumOfLoads(w, a, m) <= hi * m
  {
    if m > 0 {
      AtMostTimesMachines(w, a, m - 1, hi);
      assert hi * m == hi * (m - 1) + hi;
    }
  }

  lemma {:induction false} PrefixWithin(w: seq<nat>, a: seq<nat>, k: nat, n: nat)
    requires |a| == |w| && n <= |w|
    ensures LoadOn(w[..n], a[..n], k) <= LoadOn(w, a, k)
  {
    if n < |w| {
      var l := |w| - 1;
      PrefixWithin(w[..l], a[..l], k, n);
      assert w[..l][..n] == w[..n] && a[..l][..n] == a[..n];
    } else {
      assert w[..n] == w && a[..n] == a;
    }
  }

  /** The bound at the moment the critical machine receives its last job. */
  lemma LptBoundAtLastJob(w: seq<nat>, m: nat, k: nat, other: seq<nat>, cap: nat)
    requires m > 0 && w != [] && Descending(w)
    requires Lpt(w, m)[|w| - 1] == k
    requires Assigns(other, |w|, m) && Within(w, other, m, cap)
    ensures 3 * m * LoadOn(w, Lpt(w, m), k) <= (4 * m - 1) * cap
  {
    if 3 * w[|w| - 1] > cap {
      BigJobsFit(w, m, k, other, cap);
      WithinCap(m, LoadOn(w, Lpt(w, m), k), cap);
    } else {
      SmallLastJob(w, m, k, other, cap);
    }
  }

  lemma SmallLastJob(w: seq<nat>, m: nat, k: nat, other: seq<nat>, cap: nat)
    requires m > 0 && w != [] && Lpt(w, m)[|w| - 1] == k && 3 * w[|w| - 1] <= cap
    requires Assigns(other, |w|, m) && Within(w, other, m, cap)
    ensures 3 * m * LoadOn(w, Lpt(w, m), k) <= (4 * m - 1) * cap
  {
    var n := |w| - 1;
    LastJobWentToLeast(w, m, k);
    var before := Lpt(w[..n], m);
    var least := LoadOn(w[..n], before, k);
    LeastTimesMachines(w[..n], before, m, least);
    LoadsAddUp(w[..n], before, m);
    AtMostTimesMachines(w, other, m, cap);
    LoadsAddUp(w, other, m);
    CombineBounds(m, least, w[n], cap);
  }

  lemma WithinCap(m: nat, load: nat, cap: nat)
    requires m > 0 && load <= cap
    ensures 3 * m * load <= (4 * m - 1) * cap
  {
    MulLe(3 * m, load, cap);
    MulGe(3 * m, 4 * m - 1, cap);
  }

  lemma CombineBounds(m: nat, least: nat, q: nat, cap: nat)
    requires m > 0 && least * m + q <= cap * m && 3 * q <= cap
    ensures 3 * m * (least + q) <= (4 * m - 1) * cap
  {
    var x, y, z := least * m, cap * m, (m - 1) * q;
    MulLe(m - 1, 3 * q, cap);
    SumOfProducts(m, least, q);
    Thrice(m - 1, q);
    LessOne(m, cap);
  }

  lemma SumOfProducts(m: nat, least: nat, q: nat)
    requires m > 0
    ensures 3 * m * (least + q) == 3 * (least * m) + 3 * q + 3 * ((m - 1) * q)
  {
    assert m * (least + q) == m * least + m * q;
    assert m * q == q + (m - 1) * q;
  }

  lemma Thrice(c: nat, q: nat)
    ensures c * (3 * q) == 3 * (c * q)
  {
  }

  lemma LessOne(m: nat, cap: nat)
    requires m > 0
    ensures (m - 1) * cap == cap * m - cap && (4 * m - 1) * cap == 4 * (cap * m) - cap
  {
  }

  /** Graham's theorem: the largest load is within 4/3 - 1/(3m) of every assignment's largest load. */
  lemma LptBound(w: seq<nat>, m: nat, k: nat, other: seq<nat>, cap: nat)
    requires m > 0 && k < m && Descending(w)
    requires Assigns(other, |w|, m) && Within(w, other, m, cap)
    ensures 3 * m * LoadOn(w, Lpt(w, m), k) <= (4 * m - 1) * cap
  {
    var load := LoadOn(w, Lpt(w, m), k);
    if load > 0 {
      var j := LastJobOfMachine(w, m, k);
      PrefixOfAssignment(w, m, k, j, other, cap);
      LptBoundAtLastJob(w[..j + 1], m, k, other[..j + 1], cap);
    } else {
      WithinCap(m, 0, cap);
    }
  }

  lemma PrefixOfAssignment(w: seq<nat>, m: nat, k: nat, j: nat, other: seq<nat>, cap: nat)
    requires j < |w| && Descending(w)
    requires Assigns(other, |w|, m) && Within(w, other, m, cap)
    ensures Descending(w[..j + 1]) && Assigns(other[..j + 1], j + 1, m)
    ensures Within(w[..j + 1], other[..j + 1], m, cap)
  {
    var v, o := w[..j + 1], other[..j + 1];
    forall c | 0 <= c < m ensures LoadOn(v, o, c) <= cap {
      PrefixWithin(w, other, c, j + 1);
    }
  }

  /** One step of the scheduler. */
  lemma LptAppend(w: seq<nat>, p: nat, m: nat, a: seq<nat>, loads: seq<nat>)
    requires m > 0 && a == Lpt(w, m) && loads == Loads(w, a, m)
    ensures Lpt(w + [p], m) == a + [LeastLoaded(loads)]
  {
    assert (w + [p])[..|w|] == w;
  }

  function Heavier(loads: seq<nat>, k: nat, weight: nat): seq<nat>
    requires k < |loads|
  {
    loads[k := loads[k] + weight]
  }

  lemma LoadsNext(w: seq<nat>, p: nat, m: nat, a: seq<nat>, k: nat, loads: seq<nat>)
    requires |a| == |w| && k < m == |loads| && Loads(w, a, m) == loads
    ensures Loads(w + [p], a + [k], m) == Heavier(loads, k, p)
  {
    assert (w + [p])[..|w|] == w && (a + [k])[..|w|] == a;
    forall c | 0 <= c < m ensures Loads(w + [p], a + [k], m)[c] == Heavier(loads, k, p)[c] {
      assert Loads(w, a, m)[c] == LoadOn(w, a, c);
    }
  }
}
