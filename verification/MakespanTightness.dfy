/** For every number of machines some jobs take the scheduler exactly to its bound. */
module MakespanTightness {
  import opened Arithmetic
  import opened Makespan

  /** Two jobs of each size from 2m - 1 down to m, and one more of size m. */
  function Size(m: nat, j: nat): (s: nat)
    requires m > 0 && j <= 2 * m
    ensures s >= m
  {
    if j < 2 * m then 2 * m - 1 - j / 2 else m
  }

  function Jobs(m: nat): (w: seq<nat>)
    requires m > 0
    ensures |w| == 2 * m + 1 && forall j :: 0 <= j < |w| ==> w[j] == Size(m, j)
  {
    seq(2 * m + 1, j requires 0 <= j < 2 * m + 1 => Size(m, j))
  }

  // --------------------------------------------------------- what the scheduler does

  /** When machine `c` gets its second job, counted from the first of those. */
  function Rank(m: nat, c: nat): nat
    requires c < m
  {
    if c == m - 1 && m % 2 == 1 then 0 else if c % 2 == 0 then m - 2 - c else m - c
  }

  /** The machine with the given rank. */
  function Ranked(m: nat, t: nat): (c: nat)
    requires t < m
    ensures c < m && Rank(m, c) == t
  {
    if m % 2 == 1 && t == 0 then m - 1
    else if (m - t) % 2 == 0 then m - 2 - t
    else m - t
  }

  lemma RankIsInjective(m: nat, c: nat, t: nat)
    requires c < m && t < m
    ensures Rank(m, c) == t <==> c == Ranked(m, t)
    ensures Rank(m, c) < m
  {
  }

  /** The load of machine `c` after `j` jobs. */
  function LoadAfter(m: nat, j: nat, c: nat): nat
    requires m > 0 && j <= 2 * m && c < m
  {
    if m + Rank(m, c) < j then 3 * m - 1 else if c < j then Size(m, c) else 0
  }

  function LoadsAfter(m: nat, j: nat): (r: seq<nat>)
    requires m > 0 && j <= 2 * m
    ensures |r| == m && forall c :: 0 <= c < m ==> r[c] == LoadAfter(m, j, c)
  {
    seq(m, c requires 0 <= c < m => LoadAfter(m, j, c))
  }

  lemma LeastIs(loads: seq<nat>, k: nat)
    requires k < |loads|
    requires forall c :: 0 <= c < |loads| ==> loads[k] <= loads[c]
    requires forall c :: 0 <= c < k ==> loads[k] < loads[c]
    ensures LeastLoaded(loads) == k
  {
    var least := LeastLoaded(loads);
    assert loads[k] <= loads[least] && loads[least] <= loads[k];
  }

  /** Where job `j` goes. */
  function Target(m: nat, j: nat): (c: nat)
    requires m > 0 && j < 2 * m
    ensures c < m
  {
    if j < m then j else Ranked(m, j - m)
  }

  lemma TargetIsLeast(m: nat, j: nat, c: nat)
    requires m > 0 && j < 2 * m && c < m
    ensures LoadAfter(m, j, Target(m, j)) <= LoadAfter(m, j, c)
    ensures c < Target(m, j) ==> LoadAfter(m, j, Target(m, j)) < LoadAfter(m, j, c)
  {
    if j >= m {
      var k := Target(m, j);
      RankIsInjective(m, c, j - m);
      if Rank(m, c) >= Rank(m, k) { LaterRankIsLargerJob(m, k, c); }
    }
  }

  /** Machines that still wait for their second job hold larger first jobs, or equal ones further right. */
  lemma LaterRankIsLargerJob(m: nat, k: nat, c: nat)
    requires k < m && c < m && Rank(m, c) >= Rank(m, k)
    ensures c / 2 <= k / 2 && (c < k ==> c / 2 < k / 2)
  {
  }

  /** The second job brings every machine to 3m - 1. */
  lemma PairSum(m: nat, t: nat)
    requires m > 0 && t < m
    ensures Size(m, Ranked(m, t)) + Size(m, m + t) == 3 * m - 1
  {
    var k := Ranked(m, t);
    assert k / 2 + (m + t) / 2 == m - 1;
  }

  lemma StepOnLoads(m: nat, j: nat, c: nat)
    requires m > 0 && j < 2 * m && c < m
    ensures LoadAfter(m, j + 1, c) == LoadAfter(m, j, c) + if c == Target(m, j) then Size(m, j) else 0
  {
    if j >= m {
      RankIsInjective(m, c, j - m);
      PairSum(m, j - m);
    }
  }

  /** The scheduler leaves `m` machines with these loads. */
  ghost predicate Leaves(w: seq<nat>, m: nat, loads: seq<nat>)
    requires m > 0
  {
    Loads(w, Lpt(w, m), m) == loads
  }

  lemma {:induction false} RunOfScheduler(m: nat, j: nat)
    requires m > 0 && j <= 2 * m
    ensures Leaves(Jobs(m)[..j], m, LoadsAfter(m, j))
  {
    if j == 0 {
      EmptyLoads(m);
    } else {
      var i: nat := j - 1;
      RunOfScheduler(m, i);
      NextLoads(m, i);
      OneMoreJob(Jobs(m)[..i], Size(m, i), m, LoadsAfter(m, i), LoadsAfter(m, j));
      NextJob(m, i);
    }
  }

  lemma NextJob(m: nat, i: nat)
    requires m > 0 && i < 2 * m
    ensures Jobs(m)[..i + 1] == Jobs(m)[..i] + [Size(m, i)]
  {
  }

  lemma LeastIsTarget(m: nat, j: nat)
    requires m > 0 && j < 2 * m
    ensures LeastLoaded(LoadsAfter(m, j)) == Target(m, j)
  {
    var loads, k := LoadsAfter(m, j), Target(m, j);
    forall c | 0 <= c < m ensures loads[k] <= loads[c] && (c < k ==> loads[k] < loads[c]) {
      TargetIsLeast(m, j, c);
    }
    LeastIs(loads, k);
  }

  lemma NextLoads(m: nat, j: nat)
    requires m > 0 && j < 2 * m
    ensures LoadsAfter(m, j + 1) == Heavier(LoadsAfter(m, j), LeastLoaded(LoadsAfter(m, j)), Size(m, j))
  {
    LeastIsTarget(m, j);
    var before, after := LoadsAfter(m, j), LoadsAfter(m, j + 1);
    forall c | 0 <= c < m ensures after[c] == before[c] + if c == Target(m, j) then Size(m, j) else 0 {
      StepOnLoads(m, j, c);
    }
    OneLoadGrows(before, after, Target(m, j), Size(m, j));
  }

  lemma OneLoadGrows(before: seq<nat>, after: seq<nat>, k: nat, p: nat)
    requires k < |before| == |after|
    requires forall c :: 0 <= c < |before| ==> after[c] == before[c] + if c == k then p else 0
    ensures after == Heavier(before, k, p)
  {
  }

  lemma EmptyLoads(m: nat)
    requires m > 0
    ensures Leaves(Jobs(m)[..0], m, LoadsAfter(m, 0))
  {
  }

  lemma OneMoreJob(w: seq<nat>, p: nat, m: nat, loads: seq<nat>, next: seq<nat>)
    requires m > 0 && |loads| == m && Leaves(w, m, loads) && next == Heavier(loads, LeastLoaded(loads), p)
    ensures Leaves(w + [p], m, next)
  {
    LptAppend(w, p, m, Lpt(w, m), loads);
    LoadsNext(w, p, m, Lpt(w, m), LeastLoaded(loads), loads);
  }

  /** The last job finds all machines at 3m - 1. */
  lemma SchedulerLoad(m: nat)
    requires m > 0
    ensures LoadOn(Jobs(m), Lpt(Jobs(m), m), 0) == 4 * m - 1
  {
    var w, loads := Jobs(m)[..2 * m], LoadsAfter(m, 2 * m);
    RunOfScheduler(m, 2 * m);
    forall c | 0 <= c < m ensures loads[c] == 3 * m - 1 {
      RankIsInjective(m, c, 0);
    }
    LeastIs(loads, 0);
    OneMoreJob(w, m, m, loads, Heavier(loads, 0, m));
    assert Jobs(m) == w + [m];
    assert Loads(Jobs(m), Lpt(Jobs(m), m), m)[0] == 4 * m - 1;
  }

  // ------------------------------------------------------------- the best split

  /** Large jobs with small ones, and the three smallest together. */
  function Partner(m: nat, j: nat): (c: nat)
    requires m > 0 && j <= 2 * m
    ensures c < m
  {
    if j >= 2 * m - 2 then m - 1 else if j < m - 1 then j else 2 * m - 3 - j
  }

  function Pairing(m: nat): (a: seq<nat>)
    requires m > 0
    ensures |a| == 2 * m + 1 && forall j :: 0 <= j < |a| ==> a[j] == Partner(m, j)
  {
    seq(2 * m + 1, j requires 0 <= j < 2 * m + 1 => Partner(m, j))
  }

  /** The load of machine `c` after the first `j` jobs of the split. */
  function PairedLoad(m: nat, j: nat, c: nat): nat
    requires m > 0 && j <= 2 * m + 1 && c < m
  {
    if c == m - 1 then (if j <= 2 * m - 2 then 0 else if j == 2 * m - 1 then m else if j == 2 * m then m + m else m + m + m)
    else (if c < j then Size(m, c) else 0) + if 2 * m - 3 - c < j then Size(m, 2 * m - 3 - c) else 0
  }

  lemma PairedStep(m: nat, j: nat, c: nat)
    requires m > 0 && j <= 2 * m && c < m
    ensures PairedLoad(m, j + 1, c) == PairedLoad(m, j, c) + if Partner(m, j) == c then Size(m, j) else 0
  {
    assert j >= 2 * m - 2 ==> Size(m, j) == m;
  }

  lemma {:induction false} RunOfPairing(m: nat, j: nat, c: nat)
    requires m > 0 && j <= 2 * m + 1 && c < m
    ensures LoadOn(Jobs(m)[..j], Pairing(m)[..j], c) == PairedLoad(m, j, c)
  {
    if j > 0 {
      var i: nat := j - 1;
      RunOfPairing(m, i, c);
      PairedStep(m, i, c);
      assert Jobs(m)[..j][..i] == Jobs(m)[..i] && Pairing(m)[..j][..i] == Pairing(m)[..i];
    }
  }

  lemma PairingIsWithin(m: nat)
    requires m > 0
    ensures Assigns(Pairing(m), 2 * m + 1, m) && Within(Jobs(m), Pairing(m), m, 3 * m)
  {
    forall c | 0 <= c < m ensures LoadOn(Jobs(m), Pairing(m), c) <= 3 * m {
      RunOfPairing(m, 2 * m + 1, c);
      assert Jobs(m)[..2 * m + 1] == Jobs(m) && Pairing(m)[..2 * m + 1] == Pairing(m);
      if c < m - 1 {
        assert c / 2 + (2 * m - 3 - c) / 2 == m - 2;
      }
    }
  }

  // -------------------------------------------------------------------- scaling

  function Scaled(w: seq<nat>, t: nat): (r: seq<nat>)
    ensures |r| == |w| && forall j :: 0 <= j < |w| ==> r[j] == t * w[j]
  {
    seq(|w|, j requires 0 <= j < |w| => t * w[j])
  }

  lemma {:induction false} ScaledLoad(w: seq<nat>, a: seq<nat>, k: nat, t: nat)
    requires |a| == |w|
    ensures LoadOn(Scaled(w, t), a, k) == t * LoadOn(w, a, k)
  {
    if w != [] {
      var n := |w| - 1;
      ScaledLoad(w[..n], a[..n], k, t);
      assert Scaled(w, t)[..n] == Scaled(w[..n], t);
      var rest := LoadOn(w[..n], a[..n], k);
      assert t * (rest + w[n]) == t * rest + t * w[n];
    }
  }

  lemma ScaledLeast(loads: seq<nat>, t: nat)
    requires loads != [] && t > 0
    ensures LeastLoaded(Scaled(loads, t)) == LeastLoaded(loads)
  {
    var k := LeastLoaded(loads);
    forall c | 0 <= c < |loads| ensures t * loads[k] <= t * loads[c] {
      MulLe(t, loads[k], loads[c]);
    }
    forall c | 0 <= c < k ensures t * loads[k] < t * loads[c] {
      MulLe(t, loads[k] + 1, loads[c]);
    }
    LeastIs(Scaled(loads, t), k);
  }

  lemma {:induction false} ScaledSchedule(w: seq<nat>, m: nat, t: nat)
    requires m > 0 && t > 0
    ensures Lpt(Scaled(w, t), m) == Lpt(w, m)
  {
    if w != [] {
      var n := |w| - 1;
      ScaledSchedule(w[..n], m, t);
      assert Scaled(w, t)[..n] == Scaled(w[..n], t);
      var a := Lpt(w[..n], m);
      forall k | 0 <= k < m ensures Loads(Scaled(w[..n], t), a, m)[k] == Scaled(Loads(w[..n], a, m), t)[k] {
        ScaledLoad(w[..n], a, k, t);
      }
      assert Loads(Scaled(w[..n], t), a, m) == Scaled(Loads(w[..n], a, m), t);
      ScaledLeast(Loads(w[..n], a, m), t);
    }
  }

  /** The constant is exact for every number of machines and every unit: the scheduler takes (4m - 1)t where 3mt would do. */
  lemma LptBoundIsTight(m: nat, t: nat)
    requires m > 0 && t > 0
    ensures Descending(Scaled(Jobs(m), t))
    ensures Assigns(Pairing(m), 2 * m + 1, m) && Within(Scaled(Jobs(m), t), Pairing(m), m, t * (3 * m))
    ensures 3 * m * LoadOn(Scaled(Jobs(m), t), Lpt(Scaled(Jobs(m), t), m), 0) == (4 * m - 1) * (t * (3 * m))
  {
    var w := Jobs(m);
    SchedulerLoad(m);
    ScaledSchedule(w, m, t);
    ScaledLoad(w, Lpt(w, m), 0, t);
    Exactly(m, t);
    PairingIsWithin(m);
    forall c | 0 <= c < m ensures LoadOn(Scaled(w, t), Pairing(m), c) <= t * (3 * m) {
      ScaledLoad(w, Pairing(m), c, t);
      MulLe(t, LoadOn(w, Pairing(m), c), 3 * m);
    }
    forall i, j | 0 <= i <= j < |w| ensures t * w[i] >= t * w[j] {
      MulLe(t, w[j], w[i]);
    }
  }

  lemma Exactly(m: nat, t: nat)
    requires m > 0
    ensures 3 * m * (t * (4 * m - 1)) == (4 * m - 1) * (t * (3 * m))
  {
    var a, b := 3 * m, 4 * m - 1;
    assert a * (t * b) == b * (t * a);
  }
}
