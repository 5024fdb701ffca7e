/** Deterministic module sharding of a pytest run (tools/pytest_shard.py). */
module PytestShard {
  import opened Dicts
  import opened Orders
  import opened Text
  import opened Makespan

  datatype Item = Item(nodeid: string)

  /** The parsed `--ci-shard` option: absent, or `index/count`. */
  datatype ShardOption = Unset | Shard(index: int, count: int) {
    predicate Valid() { Shard? && 1 <= index <= count }

    /** The shard counted from zero, and the number of shards. */
    function Position(): (k: nat)
      requires Valid()
    {
      index - 1
    }

    function Shards(): (n: nat)
      requires Valid()
      ensures n > Position()
    {
      count
    }
  }

  /** Shards are counted from one, and the last one is the number of shards. */
  lemma OptionMeaning(option: ShardOption)
    ensures option.Valid() <==> option.Shard? && option.index > 0 && option.count >= option.index
    ensures option.Valid() ==> option.Position() + 1 == option.index && option.Shards() == option.count
  {
  }

  /** `nodeid.split("::", 1)[0]` */
  function ModuleName(nodeid: string): string
  {
    if nodeid == [] || (|nodeid| >= 2 && nodeid[..2] == "::") then []
    else [nodeid[0]] + ModuleName(nodeid[1..])
  }

  function ModuleOf(item: Item): string { ModuleName(item.nodeid) }

  function InModule(name: string): Item -> bool { (item: Item) => ModuleOf(item) == name }

  /** Keys of the `modules` dict: module names in order of first appearance. */
  function Names(items: seq<Item>): seq<string> { FirstSeen(items, ModuleOf) }

  function Counts(items: seq<Item>): (m: map<string, nat>)
  {
    map name | name in Names(items) :: |Filter(items, InModule(name))|
  }

  /** The sort key `(-len(modules[name]), name)` as an order. */
  function Before(counts: map<string, nat>): (string, string) -> bool
  {
    (a: string, b: string) =>
      var x := if a in counts then counts[a] else 0;
      var y := if b in counts then counts[b] else 0;
      x > y || (x == y && StrLe(a, b))
  }

  function SortedModules(items: seq<Item>): seq<string>
  {
    SortBy(Names(items), Before(Counts(items)))
  }

  function Weights(names: seq<string>, counts: map<string, nat>): (w: seq<nat>)
    ensures |w| == |names|
  {
    seq(|names|, j requires 0 <= j < |names| => if names[j] in counts then counts[names[j]] else 0)
  }

  /** The `owners` dict after giving `names[j]` to shard `a[j]`. */
  function OwnerMap(names: seq<string>, a: seq<nat>): map<string, nat>
    requires |a| == |names|
  {
    if names == [] then map[]
    else
      var n := |names| - 1;
      OwnerMap(names[..n], a[..n])[names[n] := a[n]]
  }

  function Owners(items: seq<Item>, count: nat): map<string, nat>
    requires count > 0
  {
    var names := SortedModules(items);
    OwnerMap(names, Lpt(Weights(names, Counts(items)), count))
  }

  function OwnedBy(owners: map<string, nat>, k: nat): Item -> bool
  {
    (item: Item) => ModuleOf(item) in owners && owners[ModuleOf(item)] == k
  }

  function NotOwnedBy(owners: map<string, nat>, k: nat): Item -> bool
  {
    (item: Item) => !OwnedBy(owners, k)(item)
  }

  /** The items that shard `k` of `count` runs. */
  function ShardItems(items: seq<Item>, k: nat, count: nat): seq<Item>
    requires count > 0
  {
    Filter(items, OwnedBy(Owners(items, count), k))
  }

  function OtherItems(items: seq<Item>, k: nat, count: nat): seq<Item>
    requires count > 0
  {
    Filter(items, NotOwnedBy(Owners(items, count), k))
  }

  /** What a shard keeps and what it deselects. */
  function Division(items: seq<Item>, k: nat, count: nat): (seq<Item>, seq<Item>)
    requires count > 0
  {
    (ShardItems(items, k, count), OtherItems(items, k, count))
  }

  // ------------------------------------------------------------- bookkeeping

  lemma NamesCover(items: seq<Item>)
    ensures Distinct(Names(items))
    ensures forall item :: item in items ==> ModuleOf(item) in Names(items)
    ensures forall name :: name in Names(items) ==> exists item :: item in items && ModuleOf(item) == name
  {
    FirstSeenFacts(items, ModuleOf);
  }

  lemma BeforeIsOrder(counts: map<string, nat>)
    ensures TotalPreorder(Before(counts)) && Antisymmetric(Before(counts))
  {
    StrLeIsOrder();
  }

  /** Module names as scheduled: distinct, complete, and heaviest first. */
  lemma SortedModulesFacts(items: seq<Item>)
    ensures var names := SortedModules(items);
            && Distinct(names)
            && Descending(Weights(names, Counts(items)))
            && (forall item :: item in items ==> ModuleOf(item) in names)
            && (forall name :: name in names <==> name in Counts(items))
  {
    var counts := Counts(items);
    NamesCover(items);
    BeforeIsOrder(counts);
    SortIsSorted(Names(items), Before(counts));
    DistinctMultiset(Names(items), SortedModules(items));
    MultisetMembers(Names(items), SortedModules(items));
  }

  lemma {:induction false} OwnerMapFacts(names: seq<string>, a: seq<nat>)
    requires |a| == |names| && Distinct(names)
    ensures forall j :: 0 <= j < |names| ==> names[j] in OwnerMap(names, a) && OwnerMap(names, a)[names[j]] == a[j]
    ensures forall name :: name in OwnerMap(names, a) ==> name in names
  {
    if names != [] {
      var n := |names| - 1;
      OwnerMapFacts(names[..n], a[..n]);
    }
  }

  function AmongOwned(names: seq<string>, o: map<string, nat>, k: nat): Item -> bool
  {
    (item: Item) => ModuleOf(item) in names && ModuleOf(item) in o && o[ModuleOf(item)] == k
  }

  /** A machine's load is the number of tests whose module it owns. */
  lemma {:induction false} LoadCountsItems(items: seq<Item>, names: seq<string>, a: seq<nat>, o: map<string, nat>, k: nat)
    requires |a| == |names| && Distinct(names)
    requires forall j :: 0 <= j < |names| ==> names[j] in o && o[names[j]] == a[j] && names[j] in Counts(items)
    ensures LoadOn(Weights(names, Counts(items)), a, k) == |Filter(items, AmongOwned(names, o, k))|
  {
    var w := Weights(names, Counts(items));
    if names == [] {
      FilterNone(items, AmongOwned(names, o, k));
    } else {
      var n := |names| - 1;
      LoadCountsItems(items, names[..n], a[..n], o, k);
      assert w[..n] == Weights(names[..n], Counts(items));
      OwnedNext(items, names, n, o, k);
    }
  }

  lemma OwnedNext(items: seq<Item>, names: seq<string>, n: nat, o: map<string, nat>, k: nat)
    requires |names| == n + 1 && Distinct(names) && names[n] in o
    ensures |Filter(items, AmongOwned(names, o, k))|
         == |Filter(items, AmongOwned(names[..n], o, k))| + if o[names[n]] == k then |Filter(items, InModule(names[n]))| else 0
  {
    assert names == names[..n] + [names[n]];
    if o[names[n]] == k {
      FilterDisjoint(items, AmongOwned(names[..n], o, k), InModule(names[n]), AmongOwned(names, o, k));
    } else {
      FilterSame(items, AmongOwned(names[..n], o, k), AmongOwned(names, o, k));
    }
  }

  /** The load of machine `k`, under any whole-module assignment, is the number of tests it would run. */
  lemma LoadIsTestCount(items: seq<Item>, o: map<string, nat>, a: seq<nat>, k: nat)
    requires |a| == |SortedModules(items)|
    requires forall j :: 0 <= j < |a| ==> SortedModules(items)[j] in o && o[SortedModules(items)[j]] == a[j]
    ensures LoadOn(Weights(SortedModules(items), Counts(items)), a, k) == |Filter(items, OwnedBy(o, k))|
  {
    var names := SortedModules(items);
    SortedModulesFacts(items);
    assert forall j :: 0 <= j < |names| ==> names[j] in names;
    LoadCountsItems(items, names, a, o, k);
    FilterSame(items, AmongOwned(names, o, k), OwnedBy(o, k));
  }

  lemma OwnersFacts(items: seq<Item>, count: nat)
    requires count > 0
    ensures var o := Owners(items, count); var names := SortedModules(items);
            var a := Lpt(Weights(names, Counts(items)), count);
            && (forall item :: item in items ==> ModuleOf(item) in o)
            && (forall name :: name in o ==> o[name] < count)
            && (forall j :: 0 <= j < |a| ==> names[j] in o && o[names[j]] == a[j])
  {
    var names := SortedModules(items);
    var a := Lpt(Weights(names, Counts(items)), count);
    SortedModulesFacts(items);
    OwnerMapFacts(names, a);
  }

  // ------------------------------------------------------------ main results

  /** Every collected test runs on exactly one shard, as often as it was collected, with its whole module. */
  lemma ShardsPartitionTheSuite(items: seq<Item>, count: nat, item: Item)
    requires count > 0 && item in items
    ensures exists k :: && 0 <= k < count
                        && multiset(ShardItems(items, k, count))[item] == multiset(items)[item]
                        && (forall j :: 0 <= j < count && j != k ==> item !in ShardItems(items, j, count))
                        && (forall other :: other in items && ModuleOf(other) == ModuleOf(item)
                                            ==> other in ShardItems(items, k, count))
  {
    OwnersFacts(items, count);
    var k := Owners(items, count)[ModuleOf(item)];
    FilterCount(items, OwnedBy(Owners(items, count), k), item);
    assert multiset(ShardItems(items, k, count))[item] == multiset(items)[item];
  }

  /** No whole-module assignment to `count` shards with at most `cap` tests each beats the plan by more than 4/3 - 1/(3 count). */
  lemma ShardingQuality(items: seq<Item>, count: nat, k: nat, other: map<string, nat>, cap: nat)
    requires count > 0 && k < count
    requires forall item :: item in items ==> ModuleOf(item) in other && other[ModuleOf(item)] < count
    requires forall c :: 0 <= c < count ==> |Filter(items, OwnedBy(other, c))| <= cap
    ensures 3 * count * |ShardItems(items, k, count)| <= (4 * count - 1) * cap
  {
    var names := SortedModules(items);
    var w := Weights(names, Counts(items));
    SortedModulesFacts(items);
    OwnersFacts(items, count);
    LoadIsTestCount(items, Owners(items, count), Lpt(w, count), k);
    var b := OtherAsSequence(items, count, other, cap);
    LptBound(w, count, k, b, cap);
  }

  lemma OtherAsSequence(items: seq<Item>, count: nat, other: map<string, nat>, cap: nat) returns (b: seq<nat>)
    requires forall item :: item in items ==> ModuleOf(item) in other && other[ModuleOf(item)] < count
    requires forall c :: 0 <= c < count ==> |Filter(items, OwnedBy(other, c))| <= cap
    ensures Assigns(b, |SortedModules(items)|, count)
    ensures Within(Weights(SortedModules(items), Counts(items)), b, count, cap)
  {
    var names := SortedModules(items);
    SortedModulesFacts(items);
    NamesCover(items);
    forall j | 0 <= j < |names| ensures names[j] in other && other[names[j]] < count {
      assert names[j] in names;
      assert names[j] in Names(items);
    }
    b := seq(|names|, j requires 0 <= j < |names| => other[names[j]]);
    forall c | 0 <= c < count ensures LoadOn(Weights(names, Counts(items)), b, c) <= cap {
      LoadIsTestCount(items, other, b, c);
    }
  }

  /** No shard exceeds the average by more than (1 - 1/count) of the largest module. */
  lemma ShardingBalance(items: seq<Item>, count: nat, k: nat, largest: nat)
    requires count > 0 && k < count
    requires forall name :: |Filter(items, InModule(name))| <= largest
    ensures count * |ShardItems(items, k, count)| <= |items| + (count - 1) * largest
  {
    var names := SortedModules(items);
    var w := Weights(names, Counts(items));
    SortedModulesFacts(items);
    OwnersFacts(items, count);
    LoadIsTestCount(items, Owners(items, count), Lpt(w, count), k);
    forall j | 0 <= j < |w| ensures w[j] <= largest {
      assert names[j] in names;
      assert w[j] == |Filter(items, InModule(names[j]))|;
    }
    ListSchedulingBound(w, count, k, largest);
    TotalIsSuiteSize(items);
  }

  lemma TotalIsSuiteSize(items: seq<Item>)
    ensures Sum(Weights(SortedModules(items), Counts(items))) == |items|
  {
    var names := SortedModules(items);
    var w := Weights(names, Counts(items));
    var a := seq<nat>(|names|, _ => 0);
    SortedModulesFacts(items);
    OwnerMapFacts(names, a);
    LoadIsTestCount(items, OwnerMap(names, a), a, 0);
    LoadsAddUp(w, a, 1);
    assert SumOfLoads(w, a, 1) == SumOfLoads(w, a, 0) + LoadOn(w, a, 0);
    forall item | item in items ensures OwnedBy(OwnerMap(names, a), 0)(item) {
      assert ModuleOf(item) in names;
    }
    FilterAll(items, OwnedBy(OwnerMap(names, a), 0));
  }

  /** The module of a test is its node id up to the first "::". */
  lemma {:induction false} ModuleNameMeaning(nodeid: string)
    ensures ModuleName(nodeid) <= nodeid
    ensures forall i :: 0 <= i < |ModuleName(nodeid)| ==> !(nodeid[i] == ':' && i + 1 < |nodeid| && nodeid[i + 1] == ':')
    ensures var n := |ModuleName(nodeid)|;
            n < |nodeid| ==> nodeid[n] == ':' && n + 1 < |nodeid| && nodeid[n + 1] == ':'
  {
    if nodeid != [] {
      assert |nodeid| >= 2 ==> nodeid[..2] == [nodeid[0], nodeid[1]];
      assert nodeid == [nodeid[0]] + nodeid[1..];
      if !(|nodeid| >= 2 && nodeid[..2] == "::") {
        ModuleNameMeaning(nodeid[1..]);
      }
    }
  }

  /** The number of a module's tests. */
  function TestsOf(items: seq<Item>, name: string): nat { |Filter(items, InModule(name))| }

  /** The number of tests of these modules that the shard owns. */
  function OwnedTests(items: seq<Item>, names: seq<string>, o: map<string, nat>, k: nat): nat
  {
    |Filter(items, AmongOwned(names, o, k))|
  }

  /** Modules are handed out by falling number of tests, alphabetically on ties. */
  lemma HandedOutInOrder(items: seq<Item>, i: nat, j: nat)
    requires i < j < |SortedModules(items)|
    ensures var a, b := SortedModules(items)[i], SortedModules(items)[j];
            && a != b && TestsOf(items, a) >= TestsOf(items, b)
            && (TestsOf(items, a) == TestsOf(items, b) ==> StrLe(a, b))
  {
    var names, counts := SortedModules(items), Counts(items);
    SortedModulesFacts(items);
    BeforeIsOrder(counts);
    SortIsSorted(Names(items), Before(counts));
    assert names[i] in names && names[j] in names;
    assert Before(counts)(names[i], names[j]);
    assert counts[names[i]] == TestsOf(items, names[i]) && counts[names[j]] == TestsOf(items, names[j]);
  }

  /** The plan of the first jobs is the first part of the plan, and the next job goes to the least loaded machine. */
  lemma {:induction false} PrefixOfPlan(w: seq<nat>, m: nat, j: nat)
    requires m > 0 && j < |w|
    ensures Lpt(w, m)[..j] == Lpt(w[..j], m) && Lpt(w, m)[j] == LeastLoaded(Loads(w[..j], Lpt(w[..j], m), m))
    decreases |w|
  {
    var n := |w| - 1;
    var before := Lpt(w[..n], m);
    assert Lpt(w, m) == before + [LeastLoaded(Loads(w[..n], before, m))];
    if j < n {
      PrefixOfPlan(w[..n], m, j);
      assert w[..n][..j] == w[..j] && Lpt(w, m)[..j] == before[..j];
    } else {
      assert Lpt(w, m)[..j] == before;
    }
  }

  lemma NextMachine(w: seq<nat>, m: nat, j: nat, c: nat)
    requires m > 0 && j < |w| && c < m
    ensures var a := Lpt(w, m);
            && LoadOn(w[..j], a[..j], a[j]) <= LoadOn(w[..j], a[..j], c)
            && (c < a[j] ==> LoadOn(w[..j], a[..j], a[j]) < LoadOn(w[..j], a[..j], c))
  {
    PrefixOfPlan(w, m, j);
    var loads := Loads(w[..j], Lpt(w[..j], m), m);
    assert loads[c] == LoadOn(w[..j], Lpt(w[..j], m), c);
    assert loads[LeastLoaded(loads)] == LoadOn(w[..j], Lpt(w[..j], m), LeastLoaded(loads));
  }

  lemma PrefixLoad(items: seq<Item>, names: seq<string>, a: seq<nat>, o: map<string, nat>, j: nat, k: nat)
    requires |a| == |names| && Distinct(names) && j <= |names|
    requires forall i :: 0 <= i < |names| ==> names[i] in o && o[names[i]] == a[i] && names[i] in Counts(items)
    ensures LoadOn(Weights(names, Counts(items))[..j], a[..j], k) == OwnedTests(items, names[..j], o, k)
  {
    LoadCountsItems(items, names[..j], a[..j], o, k);
    assert Weights(names[..j], Counts(items)) == Weights(names, Counts(items))[..j];
  }

  /** Each goes to the shard with the fewest tests so far, the first of those. */
  lemma LeastLoadedOwns(items: seq<Item>, count: nat, j: nat, c: nat)
    requires count > 0 && j < |SortedModules(items)| && c < count
    ensures var names, o := SortedModules(items), Owners(items, count);
            && names[j] in o && o[names[j]] < count
            && OwnedTests(items, names[..j], o, o[names[j]]) <= OwnedTests(items, names[..j], o, c)
            && (c < o[names[j]] ==> OwnedTests(items, names[..j], o, o[names[j]]) < OwnedTests(items, names[..j], o, c))
  {
    var names, o := SortedModules(items), Owners(items, count);
    var w := Weights(names, Counts(items));
    var a := Lpt(w, count);
    SortedModulesFacts(items);
    OwnersFacts(items, count);
    NextMachine(w, count, j, c);
    forall i | 0 <= i < |names| ensures names[i] in Counts(items) {
      assert names[i] in names;
    }
    PrefixLoad(items, names, a, o, j, c);
    PrefixLoad(items, names, a, o, j, a[j]);
  }

  /** What one shard runs and what it deselects are the whole collection, each in the order of collection. */
  lemma DivisionKeepsAll(items: seq<Item>, k: nat, count: nat)
    requires count > 0
    ensures var (selected, rest) := Division(items, k, count);
            && multiset(selected) + multiset(rest) == multiset(items)
            && (forall item :: item in selected ==> ModuleOf(item) in Owners(items, count) && Owners(items, count)[ModuleOf(item)] == k)
            && (forall item :: item in rest ==> ModuleOf(item) in Owners(items, count) && Owners(items, count)[ModuleOf(item)] != k)
  {
    OwnersFacts(items, count);
    FilterPartition(items, OwnedBy(Owners(items, count), k), NotOwnedBy(Owners(items, count), k));
  }

  /** Runners that collect the same tests in different orders agree on who runs what. */
  lemma OwnersIgnoreCollectionOrder(items: seq<Item>, reordered: seq<Item>, count: nat)
    requires count > 0 && multiset(items) == multiset(reordered)
    ensures Owners(items, count) == Owners(reordered, count)
  {
    SameNames(items, reordered);
    SameCounts(items, reordered);
    BeforeIsOrder(Counts(items));
    SortForgetsOrder(Names(items), Names(reordered), Before(Counts(items)));
  }

  lemma SameNames(items: seq<Item>, reordered: seq<Item>)
    requires multiset(items) == multiset(reordered)
    ensures multiset(Names(items)) == multiset(Names(reordered))
    ensures forall name :: name in Names(items) <==> name in Names(reordered)
  {
    NamesCover(items);
    NamesCover(reordered);
    MultisetMembers(items, reordered);
    forall name ensures name in Names(items) <==> name in Names(reordered) {
      if name in Names(items) {
        var item :| item in items && ModuleOf(item) == name;
        assert item in reordered;
      }
      if name in Names(reordered) {
        var item :| item in reordered && ModuleOf(item) == name;
        assert item in items;
      }
    }
    forall name ensures multiset(Names(items))[name] == multiset(Names(reordered))[name] {
      DistinctCounts(Names(items), name);
      DistinctCounts(Names(reordered), name);
    }
  }

  lemma SameCounts(items: seq<Item>, reordered: seq<Item>)
    requires multiset(items) == multiset(reordered)
    requires forall name :: name in Names(items) <==> name in Names(reordered)
    ensures Counts(items) == Counts(reordered)
  {
    forall name ensures |Filter(items, InModule(name))| == |Filter(reordered, InModule(name))| {
      FilterMultiset(items, reordered, InModule(name));
      MultisetMembers(Filter(items, InModule(name)), Filter(reordered, InModule(name)));
    }
  }

  // ------------------------------------------------------------- the plugin

  /** The pytest session's collection, which the hook edits in place. */
  class Session {
    var items: seq<Item>
    var deselected: seq<Item>

    constructor (collected: seq<Item>)
      ensures items == collected && deselected == []
    {
      items, deselected := collected, [];
    }

    /** `pytest_collection_modifyitems`; `usageError` stands for the raised `UsageError`. */
    method ModifyItems(option: ShardOption) returns (usageError: bool)
      modifies this
      ensures usageError == (option.Shard? && !option.Valid())
      ensures !option.Valid() ==> items == old(items) && deselected == old(deselected)
      ensures option.Valid() ==> (items, deselected) == Division(old(items), option.Position(), option.Shards())
    {
      usageError := option.Shard? && !option.Valid();
      if option.Valid() {
        items, deselected := Split(items, option.Position(), option.Shards());
      }
    }

    static method Split(items: seq<Item>, index: nat, count: nat) returns (selected: seq<Item>, rest: seq<Item>)
      requires index < count
      ensures (selected, rest) == Division(items, index, count)
    {
      var owners := Plan(items, count);
      OwnersFacts(items, count);
      selected, rest := Partition(items, owners, index);
    }

    static method Plan(items: seq<Item>, count: nat) returns (owners: map<string, nat>)
      requires count > 0
      ensures owners == Owners(items, count)
    {
      var names, modules := GroupByModule(items);
      var counts: map<string, nat> := map name | name in modules :: |modules[name]|;
      assert forall name :: name in modules <==> name in Counts(items);
      assert counts == Counts(items);
      SortedModulesFacts(items);
      owners := AssignOwners(SortBy(names, Before(counts)), counts, count);
    }

    /** The final loop: each item goes to `selected` or `deselected`, keeping its order. */
    static method Partition(items: seq<Item>, owners: map<string, nat>, index: nat)
      returns (selected: seq<Item>, rest: seq<Item>)
      requires forall item :: item in items ==> ModuleOf(item) in owners
      ensures selected == Filter(items, OwnedBy(owners, index))
      ensures rest == Filter(items, NotOwnedBy(owners, index))
    {
      selected, rest := [], [];
      for i := 0 to |items|
        invariant selected == Filter(items[..i], OwnedBy(owners, index))
        invariant rest == Filter(items[..i], NotOwnedBy(owners, index))
      {
        var item := items[i];
        FilterNext(items, i, OwnedBy(owners, index));
        FilterNext(items, i, NotOwnedBy(owners, index));
        assert item in items;
        if owners[ModuleOf(item)] == index {
          selected := selected + [item];
        } else {
          rest := rest + [item];
        }
      }
      assert items[..|items|] == items;
    }

    /** The `modules` defaultdict, filled item by item. */
    static method GroupByModule(items: seq<Item>) returns (names: seq<string>, modules: map<string, seq<Item>>)
      ensures names == Names(items)
      ensures modules.Keys == Counts(items).Keys
      ensures forall name :: name in modules ==> modules[name] == Filter(items, InModule(name))
    {
      names, modules := [], map[];
      for i := 0 to |items|
        invariant names == Names(items[..i])
        invariant forall name :: name in modules <==> name in names
        invariant forall name :: name in modules ==> modules[name] == Filter(items[..i], InModule(name))
      {
        var name := ModuleOf(items[i]);
        GroupStep(items, i);
        if name in modules {
          modules := modules[name := modules[name] + [items[i]]];
        } else {
          names := names + [name];
          modules := modules[name := [items[i]]];
        }
      }
      assert items[..|items|] == items;
    }

    static lemma GroupStep(items: seq<Item>, i: nat)
      requires i < |items|
      ensures var name := ModuleOf(items[i]);
              && Names(items[..i + 1]) == (if name in Names(items[..i]) then Names(items[..i]) else Names(items[..i]) + [name])
              && (name !in Names(items[..i]) ==> Filter(items[..i], InModule(name)) == [])
              && (forall other :: Filter(items[..i + 1], InModule(other))
                                  == Filter(items[..i], InModule(other)) + if other == name then [items[i]] else [])
    {
      var name := ModuleOf(items[i]);
      assert items[..i + 1][..i] == items[..i];
      NamesCover(items[..i]);
      if name !in Names(items[..i]) {
        FilterNone(items[..i], InModule(name));
      }
      forall other ensures Filter(items[..i + 1], InModule(other))
                           == Filter(items[..i], InModule(other)) + if other == name then [items[i]] else []
      {
        FilterNext(items, i, InModule(other));
      }
    }

    /** The loop over sorted modules that updates `loads` and `owners`. */
    static method AssignOwners(names: seq<string>, counts: map<string, nat>, count: nat) returns (owners: map<string, nat>)
      requires count > 0 && forall name :: name in names ==> name in counts
      ensures owners == OwnerMap(names, Lpt(Weights(names, counts), count))
    {
      ghost var w, a := Weights(names, counts), [];
      var loads := new nat[count](_ => 0);
      owners := map[];
      assert loads[..] == Loads(w[..0], a, count);
      for j := 0 to |names|
        invariant a == Lpt(w[..j], count)
        invariant loads[..] == Loads(w[..j], a, count)
        invariant owners == OwnerMap(names[..j], a)
      {
        ghost var before := loads[..];
        var weight := counts[names[j]];
        AssignMore(names, w, count, j, a, before, weight);
        var owner := AddToLeastLoaded(loads, weight);
        a := a + [owner];
        owners := owners[names[j] := owner];
      }
      assert w[..|names|] == w && names[..|names|] == names;
    }

    /** Picks the first least-loaded shard and adds the module's weight to it. */
    static method AddToLeastLoaded(loads: array<nat>, weight: nat) returns (owner: nat)
      requires loads.Length > 0
      modifies loads
      ensures owner == LeastLoaded(old(loads[..]))
      ensures loads[..] == Heavier(old(loads[..]), owner, weight)
    {
      owner := LeastLoaded(loads[..]);
      loads[owner] := loads[owner] + weight;
    }

    static lemma AssignMore(names: seq<string>, w: seq<nat>, count: nat, j: nat, a: seq<nat>, loads: seq<nat>, weight: nat)
      requires count > 0 && j < |names| == |w| && weight == w[j] && a == Lpt(w[..j], count) && loads == Loads(w[..j], a, count)
      ensures Lpt(w[..j + 1], count) == a + [LeastLoaded(loads)]
      ensures Loads(w[..j + 1], a + [LeastLoaded(loads)], count) == Heavier(loads, LeastLoaded(loads), weight)
      ensures OwnerMap(names[..j + 1], a + [LeastLoaded(loads)]) == OwnerMap(names[..j], a)[names[j] := LeastLoaded(loads)]
    {
      LptAppend(w[..j], w[j], count, a, loads);
      LoadsNext(w[..j], w[j], count, a, LeastLoaded(loads), loads);
      TakeNext(w, j);
      OwnerMapNext(names, a, LeastLoaded(loads), j);
    }

    static lemma OwnerMapNext(names: seq<string>, a: seq<nat>, owner: nat, j: nat)
      requires |a| == j < |names|
      ensures OwnerMap(names[..j + 1], a + [owner]) == OwnerMap(names[..j], a)[names[j] := owner]
    {
      assert names[..j + 1][..j] == names[..j] && (a + [owner])[..j] == a;
    }
  }
}
