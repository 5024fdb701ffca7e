/** SPDX export followed by import gives the inventory back. */
module SpdxRoundTrip {
  import opened Outcomes
  import opened Orders
  import opened Cursors
  import opened AiBomItems
  import opened Spdx

  // ----------------------------------------------------------- generated ids

  function Pow10(k: nat): nat { if k == 0 then 1 else 10 * Pow10(k - 1) }

  lemma {:induction false} DecimalLength(n: nat, k: nat)
    requires k >= 1 && n < Pow10(k)
    ensures |Decimal(n)| <= k
  {
    if n >= 10 {
      assert Pow10(k) == 10 * Pow10(k - 1);
      assert k > 1;
      DecimalLength(n / 10, k - 1);
    }
  }

  lemma SplitAtColon(a: string, b: string, c: string, d: string)
    requires a + ":" + b == c + ":" + d
    requires forall i :: 0 <= i < |a| ==> '0' <= a[i] <= '9'
    requires forall i :: 0 <= i < |c| ==> '0' <= c[i] <= '9'
    ensures a == c && b == d
  {
    var s := a + ":" + b;
    assert s[|a|] == ':' && s[|c|] == ':';
    assert forall i :: 0 <= i < |a| ==> s[i] != ':';
    assert forall i :: 0 <= i < |c| ==> s[i] != ':';
    assert a == s[..|a|] && c == s[..|c|];
    assert b == s[|a| + 1..] && d == s[|c| + 1..];
  }

  /** License ids generated in one export never collide. */
  lemma LicenseIdsDiffer(namespace: string, i: nat, j: nat, i': nat, j': nat)
    requires LicenseId(namespace, i, j) == LicenseId(namespace, i', j')
    ensures i == i' && j == j'
  {
    var head := namespace + "license:";
    var s, t := LicenseId(namespace, i, j), LicenseId(namespace, i', j');
    assert s[|head|..] == Decimal(i) + ":" + Decimal(j);
    assert t[|head|..] == Decimal(i') + ":" + Decimal(j');
    SplitAtColon(Decimal(i), Decimal(j), Decimal(i'), Decimal(j'));
    DecimalInjective(i, i');
    DecimalInjective(j, j');
  }

  const MANY: nat := 1_000_000_000_000_000_000

  lemma ShortNumeral(n: nat)
    requires n < MANY
    ensures |Decimal(n)| <= 18
  {
    assert Pow10(3) == 1000 && Pow10(6) == 1_000_000 && Pow10(9) == 1_000_000_000;
    assert Pow10(12) == 1_000_000_000_000 && Pow10(15) == 1_000_000_000_000_000;
    assert Pow10(18) == MANY;
    DecimalLength(n, 18);
  }

  predicate ShortName(namespace: string) { namespace != "" && !IsSpace(namespace[0]) && |namespace| <= 200 }

  /** The random namespace is a short URN, and no list in the inventory is longer than any machine could hold. */
  predicate Fits(items: seq<Item>, namespace: string)
  {
    && ShortName(namespace)
    && |items| < MANY
    && forall item :: item in items ==> |item.licenses| < MANY
  }

  lemma LicenseIdIsCanonical(namespace: string, i: nat, j: nat)
    requires ShortName(namespace) && i < MANY && j < MANY
    ensures Cleaned(LicenseId(namespace, i, j), NAME_LIMIT) == LicenseId(namespace, i, j)
  {
    ShortNumeral(i);
    ShortNumeral(j);
    var s := LicenseId(namespace, i, j);
    assert s[0] == namespace[0];
    assert s[|s| - 1] == Decimal(j)[|Decimal(j)| - 1];
    CanonicalIff(s, NAME_LIMIT);
  }

  // ---------------------------------------------------------------- element ids

  /** The inventory has one item per id, and every id is an IRI. */
  ghost predicate IriKeyed(items: seq<Item>)
  {
    && (forall i, j :: 0 <= i < j < |items| ==> items[i].id != items[j].id)
    && (forall i :: 0 <= i < |items| ==> items[i].id != "" && IsIri(items[i].id))
  }

  function Key(item: Item): string { item.id }

  lemma {:induction false} RootsAreIds(items: seq<Item>, namespace: string, quote: string -> string)
    requires IriKeyed(items)
    ensures Roots(items, namespace, quote) == Map(items, Key)
  {
    if items != [] {
      var k := |items| - 1;
      RootsAreIds(items[..k], namespace, quote);
      assert Map(items, Key)[..k] == Map(items[..k], Key);
      assert items[k].id !in Map(items[..k], Key);
    }
  }

  /** An id survives `_spdx_iri` exactly when it is an IRI; everything else is moved into the namespace. */
  lemma IriKeptIff(value: string, namespace: string, quote: string -> string)
    requires namespace != "" && |quote(value)| >= |value|
    ensures SpdxIri(value, namespace, quote) == value <==> IsIri(value)
  {
    if !IsIri(value) {
      assert |namespace + quote(value)| > |value|;
    }
  }

  /** A plain id is moved. */
  lemma PlainIdExample(namespace: string, quote: string -> string)
    requires namespace != "" && |quote("m1")| >= 2
    ensures SpdxIri("m1", namespace, quote) != "m1"
  {
    IriKeptIff("m1", namespace, quote);
  }

  /** The nodes of the first `n` items. */
  function Nodes(items: seq<Item>, n: nat, namespace: string): seq<Node>
    requires n <= |items|
  {
    if n == 0 then [] else Nodes(items, n - 1, namespace) + Segment(items[n - 1], n, items[n - 1].id, namespace)
  }

  lemma {:induction false} SegmentsAreNodes(items: seq<Item>, namespace: string, quote: string -> string)
    requires IriKeyed(items)
    ensures Segments(items, namespace, quote) == Nodes(items, |items|, namespace)
  {
    if items != [] {
      var k := |items| - 1;
      LastRoot(items, namespace, quote);
      SegmentsAreNodes(items[..k], namespace, quote);
      NodesOfPrefix(items, k, k, namespace);
    }
  }

  lemma LastRoot(items: seq<Item>, namespace: string, quote: string -> string)
    requires IriKeyed(items) && items != []
    ensures Roots(items, namespace, quote)[|items| - 1] == items[|items| - 1].id
    ensures IriKeyed(items[..|items| - 1])
  {
    RootsAreIds(items, namespace, quote);
  }

  lemma {:induction false} NodesOfPrefix(items: seq<Item>, k: nat, n: nat, namespace: string)
    requires n <= k <= |items|
    ensures Nodes(items[..k], n, namespace) == Nodes(items, n, namespace)
  {
    if n > 0 {
      NodesOfPrefix(items, k, n - 1, namespace);
    }
  }

  function Graph(items: seq<Item>, namespace: string): seq<Node>
  {
    Header(namespace) + Nodes(items, |items|, namespace) + Footer(namespace)
  }

  // -------------------------------------------------- expressions by license id

  predicate IsExpression(node: Node) { node.Node? && LicenseExpression in node.types }

  predicate RecordsLicense(node: Node, expression: string, namespace: string, i: nat, j: nat)
  {
    node == LicenseNode(expression, LicenseId(namespace, i, j))
  }

  /** There is a license `j` of item `i`, both counted from 1. */
  ghost predicate HasLicense(items: seq<Item>, i: nat, j: nat)
  {
    1 <= i <= |items| && 1 <= j <= |items[i - 1].licenses|
  }

  ghost function LicenseAt(items: seq<Item>, i: nat, j: nat): string
    requires HasLicense(items, i, j)
  {
    items[i - 1].licenses[j - 1]
  }

  ghost predicate Generated(node: Node, items: seq<Item>, namespace: string, i: nat, j: nat)
  {
    HasLicense(items, i, j) && RecordsLicense(node, LicenseAt(items, i, j), namespace, i, j)
  }

  lemma ExpressionsOfSegment(items: seq<Item>, i: nat, namespace: string, node: Node)
    requires 1 <= i <= |items| && node in Segment(items[i - 1], i, items[i - 1].id, namespace) && IsExpression(node)
    ensures exists j :: Generated(node, items, namespace, i, j)
  {
    var nodes := LicenseNodes(namespace, i, items[i - 1].licenses);
    if node in nodes {
      var j :| 0 <= j < |nodes| && nodes[j] == node;
      assert Generated(node, items, namespace, i, j + 1);
    }
  }

  lemma {:induction false} ExpressionsOfNodes(items: seq<Item>, n: nat, namespace: string, node: Node)
    requires n <= |items| && node in Nodes(items, n, namespace) && IsExpression(node)
    ensures exists i, j :: Generated(node, items, namespace, i, j)
  {
    if node in Segment(items[n - 1], n, items[n - 1].id, namespace) {
      ExpressionsOfSegment(items, n, namespace, node);
      var j :| Generated(node, items, namespace, n, j);
    } else {
      ExpressionsOfNodes(items, n - 1, namespace, node);
    }
  }

  lemma {:induction false} GeneratedInNodes(items: seq<Item>, n: nat, namespace: string, i: nat, j: nat)
    requires i <= n <= |items| && HasLicense(items, i, j)
    ensures LicenseNode(LicenseAt(items, i, j), LicenseId(namespace, i, j)) in Nodes(items, n, namespace)
  {
    if n == i {
      var nodes := LicenseNodes(namespace, n, items[i - 1].licenses);
      assert nodes[j - 1] in nodes;
    } else {
      GeneratedInNodes(items, n - 1, namespace, i, j);
    }
  }

  lemma {:induction false} OnlyDefinition(graph: seq<Node>, id: string, expression: string)
    requires exists n :: n in graph && DefinesExpression(n, id)
    requires forall n :: n in graph && DefinesExpression(n, id) ==> Cleaned(n.expression, LICENSE_LIMIT) == expression
    ensures ExpressionOf(graph, id) == Some(expression)
  {
    var k := |graph| - 1;
    assert graph == graph[..k] + [graph[k]];
    assert graph[k] in graph;
    if !DefinesExpression(graph[k], id) {
      var n :| n in graph && DefinesExpression(n, id);
      assert n in graph[..k];
      OnlyDefinition(graph[..k], id, expression);
    }
  }

  /** Every license id resolves to its own expression. */
  lemma LicenseResolves(items: seq<Item>, namespace: string, i: nat, j: nat)
    requires CanonicalItems(items) && Fits(items, namespace) && HasLicense(items, i, j)
    ensures Resolved(Graph(items, namespace), LicenseId(namespace, i, j)) == LicenseAt(items, i, j)
  {
    var graph, id, expression := Graph(items, namespace), LicenseId(namespace, i, j), LicenseAt(items, i, j);
    LicenseFits(items, namespace, i, j);
    GeneratedIsCanonical(expression, namespace, i, j, LicenseNode(expression, id));
    GeneratedInNodes(items, |items|, namespace, i, j);
    assert LicenseNode(expression, id) in graph;
    forall n | n in graph && DefinesExpression(n, id) ensures Cleaned(n.expression, LICENSE_LIMIT) == expression {
      SameDefinition(items, namespace, i, j, n);
    }
    assert DefinesExpression(LicenseNode(expression, id), id);
    OnlyDefinition(graph, id, expression);
    LicenseIdIsCanonical(namespace, i, j);
  }

  lemma ExpressionsOfGraph(items: seq<Item>, namespace: string, node: Node)
    requires node in Graph(items, namespace) && IsExpression(node)
    ensures exists i, j :: Generated(node, items, namespace, i, j)
  {
    assert node !in Header(namespace) && node !in Footer(namespace);
    ExpressionsOfNodes(items, |items|, namespace, node);
  }

  lemma SameDefinition(items: seq<Item>, namespace: string, i: nat, j: nat, node: Node)
    requires CanonicalItems(items) && Fits(items, namespace) && HasLicense(items, i, j)
    requires node in Graph(items, namespace) && DefinesExpression(node, LicenseId(namespace, i, j))
    ensures Cleaned(node.expression, LICENSE_LIMIT) == LicenseAt(items, i, j)
  {
    ExpressionsOfGraph(items, namespace, node);
    var a: nat, b: nat :| Generated(node, items, namespace, a, b);
    GeneratedText(items, namespace, node, a, b);
    LicenseIdsDiffer(namespace, a, b, i, j);
  }

  lemma GeneratedText(items: seq<Item>, namespace: string, node: Node, i: nat, j: nat)
    requires CanonicalItems(items) && Fits(items, namespace) && Generated(node, items, namespace, i, j)
    ensures node.Node? && IdOf(node) == LicenseId(namespace, i, j)
    ensures Cleaned(node.expression, LICENSE_LIMIT) == LicenseAt(items, i, j)
  {
    LicenseFits(items, namespace, i, j);
    GeneratedIsCanonical(LicenseAt(items, i, j), namespace, i, j, node);
  }

  lemma LicenseFits(items: seq<Item>, namespace: string, i: nat, j: nat)
    requires CanonicalItems(items) && Fits(items, namespace) && HasLicense(items, i, j)
    ensures Canonical(LicenseAt(items, i, j), LICENSE_LIMIT) && LicenseAt(items, i, j) != ""
    ensures ShortName(namespace) && i < MANY && j < MANY
  {
    var item := items[i - 1];
    assert item in items && item.licenses[j - 1] in item.licenses;
  }

  lemma GeneratedIsCanonical(expression: string, namespace: string, i: nat, j: nat, node: Node)
    requires RecordsLicense(node, expression, namespace, i, j) && Canonical(expression, LICENSE_LIMIT)
    requires ShortName(namespace) && i < MANY && j < MANY
    ensures IdOf(node) == LicenseId(namespace, i, j) && Cleaned(node.expression, LICENSE_LIMIT) == expression
  {
    LicenseIdIsCanonical(namespace, i, j);
    CanonicalIff(expression, LICENSE_LIMIT);
  }

  lemma {:induction false} TargetsResolve(graph: seq<Node>, targets: seq<string>, licenses: seq<string>)
    requires |targets| == |licenses| && forall j :: 0 <= j < |targets| ==> Resolved(graph, targets[j]) == licenses[j]
    ensures AddTargets([], graph, targets) == AddAll(licenses)
  {
    if targets != [] {
      var k := |targets| - 1;
      TargetsResolve(graph, targets[..k], licenses[..k]);
    }
  }

  // ------------------------------------------------------- the links of one item

  lemma LinksOfSegment(item: Item, i: nat, namespace: string, id: string)
    requires Canonical(item.id, NAME_LIMIT)
    ensures Filter(Segment(item, i, item.id, namespace), Linking(id))
         == if item.id == id then Links(namespace, i, id, item.licenses) else []
  {
    CanonicalIff(item.id, NAME_LIMIT);
    var a, b := [PackageNode(item, item.id)] + LicenseNodes(namespace, i, item.licenses), Links(namespace, i, item.id, item.licenses);
    FilterAppend(a, b, Linking(id));
    FilterNone(a, Linking(id));
    if item.id == id {
      FilterAll(b, Linking(id));
    } else {
      FilterNone(b, Linking(id));
    }
  }

  lemma LinksNext(items: seq<Item>, k: nat, namespace: string, id: string)
    requires k < |items| && Canonical(items[k].id, NAME_LIMIT)
    ensures items[k].id != id ==> Filter(Nodes(items, k + 1, namespace), Linking(id)) == Filter(Nodes(items, k, namespace), Linking(id))
    ensures items[k].id == id ==>
      Filter(Nodes(items, k + 1, namespace), Linking(id))
      == Filter(Nodes(items, k, namespace), Linking(id)) + Links(namespace, k + 1, id, items[k].licenses)
  {
    var before := Filter(Nodes(items, k, namespace), Linking(id));
    LinksOfSegment(items[k], k + 1, namespace, id);
    FilterAppend(Nodes(items, k, namespace), Segment(items[k], k + 1, items[k].id, namespace), Linking(id));
    assert before + [] == before;
  }

  lemma {:induction false} NoLinks(items: seq<Item>, n: nat, namespace: string, id: string)
    requires n <= |items| && forall k :: 0 <= k < n ==> Canonical(items[k].id, NAME_LIMIT) && items[k].id != id
    ensures Filter(Nodes(items, n, namespace), Linking(id)) == []
  {
    if n > 0 {
      NoLinks(items, n - 1, namespace, id);
      LinksNext(items, n - 1, namespace, id);
    }
  }

  /** Only item `i` links licenses to its id. */
  lemma {:induction false} LinksOfNodes(items: seq<Item>, n: nat, namespace: string, i: nat)
    requires i < n <= |items|
    requires forall k :: 0 <= k < n ==> Canonical(items[k].id, NAME_LIMIT) && (items[k].id == items[i].id <==> k == i)
    ensures Filter(Nodes(items, n, namespace), Linking(items[i].id)) == Links(namespace, i + 1, items[i].id, items[i].licenses)
  {
    LinksNext(items, n - 1, namespace, items[i].id);
    if n == i + 1 {
      NoLinks(items, i, namespace, items[i].id);
      assert [] + Links(namespace, i + 1, items[i].id, items[i].licenses) == Links(namespace, i + 1, items[i].id, items[i].licenses);
    } else {
      LinksOfNodes(items, n - 1, namespace, i);
    }
  }

  lemma LinksOfGraph(items: seq<Item>, namespace: string, i: nat)
    requires IriKeyed(items) && CanonicalItems(items) && i < |items|
    ensures Filter(Graph(items, namespace), Linking(items[i].id)) == Links(namespace, i + 1, items[i].id, items[i].licenses)
  {
    forall k | 0 <= k < |items| ensures Canonical(items[k].id, NAME_LIMIT) && (items[k].id == items[i].id <==> k == i) {
      assert items[k] in items;
    }
    LinksOfNodes(items, |items|, namespace, i);
    NoLinksAround(items, namespace, items[i].id);
  }

  lemma NoLinksAround(items: seq<Item>, namespace: string, id: string)
    ensures Filter(Graph(items, namespace), Linking(id)) == Filter(Nodes(items, |items|, namespace), Linking(id))
  {
    NoLinksInFrame(namespace, id);
    FilterInTheMiddle(Header(namespace), Nodes(items, |items|, namespace), Footer(namespace), Linking(id));
  }

  lemma NoLinksInFrame(namespace: string, id: string)
    ensures Filter(Header(namespace), Linking(id)) == [] && Filter(Footer(namespace), Linking(id)) == []
  {
    FilterNone(Header(namespace), Linking(id));
    FilterNone(Footer(namespace), Linking(id));
  }

  lemma FilterInTheMiddle(a: seq<Node>, b: seq<Node>, c: seq<Node>, p: Node -> bool)
    requires Filter(a, p) == [] && Filter(c, p) == []
    ensures Filter(a + b + c, p) == Filter(b, p)
  {
    FilterAppend(a + b, c, p);
    FilterAppend(a, b, p);
  }

  /** The graph gives every item exactly its licenses, in order. */
  lemma LicensesRead(items: seq<Item>, namespace: string, i: nat)
    requires IriKeyed(items) && CanonicalItems(items) && Fits(items, namespace) && i < |items|
    ensures LicensesOf(Graph(items, namespace), |Graph(items, namespace)|, items[i].id) == items[i].licenses
  {
    var graph, licenses := Graph(items, namespace), items[i].licenses;
    LinksOfGraph(items, namespace, i);
    assert graph[..|graph|] == graph;
    assert items[i] in items;
    if licenses != [] {
      var ids := LicenseIds(namespace, i + 1, |licenses|);
      forall j | 0 <= j < |ids| ensures Resolved(graph, ids[j]) == licenses[j] {
        LicenseResolves(items, namespace, i + 1, j + 1);
      }
      TargetsResolve(graph, ids, licenses);
      AddAllDistinct(licenses);
      OneLink(LinkNode(namespace, i + 1, items[i].id, ids), graph);
    }
  }

  lemma OneLink(link: Node, graph: seq<Node>)
    requires link.Node?
    ensures LinkedLicenses([link], graph) == AddTargets([], graph, link.targets)
  {
    LinkedNext([], link, graph);
    assert [] + [link] == [link];
  }

  // ------------------------------------------------------------------ the rows

  /** SPDX has no place for model parameters, and its import marks exactly the models as having a card. */
  function SpdxView(item: Item): Item { item.(modelCard := item.kind == Model, parameters := None) }

  lemma PackageReadBack(items: seq<Item>, namespace: string, i: nat)
    requires IriKeyed(items) && CanonicalItems(items) && Fits(items, namespace) && i < |items|
    ensures RowIn(Graph(items, namespace))(PackageNode(items[i], items[i].id)) == Some(SpdxView(items[i]))
  {
    assert items[i] in items;
    LicensesRead(items, namespace, i);
    CanonicalIff(items[i].id, NAME_LIMIT);
    PackageRow(items[i]);
    RowWithLicenses(Graph(items, namespace), PackageNode(items[i], items[i].id));
  }

  lemma RowWithLicenses(graph: seq<Node>, node: Node)
    requires node.Node?
    ensures RowIn(graph)(node) == RowOf(node, LicensesOf(graph, |graph|, IdOf(node)))
  {
  }

  lemma PackageRow(item: Item)
    requires CanonicalItem(item)
    ensures RowOf(PackageNode(item, item.id), item.licenses) == Some(SpdxView(item))
  {
    FieldsAreClean(item);
  }

  lemma FieldsAreClean(item: Item)
    requires CanonicalItem(item)
    ensures Cleaned(item.id, NAME_LIMIT) == item.id && Cleaned(item.name, NAME_LIMIT) == item.name
    ensures Cleaned(item.version, NAME_LIMIT) == item.version
    ensures Cleaned(item.description, TEXT_LIMIT) == item.description && Cleaned(item.purl, PURL_LIMIT) == item.purl
  {
    CanonicalIff(item.id, NAME_LIMIT);
    CanonicalIff(item.name, NAME_LIMIT);
    CanonicalIff(item.version, NAME_LIMIT);
    CanonicalIff(item.description, TEXT_LIMIT);
    CanonicalIff(item.purl, PURL_LIMIT);
  }

  ghost predicate ReadsPackages(f: Node -> Option<Item>, items: seq<Item>)
  {
    forall i :: 0 <= i < |items| ==> f(PackageNode(items[i], items[i].id)) == Some(SpdxView(items[i]))
  }

  ghost predicate SkipsOthers(f: Node -> Option<Item>)
  {
    forall n: Node :: n.Node? && ItemKind(n.types).None? ==> f(n) == None
  }

  lemma {:induction false} NothingPresent<T>(found: seq<Option<T>>)
    requires forall x :: x in found ==> x.None?
    ensures Present(found) == []
  {
    if found != [] {
      assert found[|found| - 1] in found;
      forall x | x in found[..|found| - 1] ensures x in found {}
      NothingPresent(found[..|found| - 1]);
    }
  }

  lemma NoRows(nodes: seq<Node>, f: Node -> Option<Item>)
    requires SkipsOthers(f) && forall n :: n in nodes ==> n.Node? && ItemKind(n.types).None?
    ensures Present(Map(nodes, f)) == []
  {
    forall x | x in Map(nodes, f) ensures x.None? {
      MapMembers(nodes, f, x);
    }
    NothingPresent(Map(nodes, f));
  }

  lemma RowsAppend(a: seq<Node>, b: seq<Node>, f: Node -> Option<Item>)
    ensures Present(Map(a + b, f)) == Present(Map(a, f)) + Present(Map(b, f))
  {
    MapAppend(a, b, f);
    PresentAppend(Map(a, f), Map(b, f));
  }

  lemma RowOfSegment(items: seq<Item>, i: nat, namespace: string, f: Node -> Option<Item>)
    requires i < |items| && ReadsPackages(f, items) && SkipsOthers(f)
    ensures Present(Map(Segment(items[i], i + 1, items[i].id, namespace), f)) == [SpdxView(items[i])]
  {
    var item := items[i];
    var package, others := PackageNode(item, item.id), LicenseRecords(item, i + 1, namespace);
    assert Segment(item, i + 1, item.id, namespace) == [package] + others;
    RowsAppend([package], others, f);
    RecordsAreNoPackages(item, i + 1, namespace);
    NoRows(others, f);
    PresentAll(Map([package], f), [SpdxView(item)]);
  }

  function LicenseRecords(item: Item, i: nat, namespace: string): seq<Node>
  {
    LicenseNodes(namespace, i, item.licenses) + Links(namespace, i, item.id, item.licenses)
  }

  lemma RecordsAreNoPackages(item: Item, i: nat, namespace: string)
    ensures forall n :: n in LicenseRecords(item, i, namespace) ==> n.Node? && ItemKind(n.types).None?
  {
  }

  lemma MapNext<T, U>(s: seq<T>, n: nat, f: T -> U)
    requires n < |s|
    ensures Map(s[..n + 1], f) == Map(s[..n], f) + [f(s[n])]
  {
  }

  lemma {:induction false} RowsOfNodes(items: seq<Item>, n: nat, namespace: string, f: Node -> Option<Item>)
    requires n <= |items| && ReadsPackages(f, items) && SkipsOthers(f)
    ensures Present(Map(Nodes(items, n, namespace), f)) == Map(items[..n], SpdxView)
  {
    if n > 0 {
      var k := n - 1;
      RowsOfNodes(items, k, namespace, f);
      RowsAppend(Nodes(items, k, namespace), Segment(items[k], k + 1, items[k].id, namespace), f);
      RowOfSegment(items, k, namespace, f);
      MapNext(items, k, SpdxView);
    }
  }

  lemma RowsInTheMiddle(a: seq<Node>, b: seq<Node>, c: seq<Node>, f: Node -> Option<Item>)
    requires Present(Map(a, f)) == [] && Present(Map(c, f)) == []
    ensures Present(Map(a + b + c, f)) == Present(Map(b, f))
  {
    RowsAppend(a + b, c, f);
    RowsAppend(a, b, f);
  }

  lemma NoRowsAround(namespace: string, f: Node -> Option<Item>)
    requires SkipsOthers(f)
    ensures Present(Map(Header(namespace), f)) == [] && Present(Map(Footer(namespace), f)) == []
  {
    NoRows(Header(namespace), f);
    NoRows(Footer(namespace), f);
  }

  lemma RowsOfGraph(items: seq<Item>, namespace: string, f: Node -> Option<Item>)
    requires ReadsPackages(f, items) && SkipsOthers(f)
    ensures Present(Map(Graph(items, namespace), f)) == Map(items, SpdxView)
  {
    RowsOfNodes(items, |items|, namespace, f);
    assert items[..|items|] == items;
    NoRowsAround(namespace, f);
    RowsInTheMiddle(Header(namespace), Nodes(items, |items|, namespace), Footer(namespace), f);
  }

  /** Id, name, version, type, description, purl and licenses of every item come back, in order. */
  lemma ExportThenImport(items: seq<Item>, namespace: string, quote: string -> string)
    requires IriKeyed(items) && CanonicalItems(items) && Fits(items, namespace)
    ensures Imported(Exported(items, namespace, quote)) == Ok(Map(items, SpdxView))
  {
    SegmentsAreNodes(items, namespace, quote);
    var graph := Graph(items, namespace);
    PackagesRead(items, namespace);
    RowsOfGraph(items, namespace, RowIn(graph));
  }

  lemma PackagesRead(items: seq<Item>, namespace: string)
    requires IriKeyed(items) && CanonicalItems(items) && Fits(items, namespace)
    ensures ReadsPackages(RowIn(Graph(items, namespace)), items)
  {
    forall i | 0 <= i < |items| ensures RowIn(Graph(items, namespace))(PackageNode(items[i], items[i].id)) == Some(SpdxView(items[i])) {
      PackageReadBack(items, namespace, i);
    }
  }

  // --------------------------------------------------------------- other ids

  function ExportId(item: Item, namespace: string, quote: string -> string): string
  {
    SpdxIri(item.id, ElementNamespace(namespace), quote)
  }

  /** The item under the IRI that an export gives it. */
  function Renamed(namespace: string, quote: string -> string): Item -> Item
  {
    (item: Item) => item.(id := ExportId(item, namespace, quote))
  }

  predicate NoSpace(s: string) { forall c :: c in s ==> !IsSpace(c) }

  /** Percent-encoding: distinct texts stay distinct, and nothing is white space afterwards. */
  ghost predicate Encodes(quote: string -> string)
  {
    (forall a, b :: quote(a) == quote(b) ==> a == b) && forall a :: NoSpace(quote(a))
  }

  /** The random namespace is a URN that no stored id starts with, and every id stays within the limit of an import. */
  ghost predicate Renames(items: seq<Item>, namespace: string, quote: string -> string)
  {
    && "urn:" <= namespace && NoSpace(namespace) && Encodes(quote)
    && (forall item :: item in items ==> !(ElementNamespace(namespace) <= item.id) && |ExportId(item, namespace, quote)| <= NAME_LIMIT)
    && forall i, j :: 0 <= i < j < |items| ==> items[i].id != items[j].id
  }

  lemma UrnIsIri(namespace: string, text: string)
    requires "urn:" <= namespace && NoSpace(namespace) && NoSpace(text)
    ensures IsIri(ElementNamespace(namespace) + text)
  {
    var s := ElementNamespace(namespace) + text;
    assert s[..4] == namespace[..4];
    forall c | c in s ensures !IsSpace(c) {
      assert c in namespace || c in "element:" || c in text;
    }
  }

  lemma ExportIdIsIri(item: Item, namespace: string, quote: string -> string)
    requires "urn:" <= namespace && NoSpace(namespace) && Encodes(quote)
    ensures IsIri(ExportId(item, namespace, quote)) && ExportId(item, namespace, quote) != ""
  {
    if !IsIri(item.id) {
      UrnIsIri(namespace, quote(item.id));
    }
  }

  lemma ExportIdsDiffer(a: Item, b: Item, namespace: string, quote: string -> string)
    requires Encodes(quote) && a.id != b.id
    requires !(ElementNamespace(namespace) <= a.id) && !(ElementNamespace(namespace) <= b.id)
    ensures ExportId(a, namespace, quote) != ExportId(b, namespace, quote)
  {
    var head := ElementNamespace(namespace);
    assert head <= head + quote(a.id) && head <= head + quote(b.id);
    assert (head + quote(a.id))[|head|..] == quote(a.id) && (head + quote(b.id))[|head|..] == quote(b.id);
  }

  /** An export looks at an item's id only through the IRI it gets. */
  lemma {:induction false} SegmentsOfRenamed(items: seq<Item>, namespace: string, quote: string -> string)
    requires "urn:" <= namespace && NoSpace(namespace) && Encodes(quote) && forall item :: item in items ==> item.id != ""
    ensures Roots(Map(items, Renamed(namespace, quote)), namespace, quote) == Roots(items, namespace, quote)
    ensures Segments(Map(items, Renamed(namespace, quote)), namespace, quote) == Segments(items, namespace, quote)
  {
    if items != [] {
      var k := |items| - 1;
      var renamed := Map(items, Renamed(namespace, quote));
      assert items[k] in items && forall item :: item in items[..k] ==> item in items;
      SegmentsOfRenamed(items[..k], namespace, quote);
      assert renamed[..k] == Map(items[..k], Renamed(namespace, quote));
      ExportIdIsIri(items[k], namespace, quote);
      SameElementId(items[k], k + 1, Roots(items[..k], namespace, quote), namespace, quote);
      SegmentIgnoresId(items[k], k + 1, Roots(items, namespace, quote)[k], namespace, renamed[k].id);
    }
  }

  lemma SameElementId(item: Item, i: nat, roots: seq<string>, namespace: string, quote: string -> string)
    requires item.id != "" && IsIri(ExportId(item, namespace, quote)) && ExportId(item, namespace, quote) != ""
    ensures ElementId(Renamed(namespace, quote)(item), i, roots, namespace, quote) == ElementId(item, i, roots, namespace, quote)
  {
  }

  lemma SegmentIgnoresId(item: Item, i: nat, id: string, namespace: string, other: string)
    ensures Segment(item.(id := other), i, id, namespace) == Segment(item, i, id, namespace)
  {
  }

  lemma RenamedIsKeyed(items: seq<Item>, namespace: string, quote: string -> string)
    requires Renames(items, namespace, quote) && CanonicalItems(items) && Fits(items, namespace)
    ensures IriKeyed(Map(items, Renamed(namespace, quote)))
    ensures CanonicalItems(Map(items, Renamed(namespace, quote)))
    ensures Fits(Map(items, Renamed(namespace, quote)), namespace)
  {
    var renamed := Map(items, Renamed(namespace, quote));
    forall i | 0 <= i < |items|
      ensures renamed[i].id != "" && IsIri(renamed[i].id) && CanonicalItem(renamed[i]) && Distinct(renamed[i].licenses)
      ensures |renamed[i].licenses| < MANY
    {
      assert items[i] in items;
      ExportIdIsIri(items[i], namespace, quote);
      IriIsCanonical(renamed[i].id);
    }
    forall i, j | 0 <= i < j < |items| ensures renamed[i].id != renamed[j].id {
      assert items[i] in items && items[j] in items;
      ExportIdsDiffer(items[i], items[j], namespace, quote);
    }
  }

  lemma IriIsCanonical(id: string)
    requires IsIri(id) && |id| <= NAME_LIMIT
    ensures Canonical(id, NAME_LIMIT)
  {
    if id != "" { assert id[0] in id && id[|id| - 1] in id; }
  }

  /** Whatever the ids are, every item comes back under the IRI it was exported with, everything else as for IRI ids. */
  lemma ExportThenImportRenames(items: seq<Item>, namespace: string, quote: string -> string)
    requires Renames(items, namespace, quote) && CanonicalItems(items) && Fits(items, namespace)
    ensures Imported(Exported(items, namespace, quote)) == Ok(Map(Map(items, Renamed(namespace, quote)), SpdxView))
  {
    var renamed := Map(items, Renamed(namespace, quote));
    RenamedIsKeyed(items, namespace, quote);
    SegmentsOfRenamed(items, namespace, quote);
    ExportThenImport(renamed, namespace, quote);
  }
}
