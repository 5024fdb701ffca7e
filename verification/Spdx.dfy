/** SPDX 3.0.1 import and export of the inventory (aibom.py; AI, Dataset, Software and SimpleLicensing profiles). */
module Spdx {
  import opened Outcomes
  import opened Orders
  import opened Cursors
  import opened AiBomItems

  /** The element types that import and export know; a package type carries `software_primaryPurpose == "application"`. */
  datatype NodeType = AiPackage | DatasetPackage | SoftwarePackage(application: bool) | LicenseExpression | Relationship | OtherType

  datatype RelationshipType = HasDeclaredLicense | HasConcludedLicense | OtherRelationship

  /** A node of the graph; empty texts stand for missing or falsy members, the first of several spellings first. */
  datatype Node =
    | NotAnObject
    | Node(types: seq<NodeType>, id: string, name: string, version: string, description: string, purl: string,
           expression: string, source: string, relation: RelationshipType, targets: seq<string>)

  /** `claimsSpdx`: the context or some element id mentions "spdx". */
  datatype Document = Document(claimsSpdx: bool, graph: seq<Node>)

  datatype Error = NotSpdx

  function Blank(types: seq<NodeType>, id: string): (r: Node)
    ensures r.Node?
  {
    Node(types, id, "", "", "", "", "", "", OtherRelationship, [])
  }

  function IdOf(node: Node): string
    requires node.Node?
  {
    Cleaned(node.id, NAME_LIMIT)
  }

  // ---------------------------------------------------------- reading licenses

  predicate DefinesExpression(node: Node, id: string)
  {
    node.Node? && LicenseExpression in node.types && id != "" && IdOf(node) == id && Cleaned(node.expression, LICENSE_LIMIT) != ""
  }

  /** The expression a license id stands for: the last one the graph gives it. */
  function ExpressionOf(graph: seq<Node>, id: string): Option<string>
  {
    if graph == [] then None
    else
      var node := graph[|graph| - 1];
      if DefinesExpression(node, id) then Some(Cleaned(node.expression, LICENSE_LIMIT))
      else ExpressionOf(graph[..|graph| - 1], id)
  }

  predicate LinksLicense(node: Node, id: string)
  {
    node.Node? && Relationship in node.types && node.relation != OtherRelationship && Cleaned(node.source, NAME_LIMIT) == id
  }

  function Linking(id: string): Node -> bool { node => LinksLicense(node, id) }

  function Resolved(graph: seq<Node>, target: string): string
  {
    var e := ExpressionOf(graph, Cleaned(target, NAME_LIMIT));
    if e.Some? then e.value else ""
  }

  /** Add what the targets stand for to the licenses found so far. */
  function AddTargets(found: seq<string>, graph: seq<Node>, targets: seq<string>): seq<string>
  {
    if targets == [] then found
    else AddNew(AddTargets(found, graph, targets[..|targets| - 1]), Resolved(graph, targets[|targets| - 1]))
  }

  /** The licenses that a list of relationships gives, expressions looked up in the whole graph. */
  function LinkedLicenses(links: seq<Node>, graph: seq<Node>): seq<string>
    requires forall n :: n in links ==> n.Node?
  {
    if links == [] then []
    else
      assert forall n :: n in links[..|links| - 1] ==> n in links;
      AddTargets(LinkedLicenses(links[..|links| - 1], graph), graph, links[|links| - 1].targets)
  }

  function LicensesOf(graph: seq<Node>, upTo: nat, id: string): seq<string>
    requires upTo <= |graph|
  {
    LinkedLicenses(Filter(graph[..upTo], Linking(id)), graph)
  }

  ghost predicate HoldsExpressions(expressions: map<string, string>, graph: seq<Node>)
  {
    forall id :: (id in expressions <==> ExpressionOf(graph, id).Some?)
              && (id in expressions ==> expressions[id] == ExpressionOf(graph, id).value)
  }

  method CollectExpressions(graph: seq<Node>) returns (expressions: map<string, string>)
    ensures HoldsExpressions(expressions, graph)
  {
    expressions := map[];
    for i := 0 to |graph|
      invariant HoldsExpressions(expressions, graph[..i])
    {
      var node := graph[i];
      assert graph[..i + 1][..i] == graph[..i];
      if node.Node? && LicenseExpression in node.types {
        var nodeId, expression := IdOf(node), Cleaned(node.expression, LICENSE_LIMIT);
        if nodeId != "" && expression != "" {
          expressions := expressions[nodeId := expression];
        }
      }
    }
    assert graph[..|graph|] == graph;
  }

  ghost predicate HoldsLicenses(byElement: map<string, seq<string>>, graph: seq<Node>, upTo: nat)
    requires upTo <= |graph|
  {
    forall id :: Held(byElement, id) == LicensesOf(graph, upTo, id)
  }

  method CollectTargets(found: seq<string>, graph: seq<Node>, expressions: map<string, string>, targets: seq<string>) returns (more: seq<string>)
    requires HoldsExpressions(expressions, graph)
    ensures more == AddTargets(found, graph, targets)
  {
    more := found;
    for i := 0 to |targets|
      invariant more == AddTargets(found, graph, targets[..i])
    {
      assert targets[..i + 1][..i] == targets[..i];
      var target := Cleaned(targets[i], NAME_LIMIT);
      if target in expressions && expressions[target] != "" && expressions[target] !in more {
        more := more + [expressions[target]];
      }
    }
    assert targets[..|targets|] == targets;
  }

  lemma LinkedNext(links: seq<Node>, link: Node, graph: seq<Node>)
    requires link.Node? && forall n :: n in links ==> n.Node?
    ensures LinkedLicenses(links + [link], graph) == AddTargets(LinkedLicenses(links, graph), graph, link.targets)
  {
    assert (links + [link])[..|links|] == links;
  }

  lemma LicensesNext(graph: seq<Node>, i: nat, id: string)
    requires i < |graph|
    ensures LicensesOf(graph, i + 1, id)
         == if LinksLicense(graph[i], id) then AddTargets(LicensesOf(graph, i, id), graph, graph[i].targets) else LicensesOf(graph, i, id)
  {
    FilterNext(graph, i, Linking(id));
    var before := Filter(graph[..i], Linking(id));
    assert before + [] == before;
    if LinksLicense(graph[i], id) {
      LinkedNext(before, graph[i], graph);
    }
  }

  predicate IsLicenseLink(node: Node) { node.Node? && Relationship in node.types && node.relation != OtherRelationship }

  function Held(byElement: map<string, seq<string>>, id: string): seq<string> { if id in byElement then byElement[id] else [] }

  lemma LicensesStep(byElement: map<string, seq<string>>, graph: seq<Node>, i: nat, found: seq<string>)
    requires i < |graph| && HoldsLicenses(byElement, graph, i)
    requires IsLicenseLink(graph[i]) ==>
      found == AddTargets(Held(byElement, Cleaned(graph[i].source, NAME_LIMIT)), graph, graph[i].targets)
    ensures !IsLicenseLink(graph[i]) ==> HoldsLicenses(byElement, graph, i + 1)
    ensures IsLicenseLink(graph[i]) ==> HoldsLicenses(byElement[Cleaned(graph[i].source, NAME_LIMIT) := found], graph, i + 1)
  {
    var after := if IsLicenseLink(graph[i]) then byElement[Cleaned(graph[i].source, NAME_LIMIT) := found] else byElement;
    forall id ensures Held(after, id) == LicensesOf(graph, i + 1, id) {
      var before := LicensesOf(graph, i, id);
      assert Held(byElement, id) == before;
      LicensesNext(graph, i, id);
      UnlinkedOrOwn(graph[i], id);
    }
  }

  lemma UnlinkedOrOwn(node: Node, id: string)
    ensures LinksLicense(node, id) <==> IsLicenseLink(node) && Cleaned(node.source, NAME_LIMIT) == id
  {
  }

  /** `_spdx_licenses` */
  method SpdxLicenses(graph: seq<Node>) returns (byElement: map<string, seq<string>>)
    ensures HoldsLicenses(byElement, graph, |graph|)
  {
    var expressions := CollectExpressions(graph);
    byElement := map[];
    NoneHeld(graph);
    for i := 0 to |graph|
      invariant HoldsLicenses(byElement, graph, i)
    {
      if IsLicenseLink(graph[i]) {
        var source := Cleaned(graph[i].source, NAME_LIMIT);
        var found := CollectTargets(Held(byElement, source), graph, expressions, graph[i].targets);
        LicensesStep(byElement, graph, i, found);
        byElement := byElement[source := found];
      } else {
        LicensesStep(byElement, graph, i, []);
      }
    }
  }

  lemma NoneHeld(graph: seq<Node>)
    ensures HoldsLicenses(map[], graph, 0)
  {
    assert graph[..0] == [];
  }

  // ------------------------------------------------------------- reading items

  function KindOf(t: NodeType): Option<Kind>
  {
    match t
    case AiPackage => Some(Model)
    case DatasetPackage => Some(Data)
    case SoftwarePackage(application) => Some(if application then Application else Library)
    case _ => None
  }

  /** The first package type among a node's types decides. */
  function ItemKind(types: seq<NodeType>): Option<Kind>
  {
    if types == [] then None
    else if KindOf(types[0]).Some? then KindOf(types[0])
    else ItemKind(types[1..])
  }

  function RowOf(node: Node, licenses: seq<string>): Option<Item>
  {
    if node.NotAnObject? || ItemKind(node.types).None? || Cleaned(node.name, NAME_LIMIT) == "" then None
    else
      var name, id, kind := Cleaned(node.name, NAME_LIMIT), IdOf(node), ItemKind(node.types).value;
      Some(Item(if id != "" then id else name, name, Cleaned(node.version, NAME_LIMIT), kind,
                Cleaned(node.description, TEXT_LIMIT), Cleaned(node.purl, PURL_LIMIT), licenses, kind == Model, None))
  }

  function RowIn(graph: seq<Node>): Node -> Option<Item>
  {
    (node: Node) => RowOf(node, if node.Node? then LicensesOf(graph, |graph|, IdOf(node)) else [])
  }

  function Imported(doc: Document): Result<seq<Item>, Error>
  {
    if !doc.claimsSpdx then Err(NotSpdx) else Ok(Present(Map(doc.graph, RowIn(doc.graph))))
  }

  /** `_spdx_items` */
  method ImportItems(doc: Document) returns (r: Result<seq<Item>, Error>)
    ensures r == Imported(doc)
  {
    if !doc.claimsSpdx {
      return Err(NotSpdx);
    }
    var licenses := SpdxLicenses(doc.graph);
    var rows: seq<Item> := [];
    for i := 0 to |doc.graph|
      invariant rows == Present(Map(doc.graph[..i], RowIn(doc.graph)))
    {
      assert Map(doc.graph[..i + 1], RowIn(doc.graph))[..i] == Map(doc.graph[..i], RowIn(doc.graph));
      var node := doc.graph[i];
      if node.Node? {
        var id := IdOf(node);
        var row := RowOf(node, Held(licenses, id));
        if row.Some? {
          rows := rows + [row.value];
        }
      }
    }
    assert doc.graph[..|doc.graph|] == doc.graph;
    r := Ok(rows);
  }

  // ------------------------------------------------------------------- export

  predicate IsIri(value: string)
  {
    ("urn:" <= value || "https://" <= value || "http://" <= value) && forall c :: c in value ==> !IsSpace(c)
  }

  /** `_spdx_iri`, for the percent-encoding `quote` */
  function SpdxIri(value: string, namespace: string, quote: string -> string): string
  {
    if IsIri(value) then value else namespace + quote(value)
  }

  function ElementNamespace(namespace: string): string { namespace + "element:" }

  /** The id of item `i` (counted from one), given the ids already used. */
  function ElementId(item: Item, i: nat, roots: seq<string>, namespace: string, quote: string -> string): string
  {
    var id := SpdxIri(if item.id != "" then item.id else Decimal(i), ElementNamespace(namespace), quote);
    if id in roots then ElementNamespace(namespace) + Decimal(i) else id
  }

  function LicenseId(namespace: string, i: nat, j: nat): string { namespace + "license:" + Decimal(i) + ":" + Decimal(j) }

  function PackageType(kind: Kind): NodeType
  {
    match kind
    case Model => AiPackage
    case Data => DatasetPackage
    case Application => SoftwarePackage(true)
    case Library => SoftwarePackage(false)
  }

  function PackageNode(item: Item, id: string): Node
  {
    Node([PackageType(item.kind)], id, item.name, item.version, item.description, item.purl, "", "", OtherRelationship, [])
  }

  function LicenseNode(expression: string, id: string): Node
  {
    Node([LicenseExpression], id, "", "", "", "", expression, "", OtherRelationship, [])
  }

  function LinkNode(namespace: string, i: nat, source: string, targets: seq<string>): Node
  {
    Node([Relationship], namespace + "relationship:" + Decimal(i) + ":declared-license", "", "", "", "", "",
         source, HasDeclaredLicense, targets)
  }

  function LicenseIds(namespace: string, i: nat, n: nat): (r: seq<string>)
    ensures |r| == n && forall j :: 0 <= j < n ==> r[j] == LicenseId(namespace, i, j + 1)
  {
    seq(n, j requires 0 <= j < n => LicenseId(namespace, i, j + 1))
  }

  function LicenseNodes(namespace: string, i: nat, licenses: seq<string>): (r: seq<Node>)
    ensures |r| == |licenses| && forall j :: 0 <= j < |r| ==> r[j] == LicenseNode(licenses[j], LicenseId(namespace, i, j + 1))
  {
    seq(|licenses|, j requires 0 <= j < |licenses| => LicenseNode(licenses[j], LicenseId(namespace, i, j + 1)))
  }

  function Links(namespace: string, i: nat, id: string, licenses: seq<string>): seq<Node>
  {
    if licenses == [] then [] else [LinkNode(namespace, i, id, LicenseIds(namespace, i, |licenses|))]
  }

  /** The nodes one item adds. */
  function Segment(item: Item, i: nat, id: string, namespace: string): seq<Node>
  {
    [PackageNode(item, id)] + LicenseNodes(namespace, i, item.licenses) + Links(namespace, i, id, item.licenses)
  }

  /** The ids of the first items, in order. */
  function Roots(items: seq<Item>, namespace: string, quote: string -> string): (r: seq<string>)
    ensures |r| == |items|
  {
    if items == [] then []
    else
      var k := |items| - 1;
      var roots := Roots(items[..k], namespace, quote);
      roots + [ElementId(items[k], k + 1, roots, namespace, quote)]
  }

  function Segments(items: seq<Item>, namespace: string, quote: string -> string): seq<Node>
  {
    if items == [] then []
    else
      var k := |items| - 1;
      Segments(items[..k], namespace, quote)
      + Segment(items[k], k + 1, Roots(items, namespace, quote)[k], namespace)
  }

  /** Creation info, agent and tool. */
  function Header(namespace: string): seq<Node>
  {
    [Blank([OtherType], "_:creationinfo"), Blank([OtherType], namespace + "agent"), Blank([OtherType], namespace + "tool")]
  }

  function Footer(namespace: string): seq<Node> { [Blank([OtherType], namespace + "document")] }

  function Exported(items: seq<Item>, namespace: string, quote: string -> string): Document
  {
    Document(true, Header(namespace) + Segments(items, namespace, quote) + Footer(namespace))
  }

  method ExportLicenses(item: Item, i: nat, namespace: string) returns (ids: seq<string>, nodes: seq<Node>)
    ensures ids == LicenseIds(namespace, i, |item.licenses|) && nodes == LicenseNodes(namespace, i, item.licenses)
  {
    ids, nodes := [], [];
    for j := 0 to |item.licenses|
      invariant |ids| == |nodes| == j
      invariant forall x :: 0 <= x < j ==> ids[x] == LicenseId(namespace, i, x + 1) && nodes[x] == LicenseNode(item.licenses[x], ids[x])
    {
      var id := LicenseId(namespace, i, j + 1);
      ids := ids + [id];
      nodes := nodes + [LicenseNode(item.licenses[j], id)];
    }
  }

  method ExportItem(item: Item, i: nat, id: string, namespace: string) returns (nodes: seq<Node>)
    ensures nodes == Segment(item, i, id, namespace)
  {
    var licenseIds, licenseNodes := ExportLicenses(item, i, namespace);
    nodes := [PackageNode(item, id)] + licenseNodes;
    if licenseIds != [] {
      nodes := nodes + [LinkNode(namespace, i, id, licenseIds)];
    }
  }

  lemma SegmentsNext(items: seq<Item>, i: nat, namespace: string, quote: string -> string)
    requires i < |items|
    ensures Roots(items[..i + 1], namespace, quote)
         == Roots(items[..i], namespace, quote) + [ElementId(items[i], i + 1, Roots(items[..i], namespace, quote), namespace, quote)]
    ensures Segments(items[..i + 1], namespace, quote)
         == Segments(items[..i], namespace, quote)
          + Segment(items[i], i + 1, ElementId(items[i], i + 1, Roots(items[..i], namespace, quote), namespace, quote), namespace)
  {
    assert items[..i + 1][..i] == items[..i];
  }

  ghost predicate GraphSoFar(graph: seq<Node>, roots: seq<string>, items: seq<Item>, namespace: string, quote: string -> string)
  {
    roots == Roots(items, namespace, quote) && graph == Header(namespace) + Segments(items, namespace, quote)
  }

  lemma GraphGrows(graph: seq<Node>, roots: seq<string>, items: seq<Item>, i: nat, namespace: string, quote: string -> string)
    requires i < |items| && GraphSoFar(graph, roots, items[..i], namespace, quote)
    ensures var id := ElementId(items[i], i + 1, roots, namespace, quote);
            GraphSoFar(graph + Segment(items[i], i + 1, id, namespace), roots + [id], items[..i + 1], namespace, quote)
  {
    SegmentsNext(items, i, namespace, quote);
    var id := ElementId(items[i], i + 1, roots, namespace, quote);
    Associate(Header(namespace), Segments(items[..i], namespace, quote), Segment(items[i], i + 1, id, namespace));
  }

  lemma Associate<T>(a: seq<T>, b: seq<T>, c: seq<T>)
    ensures (a + b) + c == a + (b + c)
  {
  }

  /** `_spdx_export`; the namespace carries the random part. */
  method ExportItems(items: seq<Item>, namespace: string, quote: string -> string) returns (doc: Document)
    ensures doc == Exported(items, namespace, quote)
  {
    var graph := Header(namespace);
    var roots: seq<string> := [];
    for i := 0 to |items|
      invariant GraphSoFar(graph, roots, items[..i], namespace, quote)
    {
      GraphGrows(graph, roots, items, i, namespace, quote);
      var id := ElementId(items[i], i + 1, roots, namespace, quote);
      var nodes := ExportItem(items[i], i + 1, id, namespace);
      roots := roots + [id];
      graph := graph + nodes;
    }
    assert items[..|items|] == items;
    doc := Document(true, graph + Footer(namespace));
  }
}
