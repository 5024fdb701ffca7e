/** What SPDX import reads and export writes, member by member (aibom.py). */
module SpdxMeaning {
  import opened Outcomes
  import opened Orders
  import opened Cursors
  import opened AiBomItems
  import opened AiBomMeaning
  import opened Spdx

  // ------------------------------------------------------------------- reading

  /** The kind of item that a package type stands for; other types stand for none. */
  ghost predicate StandsFor(t: NodeType, kind: Kind)
  {
    || (t == AiPackage && kind == Model)
    || (t == DatasetPackage && kind == Data)
    || (t == SoftwarePackage(true) && kind == Application)
    || (t == SoftwarePackage(false) && kind == Library)
  }

  ghost predicate FirstPackage(types: seq<NodeType>, i: int, kind: Kind)
  {
    0 <= i < |types| && StandsFor(types[i], kind) && forall j, other :: 0 <= j < i ==> !StandsFor(types[j], other)
  }

  /** The first package type decides. */
  lemma {:induction false} ItemKindMeaning(types: seq<NodeType>, kind: Kind)
    ensures ItemKind(types) == Some(kind) <==> exists i :: FirstPackage(types, i, kind)
  {
    if types != [] {
      ItemKindMeaning(types[1..], kind);
      if i :| FirstPackage(types[1..], i, kind) {
        if KindOf(types[0]).None? {
          assert forall j :: 0 < j < |types| ==> types[j] == types[1..][j - 1];
          assert FirstPackage(types, i + 1, kind);
        }
      }
      if StandsFor(types[0], kind) { assert FirstPackage(types, 0, kind); }
      if i :| FirstPackage(types, i, kind) {
        if i > 0 {
          forall j, other | 0 <= j < i - 1 ensures !StandsFor(types[1..][j], other) {
            assert types[1..][j] == types[j + 1];
          }
          NoPackage(types[0]);
          assert FirstPackage(types[1..], i - 1, kind);
        }
      }
    }
  }

  lemma NoPackage(t: NodeType)
    requires forall other :: !StandsFor(t, other)
    ensures KindOf(t).None?
  {
    assert !StandsFor(t, Model) && !StandsFor(t, Data) && !StandsFor(t, Application) && !StandsFor(t, Library);
  }

  /** The node gives the license id a text. */
  ghost predicate Expresses(node: Node, id: string, text: string)
  {
    node.Node? && LicenseExpression in node.types && id != "" && Cleaned(node.id, 1024) == id
    && text != "" && Cleaned(node.expression, 256) == text
  }

  ghost predicate LastExpression(graph: seq<Node>, k: int, id: string, text: string)
  {
    0 <= k < |graph| && Expresses(graph[k], id, text) && forall l, other :: k < l < |graph| ==> !Expresses(graph[l], id, other)
  }

  /** A license id stands for the text that the last node gives it. */
  lemma {:induction false} ExpressionMeaning(graph: seq<Node>, id: string, text: string)
    ensures ExpressionOf(graph, id) == Some(text) <==> exists k :: LastExpression(graph, k, id, text)
  {
    if graph != [] {
      var n := |graph| - 1;
      var node := graph[n];
      ExpressionMeaning(graph[..n], id, text);
      if DefinesExpression(node, id) {
        assert Expresses(node, id, Cleaned(node.expression, 256));
        if ExpressionOf(graph, id) == Some(text) { assert LastExpression(graph, n, id, text); }
      } else {
        LastExpressionPrefix(graph, n, id, text);
      }
    }
  }

  lemma LastExpressionPrefix(graph: seq<Node>, n: nat, id: string, text: string)
    requires |graph| == n + 1 && forall other :: !Expresses(graph[n], id, other)
    ensures (exists k :: LastExpression(graph, k, id, text)) <==> exists k :: LastExpression(graph[..n], k, id, text)
  {
    forall k ensures LastExpression(graph, k, id, text) <==> LastExpression(graph[..n], k, id, text) {
      LastInPrefix(graph, n, k, id, text);
    }
  }

  lemma LastInPrefix(graph: seq<Node>, n: nat, k: int, id: string, text: string)
    requires |graph| == n + 1 && forall other :: !Expresses(graph[n], id, other)
    ensures LastExpression(graph, k, id, text) <==> LastExpression(graph[..n], k, id, text)
  {
    var front := graph[..n];
    assert !Expresses(graph[n], id, text);
    assert forall l :: 0 <= l < n ==> graph[l] == front[l];
    assert forall l, other :: k < l < |graph| && 0 <= l ==> (Expresses(graph[l], id, other) <==> l < n && Expresses(front[l], id, other));
  }

  /** The node declares or concludes licenses of the element, this target among them. */
  ghost predicate Points(node: Node, id: string, target: string)
  {
    node.Node? && Relationship in node.types && node.relation in {HasDeclaredLicense, HasConcludedLicense}
    && Cleaned(node.source, 1024) == id && target in node.targets
  }

  /** The licenses of an element are what the targets of its license relationships stand for, each once. */
  lemma LicensesOfMeaning(graph: seq<Node>, id: string, x: string)
    ensures x in LicensesOf(graph, |graph|, id) <==>
            exists node, target ::
              node in graph && Points(node, id, target) && ExpressionOf(graph, Cleaned(target, 1024)) == Some(x) && x != ""
    ensures Distinct(LicensesOf(graph, |graph|, id))
  {
    var links := Filter(graph, Linking(id));
    assert graph[..|graph|] == graph;
    LinkedMembers(links, graph, x);
    if node, target :| node in links && target in node.targets && Resolved(graph, target) == x && x != "" {
      assert Points(node, id, target);
    }
    if node, target :| node in graph && Points(node, id, target) && ExpressionOf(graph, Cleaned(target, 1024)) == Some(x) && x != "" {
      assert node in links && Resolved(graph, target) == x;
    }
  }

  lemma {:induction false} LinkedMembers(links: seq<Node>, graph: seq<Node>, x: string)
    requires forall n :: n in links ==> n.Node?
    ensures x in LinkedLicenses(links, graph) <==>
            exists node, target :: node in links && target in node.targets && Resolved(graph, target) == x && x != ""
    ensures Distinct(LinkedLicenses(links, graph))
  {
    if links != [] {
      var n := |links| - 1;
      assert links == links[..n] + [links[n]];
      assert forall m :: m in links[..n] ==> m in links;
      LinkedMembers(links[..n], graph, x);
      AddedTargets(LinkedLicenses(links[..n], graph), graph, links[n].targets, x);
      if target :| target in links[n].targets && Resolved(graph, target) == x && x != "" {
        assert links[n] in links;
      }
    }
  }

  lemma {:induction false} AddedTargets(found: seq<string>, graph: seq<Node>, targets: seq<string>, x: string)
    requires Distinct(found)
    ensures x in AddTargets(found, graph, targets) <==>
            x in found || exists target :: target in targets && Resolved(graph, target) == x && x != ""
    ensures Distinct(AddTargets(found, graph, targets))
  {
    if targets != [] {
      var n := |targets| - 1;
      assert targets == targets[..n] + [targets[n]];
      AddedTargets(found, graph, targets[..n], x);
    }
  }

  /** A node counts when one of its types is a package type and it has a name. */
  ghost predicate Counts(node: Node)
  {
    node.Node? && (exists kind :: ItemKind(node.types) == Some(kind)) && Cleaned(node.name, 1024) != ""
  }

  ghost predicate Describes(item: Item, node: Node, graph: seq<Node>)
    requires Counts(node)
  {
    && item.name == Cleaned(node.name, 1024)
    && item.id == (if Cleaned(node.id, 1024) == "" then Cleaned(node.name, 1024) else Cleaned(node.id, 1024))
    && item.version == Cleaned(node.version, 1024) && ItemKind(node.types) == Some(item.kind)
    && item.description == Cleaned(node.description, 4096) && item.purl == Cleaned(node.purl, 2048)
    && item.licenses == LicensesOf(graph, |graph|, Cleaned(node.id, 1024))
    && (item.modelCard <==> item.kind == Model) && item.parameters == None
  }

  /** An import refuses documents that do not claim to be SPDX, and turns the nodes that count into rows, in order. */
  lemma ImportMeaning(doc: Document, counting: Node -> bool)
    requires forall node :: counting(node) <==> Counts(node)
    ensures !doc.claimsSpdx ==> Imported(doc) == Err(NotSpdx)
    ensures doc.claimsSpdx ==>
              && Imported(doc).Ok? && |Imported(doc).value| == |Filter(doc.graph, counting)|
              && forall i :: 0 <= i < |Imported(doc).value| ==>
                   Counts(Filter(doc.graph, counting)[i]) && Describes(Imported(doc).value[i], Filter(doc.graph, counting)[i], doc.graph)
  {
    RowsMeaning(doc.graph, doc.graph, counting);
  }

  lemma {:induction false} RowsMeaning(nodes: seq<Node>, graph: seq<Node>, counting: Node -> bool)
    requires forall node :: counting(node) <==> Counts(node)
    ensures var rows, kept := Present(Map(nodes, RowIn(graph))), Filter(nodes, counting);
            |rows| == |kept| && forall i :: 0 <= i < |rows| ==> Counts(kept[i]) && Describes(rows[i], kept[i], graph)
  {
    if nodes != [] {
      var n := |nodes| - 1;
      RowsMeaning(nodes[..n], graph, counting);
      assert Map(nodes, RowIn(graph))[..n] == Map(nodes[..n], RowIn(graph));
      assert nodes[..n + 1] == nodes;
      FilterNext(nodes, n, counting);
      RowMeaning(nodes[n], graph);
    }
  }

  lemma RowMeaning(node: Node, graph: seq<Node>)
    ensures RowIn(graph)(node).Some? <==> Counts(node)
    ensures Counts(node) ==> Describes(RowIn(graph)(node).value, node, graph)
  {
    if node.Node? && ItemKind(node.types).Some? { assert ItemKind(node.types) == Some(ItemKind(node.types).value); }
  }

  // ------------------------------------------------------------------- writing

  /** A URN or a web address, without white space. */
  lemma IsIriMeaning(value: string)
    ensures IsIri(value) <==>
              && (|| (|value| >= 4 && value[..4] == "urn:")
                  || (|value| >= 8 && value[..8] == "https://")
                  || (|value| >= 7 && value[..7] == "http://"))
              && forall i :: 0 <= i < |value| ==> !SpaceCode(value[i] as int)
  {
    forall i | 0 <= i < |value| ensures IsSpace(value[i]) <==> SpaceCode(value[i] as int) {
      SpaceMeaning(value[i]);
    }
    forall c | c in value ensures IsSpace(c) <==> SpaceCode(c as int) {
      SpaceMeaning(c);
    }
  }

  /** An item's id, or its number where it has none, moved into the namespace unless it is an IRI. */
  ghost function OwnIri(item: Item, number: nat, namespace: string, quote: string -> string): string
  {
    if item.id == "" then (if IsIri(Decimal(number)) then Decimal(number) else namespace + "element:" + quote(Decimal(number)))
    else if IsIri(item.id) then item.id else namespace + "element:" + quote(item.id)
  }

  lemma {:induction false} RootsOfPrefix(items: seq<Item>, k: nat, namespace: string, quote: string -> string)
    requires k <= |items|
    ensures Roots(items, namespace, quote)[..k] == Roots(items[..k], namespace, quote)
  {
    if k < |items| {
      var n := |items| - 1;
      RootsOfPrefix(items[..n], k, namespace, quote);
      assert items[..n][..k] == items[..k];
      assert Roots(items, namespace, quote)[..k] == Roots(items[..n], namespace, quote)[..k];
    } else {
      assert items[..k] == items;
    }
  }

  /** The k-th element goes by its own IRI, or by its number where an earlier element already has that IRI. */
  lemma RootMeaning(items: seq<Item>, k: nat, namespace: string, quote: string -> string)
    requires k < |items|
    ensures var roots, own := Roots(items, namespace, quote), OwnIri(items[k], k + 1, namespace, quote);
            roots[k] == if own in roots[..k] then namespace + "element:" + Decimal(k + 1) else own
  {
    RootsOfPrefix(items, k, namespace, quote);
    RootsOfPrefix(items, k + 1, namespace, quote);
    SegmentsNext(items, k, namespace, quote);
    assert Roots(items, namespace, quote)[k] == Roots(items, namespace, quote)[..k + 1][k];
    assert namespace + "element:" + quote(items[k].id) == (namespace + "element:") + quote(items[k].id);
  }

  ghost predicate PackageOf(node: Node, item: Item, id: string)
  {
    && node.Node? && |node.types| == 1 && StandsFor(node.types[0], item.kind)
    && node.id == id && node.name == item.name && node.version == item.version
    && node.description == item.description && node.purl == item.purl
  }

  ghost predicate LicenseOf(node: Node, expression: string, id: string)
  {
    node.Node? && node.types == [LicenseExpression] && node.id == id && node.expression == expression
  }

  ghost predicate Declares(node: Node, source: string, targets: seq<string>, id: string)
  {
    && node.Node? && node.types == [Relationship] && node.relation == HasDeclaredLicense
    && node.source == source && node.targets == targets && node.id == id
  }

  ghost function NumberedLicense(namespace: string, number: nat, j: nat): string
  {
    namespace + "license:" + Decimal(number) + ":" + Decimal(j)
  }

  /** An item adds its package, one expression per license, and with licenses a relationship from the package to all of them. */
  lemma SegmentMeaning(item: Item, number: nat, id: string, namespace: string)
    ensures var nodes, n := Segment(item, number, id, namespace), |item.licenses|;
            && |nodes| == (if n == 0 then 1 else n + 2) && PackageOf(nodes[0], item, id)
            && (forall j :: 0 <= j < n ==> LicenseOf(nodes[j + 1], item.licenses[j], NumberedLicense(namespace, number, j + 1)))
            && (n > 0 ==>
                  Declares(nodes[n + 1], id, seq(n, j requires 0 <= j < n => NumberedLicense(namespace, number, j + 1)),
                           namespace + "relationship:" + Decimal(number) + ":declared-license"))
  {
  }

  /** The nodes of one more item follow those of the items before it. */
  lemma SegmentsMeaning(items: seq<Item>, k: nat, namespace: string, quote: string -> string)
    requires k < |items|
    ensures Segments(items[..k + 1], namespace, quote)
         == Segments(items[..k], namespace, quote) + Segment(items[k], k + 1, Roots(items, namespace, quote)[k], namespace)
  {
    RootsOfPrefix(items, k, namespace, quote);
    RootsOfPrefix(items, k + 1, namespace, quote);
    SegmentsNext(items, k, namespace, quote);
    assert Roots(items, namespace, quote)[k] == Roots(items, namespace, quote)[..k + 1][k];
  }

  /** A document opens with its creation info, agent and tool, and closes with the document element. */
  lemma ExportMeaning(items: seq<Item>, namespace: string, quote: string -> string)
    ensures var doc := Exported(items, namespace, quote);
            && doc.claimsSpdx && |doc.graph| == |Segments(items, namespace, quote)| + 4
            && doc.graph[3..|doc.graph| - 1] == Segments(items, namespace, quote)
            && doc.graph[0] == Blank([OtherType], "_:creationinfo") && doc.graph[1] == Blank([OtherType], namespace + "agent")
            && doc.graph[2] == Blank([OtherType], namespace + "tool")
            && doc.graph[|doc.graph| - 1] == Blank([OtherType], namespace + "document")
  {
  }
}
