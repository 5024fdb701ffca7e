/** The canonical inventory store and its update by id (aibom.py). */
module AiBomStore {
  import opened Outcomes
  import opened Dicts
  import opened Orders
  import opened Text
  import opened AiBomItems
  import CycloneDx
  import Spdx
  import SpdxRoundTrip

  /** A stored row: the item, the format it was read from and the digest of that document. */
  datatype Row = Row(item: Item, format: string, sha256: string)

  datatype Error = NothingSupported

  function RowId(row: Row): string { row.item.id }

  function ById(): (Row, Row) -> bool { (a: Row, b: Row) => StrLe(a.item.id, b.item.id) }

  function Tagged(format: string, sha256: string): Item -> Row { item => Row(item, format, sha256) }

  predicate HasId(row: Row) { row.item.id != "" }

  /** The stored rows after importing `items`. */
  function Merged(existing: seq<Row>, items: seq<Item>, format: string, sha256: string): seq<Row>
  {
    SortBy(PutAll(PutAll([], Filter(existing, HasId), RowId), Map(items, Tagged(format, sha256)), RowId), ById())
  }

  class Store {
    var items: seq<Row>

    constructor ()
      ensures items == []
    {
      items := [];
    }

    /** `import_aibom` from the point where the document has been read into items. */
    method Import(imported: seq<Item>, format: string, sha256: string) returns (r: Result<(nat, nat), Error>)
      modifies this
      ensures imported == [] ==> r == Err(NothingSupported) && items == old(items)
      ensures imported != [] ==>
        items == Merged(old(items), imported, format, sha256) && r == Ok((|imported|, |items|))
    {
      if imported == [] {
        return Err(NothingSupported);
      }
      var byId := PutEach([], Filter(items, HasId));
      byId := PutEach(byId, Map(imported, Tagged(format, sha256)));
      items := SortBy(byId, ById());
      r := Ok((|imported|, |items|));
    }
  }

  /** The two loops that fill `by_id`. */
  method PutEach(start: seq<Row>, added: seq<Row>) returns (rows: seq<Row>)
    ensures rows == PutAll(start, added, RowId)
  {
    rows := start;
    for i := 0 to |added|
      invariant rows == PutAll(start, added[..i], RowId)
    {
      TakeNext(added, i);
      rows := Put(rows, added[i], RowId);
    }
    assert added[..|added|] == added;
  }

  // ------------------------------------------------------------ what it holds

  /** The row that the store keeps for an id: the last one imported, else the last one already there. */
  function LastWith(rows: seq<Row>, id: string): Option<Row>
  {
    if rows == [] then None
    else if rows[|rows| - 1].item.id == id then Some(rows[|rows| - 1])
    else LastWith(rows[..|rows| - 1], id)
  }

  lemma {:induction false} PutAllMembers(rows: seq<Row>)
    ensures OnePerKey(PutAll([], rows, RowId), RowId)
    ensures forall x :: x in PutAll([], rows, RowId) <==> LastWith(rows, x.item.id) == Some(x)
  {
    if rows != [] {
      var k := |rows| - 1;
      PutAllMembers(rows[..k]);
      PutMembers(PutAll([], rows[..k], RowId), rows[k], RowId);
    }
  }

  lemma {:induction false} LastWithMembers(rows: seq<Row>, id: string)
    ensures LastWith(rows, id).None? <==> forall x :: x in rows ==> x.item.id != id
    ensures LastWith(rows, id).Some? ==> LastWith(rows, id).value in rows && LastWith(rows, id).value.item.id == id
  {
    if rows != [] {
      var k := |rows| - 1;
      LastWithMembers(rows[..k], id);
      assert rows == rows[..k] + [rows[k]];
    }
  }

  lemma ByIdIsTotal()
    ensures TotalPreorder(ById())
  {
    var le := ById();
    forall a, b ensures le(a, b) || le(b, a) { StrLeTotal(a.item.id, b.item.id); }
    forall a, b, c | le(a, b) && le(b, c) ensures le(a, c) { StrLeTransitive(a.item.id, b.item.id, c.item.id); }
  }

  lemma SortKeepsOnePerKey(rows: seq<Row>)
    requires OnePerKey(rows, RowId)
    ensures OnePerKey(SortBy(rows, ById()), RowId)
    ensures Sorted(SortBy(rows, ById()), ById())
    ensures forall x :: x in SortBy(rows, ById()) <==> x in rows
  {
    ByIdIsTotal();
    SortIsSorted(rows, ById());
    var sorted := SortBy(rows, ById());
    MultisetMembers(sorted, rows);
    assert Distinct(rows);
    DistinctMultiset(rows, sorted);
    forall i, j | 0 <= i < j < |sorted| ensures sorted[i].item.id != sorted[j].item.id {
      assert sorted[i] in rows && sorted[j] in rows && sorted[i] != sorted[j];
    }
  }

  /** The rows an import starts from, followed by the imported ones. */
  function Offered(existing: seq<Row>, items: seq<Item>, format: string, sha256: string): seq<Row>
  {
    Filter(existing, HasId) + Map(items, Tagged(format, sha256))
  }

  /** After an import the inventory is sorted by id and holds, for every id, exactly the last row offered: an imported one if there is any. */
  lemma ImportUpdatesById(existing: seq<Row>, items: seq<Item>, format: string, sha256: string)
    ensures OnePerKey(Merged(existing, items, format, sha256), RowId) && Sorted(Merged(existing, items, format, sha256), ById())
    ensures forall x :: x in Merged(existing, items, format, sha256)
                   <==> LastWith(Offered(existing, items, format, sha256), x.item.id) == Some(x)
  {
    var kept, added := Filter(existing, HasId), Map(items, Tagged(format, sha256));
    PutAllAppend(kept, added, RowId);
    PutAllMembers(kept + added);
    SortKeepsOnePerKey(PutAll([], kept + added, RowId));
  }

  lemma {:induction false} LastWithAppend(a: seq<Row>, b: seq<Row>, id: string)
    ensures LastWith(a + b, id) == if LastWith(b, id).Some? then LastWith(b, id) else LastWith(a, id)
  {
    if b == [] {
      assert a + b == a;
    } else {
      var k := |b| - 1;
      assert (a + b)[..|a| + k] == a + b[..k];
      LastWithAppend(a, b[..k], id);
    }
  }

  lemma {:induction false} OnlyRowIsLast(rows: seq<Row>, x: Row)
    requires OnePerKey(rows, RowId)
    ensures x in rows <==> LastWith(rows, x.item.id) == Some(x)
  {
    LastWithMembers(rows, x.item.id);
  }

  /** Importing the same document again changes nothing. */
  lemma ImportIsIdempotent(existing: seq<Row>, items: seq<Item>, format: string, sha256: string)
    requires forall item :: item in items ==> item.id != ""
    ensures Merged(Merged(existing, items, format, sha256), items, format, sha256) == Merged(existing, items, format, sha256)
  {
    var once := Merged(existing, items, format, sha256);
    var twice := Merged(once, items, format, sha256);
    ImportUpdatesById(existing, items, format, sha256);
    ImportUpdatesById(once, items, format, sha256);
    MergedHaveIds(existing, items, format, sha256);
    FilterAll(once, HasId);
    var kept, added := Filter(existing, HasId), Map(items, Tagged(format, sha256));
    forall x ensures x in once <==> x in twice {
      LastWithAppend(kept, added, x.item.id);
      LastWithAppend(once, added, x.item.id);
      OnlyRowIsLast(once, x);
      LastWithMembers(added, x.item.id);
    }
    SameRows(once, twice);
  }

  lemma MergedHaveIds(existing: seq<Row>, items: seq<Item>, format: string, sha256: string)
    requires forall item :: item in items ==> item.id != ""
    ensures forall x :: x in Merged(existing, items, format, sha256) ==> HasId(x)
  {
    ImportUpdatesById(existing, items, format, sha256);
    var offered := Offered(existing, items, format, sha256);
    forall x | x in Merged(existing, items, format, sha256) ensures HasId(x) {
      LastWithMembers(offered, x.item.id);
      if x in Map(items, Tagged(format, sha256)) {
        MapMembers(items, Tagged(format, sha256), x);
      }
    }
  }

  lemma SameRows(a: seq<Row>, b: seq<Row>)
    requires OnePerKey(a, RowId) && OnePerKey(b, RowId) && Sorted(a, ById()) && Sorted(b, ById())
    requires forall x :: x in a <==> x in b
    ensures a == b
  {
    assert Distinct(a) && Distinct(b);
    forall x ensures multiset(a)[x] == multiset(b)[x] {
      DistinctCounts(a, x);
      DistinctCounts(b, x);
    }
    ByIdIsTotal();
    forall x, y | x in a && y in a && ById()(x, y) && ById()(y, x) ensures x == y {
      StrLeAntisymmetric(x.item.id, y.item.id);
    }
    SortedUnique(a, b, ById());
  }

  // ------------------------------------------------------------ between lakes

  /** An inventory in store order: by id, one item per id. */
  ghost predicate InStoreOrder(items: seq<Item>)
  {
    forall i, j :: 0 <= i < j < |items| ==> StrLe(items[i].id, items[j].id) && items[i].id != items[j].id
  }

  /** Items in store order are stored as they come in an empty store. */
  lemma FreshImport(items: seq<Item>, format: string, sha256: string)
    requires InStoreOrder(items)
    ensures Merged([], items, format, sha256) == Map(items, Tagged(format, sha256))
  {
    var added := Map(items, Tagged(format, sha256));
    assert PutAll([], [], RowId) == [];
    PutAllDistinct(added, RowId);
    ByIdIsTotal();
    forall i, j | 0 <= i <= j < |added| ensures ById()(added[i], added[j]) {
      StrLeTotal(added[i].item.id, added[i].item.id);
    }
    SortOfSorted(added, ById());
  }

  /** Moving an inventory to an empty lake by CycloneDX keeps every item, exactly when every model card sits on a model. */
  lemma MoveByCycloneDx(items: seq<Item>, format: string, sha256: string)
    requires InStoreOrder(items) && CanonicalItems(items)
    ensures CycloneDx.Imported(CycloneDx.Exported(items)).Ok?
    ensures Merged([], CycloneDx.Imported(CycloneDx.Exported(items)).value, format, sha256) == Map(items, Tagged(format, sha256))
       <==> forall item :: item in items ==> CycloneDx.CardFits(item)
  {
    CycloneDx.ExportThenImport(items);
    CycloneDx.RoundTripIff(items);
    var again := Map(items, CycloneDx.AfterRoundTrip);
    FreshImport(again, format, sha256);
    TaggedDiffer(again, items, format, sha256);
  }

  lemma TaggedDiffer(a: seq<Item>, b: seq<Item>, format: string, sha256: string)
    ensures Map(a, Tagged(format, sha256)) == Map(b, Tagged(format, sha256)) <==> a == b
  {
    var rows, others := Map(a, Tagged(format, sha256)), Map(b, Tagged(format, sha256));
    if rows == others {
      forall i | 0 <= i < |a| ensures a[i] == b[i] {
        assert rows[i].item == others[i].item;
      }
    }
  }

  /** By SPDX, every item arrives but for its model parameters, and exactly the models are marked as having a card. */
  lemma MoveBySpdx(items: seq<Item>, namespace: string, quote: string -> string, format: string, sha256: string)
    requires InStoreOrder(items) && CanonicalItems(items) && SpdxRoundTrip.IriKeyed(items) && SpdxRoundTrip.Fits(items, namespace)
    ensures Spdx.Imported(Spdx.Exported(items, namespace, quote)).Ok?
    ensures Merged([], Spdx.Imported(Spdx.Exported(items, namespace, quote)).value, format, sha256)
         == Map(Map(items, SpdxRoundTrip.SpdxView), Tagged(format, sha256))
  {
    SpdxRoundTrip.ExportThenImport(items, namespace, quote);
    FreshImport(Map(items, SpdxRoundTrip.SpdxView), format, sha256);
  }
}
