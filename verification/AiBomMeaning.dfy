/** What import and export make of texts, licenses, components and stored rows, member by member (aibom.py). */
module AiBomMeaning {
  import opened Outcomes
  import opened Orders
  import opened Text
  import opened AiBomItems
  import opened AiBomStore
  import CycloneDx

  // --------------------------------------------------------------------- texts

  /** The code points of white space. */
  ghost predicate SpaceCode(n: int)
  {
    n in {9, 10, 11, 12, 13, 28, 29, 30, 31, 32, 133, 160, 5760, 8232, 8233, 8239, 8287, 12288} || 8192 <= n <= 8202
  }

  lemma SpaceMeaning(c: char)
    ensures IsSpace(c) <==> SpaceCode(c as int)
  {
  }

  ghost predicate AllSpace(s: string) { forall i :: 0 <= i < |s| ==> SpaceCode(s[i] as int) }

  /** `core` is `value` without the white space at either end. */
  ghost predicate Trimmed(value: string, core: string)
  {
    && (exists front, back :: AllSpace(front) && AllSpace(back) && value == front + core + back)
    && (core != "" ==> !SpaceCode(core[0] as int) && !SpaceCode(core[|core| - 1] as int))
  }

  lemma {:induction false} StripLeftMeaning(s: string) returns (front: string)
    ensures AllSpace(front) && s == front + StripLeft(s)
  {
    if s != "" && IsSpace(s[0]) {
      front := StripLeftMeaning(s[1..]);
      front := [s[0]] + front;
      SpaceMeaning(s[0]);
      assert s == [s[0]] + s[1..];
    } else {
      front := "";
    }
  }

  lemma {:induction false} StripRightMeaning(s: string) returns (back: string)
    ensures AllSpace(back) && s == StripRight(s) + back
  {
    if s != "" && IsSpace(s[|s| - 1]) {
      var n := |s| - 1;
      var before := StripRightMeaning(s[..n]);
      back := before + [s[n]];
      SpaceMeaning(s[n]);
      assert s == s[..n] + [s[n]];
      Regroup(s, s[..n], StripRight(s[..n]), before, [s[n]]);
    } else {
      back := "";
    }
  }

  lemma Regroup<T>(whole: seq<T>, front: seq<T>, a: seq<T>, b: seq<T>, last: seq<T>)
    requires whole == front + last && front == a + b
    ensures whole == a + (b + last)
  {
  }

  lemma StripMeaning(value: string)
    ensures Trimmed(value, Strip(value))
  {
    var front := StripLeftMeaning(value);
    var back := StripRightMeaning(StripLeft(value));
    var core := Strip(value);
    assert value == front + core + back;
    if core != "" {
      assert StripLeft(value)[0] == core[0];
      SpaceMeaning(core[0]);
      SpaceMeaning(core[|core| - 1]);
    }
  }

  /** Cleaning keeps the first characters of the trimmed text, up to the limit. */
  lemma CleanedMeaning(value: string, limit: nat)
    ensures exists core :: Trimmed(value, core) && Cleaned(value, limit) <= core
                           && (|Cleaned(value, limit)| == limit || Cleaned(value, limit) == core) && |Cleaned(value, limit)| <= limit
  {
    StripMeaning(value);
    assert Trimmed(value, Strip(value)) && Cleaned(value, limit) <= Strip(value);
  }

  // ------------------------------------------------------------------ licenses

  /** The text that a license entry gives: its own, or the id of its object, or without one the name. */
  ghost predicate Gives(e: LicenseEntry, text: string)
  {
    || (e.Bare? && text == Cleaned(e.text, 256))
    || (e.Named? && e.id != "" && text == Cleaned(e.id, 256))
    || (e.Named? && e.id == "" && text == Cleaned(e.name, 256))
  }

  ghost predicate FirstGives(entries: seq<LicenseEntry>, i: int, text: string)
  {
    0 <= i < |entries| && Gives(entries[i], text) && forall j :: 0 <= j < i ==> !Gives(entries[j], text)
  }

  /** The licenses are the texts that are given and not empty, each once. */
  lemma {:induction false} LicensesMeaning(entries: seq<LicenseEntry>)
    ensures Distinct(Licenses(entries))
    ensures forall x :: x in Licenses(entries) <==> x != "" && exists e :: e in entries && Gives(e, x)
  {
    LicensesAreDistinct(entries);
    if entries != [] {
      var n := |entries| - 1;
      LicensesMeaning(entries[..n]);
      assert entries == entries[..n] + [entries[n]];
      forall x ensures x in Licenses(entries) <==> x != "" && exists e :: e in entries && Gives(e, x) {
        TextGiven(entries[n], x);
        if x != "" && exists e :: e in entries && Gives(e, x) {
          var e :| e in entries && Gives(e, x);
          assert e in entries[..n] || e == entries[n];
        }
        if x in Licenses(entries) && x !in Licenses(entries[..n]) { assert entries[n] in entries; }
      }
    }
  }

  /** They stand in the order of their first mention. */
  lemma {:induction false} LicensesInOrder(entries: seq<LicenseEntry>, k: nat, l: nat, i: int, j: int)
    requires k < l < |Licenses(entries)|
    requires FirstGives(entries, i, Licenses(entries)[k]) && FirstGives(entries, j, Licenses(entries)[l])
    ensures i < j
  {
    var n := |entries| - 1;
    var before := Licenses(entries[..n]);
    LicensesMeaning(entries[..n]);
    assert before[k] in before;
    FirstInPrefix(entries, n, i, before[k]);
    if l < |before| {
      assert before[l] in before;
      FirstInPrefix(entries, n, j, before[l]);
      LicensesInOrder(entries[..n], k, l, i, j);
    } else {
      LicensesMeaning(entries);
      assert Licenses(entries)[l] in Licenses(entries) && Licenses(entries)[l] !in before;
      NotBefore(entries, n, j, Licenses(entries)[l]);
    }
  }

  lemma TextGiven(e: LicenseEntry, x: string)
    ensures x != "" ==> (Gives(e, x) <==> x == LicenseText(e))
  {
  }

  lemma FirstInPrefix(entries: seq<LicenseEntry>, n: nat, i: int, x: string)
    requires n < |entries| && FirstGives(entries, i, x) && exists e :: e in entries[..n] && Gives(e, x)
    ensures FirstGives(entries[..n], i, x)
  {
    var e :| e in entries[..n] && Gives(e, x);
    var j :| 0 <= j < n && entries[..n][j] == e;
    assert Gives(entries[j], x);
  }

  lemma NotBefore(entries: seq<LicenseEntry>, n: nat, j: int, x: string)
    requires n < |entries| && FirstGives(entries, j, x) && forall e :: e in entries[..n] ==> !Gives(e, x)
    ensures j >= n
  {
    assert forall k :: 0 <= k < n ==> entries[..n][k] in entries[..n] && entries[..n][k] == entries[k];
  }

  // ----------------------------------------------------------------- CycloneDX

  /** A component counts when it has a supported type and a name. */
  ghost predicate Counts(e: CycloneDx.Entry) { e.Component? && e.kind.Some? && Cleaned(e.name, 1024) != "" }

  /** The row a counting component becomes. */
  ghost predicate Describes(item: Item, e: CycloneDx.Entry)
    requires Counts(e)
  {
    && item.name == Cleaned(e.name, 1024) && item.id == (if Cleaned(e.ref, 1024) == "" then Cleaned(e.name, 1024) else Cleaned(e.ref, 1024))
    && item.version == Cleaned(e.version, 1024) && item.kind == e.kind.value
    && item.description == Cleaned(e.description, 4096) && item.purl == Cleaned(e.purl, 2048)
    && item.licenses == Licenses(e.licenses)
    && (item.modelCard <==> e.card != CycloneDx.NoCard || e.cardReference)
    && (forall x :: item.parameters == Some(x) <==>
          e.kind == Some(Model) && e.card == CycloneDx.CardObject(Some(x)) && x.bytes <= 65536)
  }

  /** An import reads documents of three versions, and turns the components that count into rows, in order. */
  lemma ImportMeaning(doc: CycloneDx.Document, counting: CycloneDx.Entry -> bool)
    requires forall e :: counting(e) <==> Counts(e)
    ensures doc.format != "CycloneDX" ==> CycloneDx.Imported(doc) == Err(CycloneDx.NotCycloneDx)
    ensures doc.format == "CycloneDX" ==>
              if Cleaned(doc.specVersion, 16) in ["1.5", "1.6", "1.7"]
              then && CycloneDx.Imported(doc).Ok? && |CycloneDx.Imported(doc).value| == |Filter(doc.components, counting)|
                   && forall i :: 0 <= i < |CycloneDx.Imported(doc).value| ==>
                        && Counts(Filter(doc.components, counting)[i])
                        && Describes(CycloneDx.Imported(doc).value[i], Filter(doc.components, counting)[i])
              else CycloneDx.Imported(doc) == Err(CycloneDx.UnsupportedVersion)
  {
    RowsMeaning(doc.components, counting);
    assert "1.5" in ["1.5", "1.6", "1.7"] && "1.6" in ["1.5", "1.6", "1.7"] && "1.7" in ["1.5", "1.6", "1.7"];
  }

  lemma {:induction false} RowsMeaning(components: seq<CycloneDx.Entry>, counting: CycloneDx.Entry -> bool)
    requires forall e :: counting(e) <==> Counts(e)
    ensures var rows, kept := Present(Map(components, CycloneDx.RowOf)), Filter(components, counting);
            |rows| == |kept| && forall i :: 0 <= i < |rows| ==> Counts(kept[i]) && Describes(rows[i], kept[i])
  {
    if components != [] {
      var n := |components| - 1;
      var e := components[n];
      RowsMeaning(components[..n], counting);
      CycloneDx.RowsNext(components, n);
      assert components[..n + 1] == components;
      FilterNext(components, n, counting);
      RowMeaning(e);
    }
  }

  lemma RowMeaning(e: CycloneDx.Entry)
    ensures CycloneDx.RowOf(e).Some? <==> Counts(e)
    ensures Counts(e) ==> Describes(CycloneDx.RowOf(e).value, e)
  {
  }

  /** An export of version 1.7 writes one component per item, with the id as reference, the licenses by id, and a card,
      with its parameters, on models only. */
  lemma ExportMeaning(items: seq<Item>, i: nat)
    requires i < |items|
    ensures var doc, item := CycloneDx.Exported(items), items[i];
            && doc.format == "CycloneDX" && doc.specVersion == "1.7" && |doc.components| == |items|
            && doc.components[i].Component? && doc.components[i].kind == Some(item.kind) && doc.components[i].ref == item.id
            && doc.components[i].name == item.name && doc.components[i].version == item.version
            && doc.components[i].description == item.description && doc.components[i].purl == item.purl
            && |doc.components[i].licenses| == |item.licenses| && !doc.components[i].cardReference
            && (forall k :: 0 <= k < |item.licenses| ==> doc.components[i].licenses[k] == Named(item.licenses[k], ""))
            && doc.components[i].card == (if item.kind == Model && item.modelCard then CycloneDx.CardObject(item.parameters) else CycloneDx.NoCard)
  {
  }

  // --------------------------------------------------------------------- store

  /** The row is the last imported item of its id, under the document's format and digest. */
  ghost predicate FromImport(row: Row, items: seq<Item>, format: string, sha256: string)
  {
    && row.format == format && row.sha256 == sha256
    && exists k :: 0 <= k < |items| && items[k] == row.item && forall l :: k < l < |items| ==> items[l].id != row.item.id
  }

  ghost predicate LastRow(existing: seq<Row>, x: Row)
  {
    exists k :: 0 <= k < |existing| && existing[k] == x && forall l :: k < l < |existing| ==> existing[l].item.id != x.item.id
  }

  /** The row was there before, as the last one of its id, and nothing of that id has been imported. */
  ghost predicate FromBefore(row: Row, existing: seq<Row>, items: seq<Item>)
  {
    row.item.id != "" && LastRow(existing, row) && forall item :: item in items ==> item.id != row.item.id
  }

  /** After an import the inventory holds, by id, the last imported item of each imported id and the old rows of the others. */
  lemma StoreMeaning(existing: seq<Row>, items: seq<Item>, format: string, sha256: string)
    ensures var rows := Merged(existing, items, format, sha256);
            && (forall i, j :: 0 <= i < j < |rows| ==> StrLe(rows[i].item.id, rows[j].item.id) && rows[i].item.id != rows[j].item.id)
            && forall x :: x in rows <==> FromImport(x, items, format, sha256) || FromBefore(x, existing, items)
  {
    var rows := Merged(existing, items, format, sha256);
    var kept, added := Filter(existing, HasId), Map(items, Tagged(format, sha256));
    ImportUpdatesById(existing, items, format, sha256);
    forall i, j | 0 <= i < j < |rows| ensures StrLe(rows[i].item.id, rows[j].item.id) && rows[i].item.id != rows[j].item.id {
      assert ById()(rows[i], rows[j]) && RowId(rows[i]) != RowId(rows[j]);
    }
    forall x ensures x in rows <==> FromImport(x, items, format, sha256) || FromBefore(x, existing, items) {
      LastWithAppend(kept, added, x.item.id);
      LastOfAdded(items, format, sha256, x);
      LastOfKept(existing, x);
      LastWithMembers(added, x.item.id);
      AddedIds(items, format, sha256, x.item.id);
    }
  }

  lemma AddedIds(items: seq<Item>, format: string, sha256: string, id: string)
    ensures (forall x :: x in Map(items, Tagged(format, sha256)) ==> x.item.id != id) <==> forall item :: item in items ==> item.id != id
  {
    var added := Map(items, Tagged(format, sha256));
    forall item | item in items ensures Row(item, format, sha256) in added {
      var k :| 0 <= k < |items| && items[k] == item;
      assert added[k] == Row(item, format, sha256);
    }
    forall x | x in added ensures x.item in items {
      var k :| 0 <= k < |added| && added[k] == x;
    }
  }

  lemma {:induction false} LastOfAdded(items: seq<Item>, format: string, sha256: string, x: Row)
    ensures LastWith(Map(items, Tagged(format, sha256)), x.item.id) == Some(x) <==> FromImport(x, items, format, sha256)
  {
    if items != [] {
      var n := |items| - 1;
      LastOfAdded(items[..n], format, sha256, x);
      assert Map(items, Tagged(format, sha256))[..n] == Map(items[..n], Tagged(format, sha256));
      if items[n].id == x.item.id {
        assert FromImport(x, items, format, sha256) <==> x == Row(items[n], format, sha256) by {
          if x == Row(items[n], format, sha256) { assert items[n] == x.item; }
        }
      } else {
        FromImportPrefix(items, n, format, sha256, x);
      }
    }
  }

  lemma FromImportPrefix(items: seq<Item>, n: nat, format: string, sha256: string, x: Row)
    requires |items| == n + 1 && items[n].id != x.item.id
    ensures FromImport(x, items, format, sha256) <==> FromImport(x, items[..n], format, sha256)
  {
    if FromImport(x, items[..n], format, sha256) {
      var k :| 0 <= k < n && items[..n][k] == x.item && forall l :: k < l < n ==> items[..n][l].id != x.item.id;
      assert items[k] == x.item && forall l :: k < l < n ==> items[l] == items[..n][l];
    }
    if FromImport(x, items, format, sha256) {
      var k :| 0 <= k < |items| && items[k] == x.item && forall l :: k < l < |items| ==> items[l].id != x.item.id;
      assert items[..n][k] == x.item;
    }
  }

  lemma {:induction false} LastOfKept(existing: seq<Row>, x: Row)
    ensures LastWith(Filter(existing, HasId), x.item.id) == Some(x) <==> x.item.id != "" && LastRow(existing, x)
  {
    if existing != [] {
      var n := |existing| - 1;
      var kept := Filter(existing[..n], HasId);
      LastOfKept(existing[..n], x);
      FilterNext(existing, n, HasId);
      assert existing[..n + 1] == existing;
      LastRowNext(existing, n, x);
      assert HasId(existing[n]) ==> (kept + [existing[n]])[..|kept|] == kept;
      assert kept + [] == kept;
    }
  }

  lemma LastRowNext(existing: seq<Row>, n: nat, x: Row)
    requires |existing| == n + 1
    ensures LastRow(existing, x) <==> if existing[n].item.id == x.item.id then existing[n] == x else LastRow(existing[..n], x)
  {
    if existing[n].item.id != x.item.id {
      if LastRow(existing[..n], x) {
        var k :| 0 <= k < n && existing[..n][k] == x && forall l :: k < l < n ==> existing[..n][l].item.id != x.item.id;
        assert existing[k] == x && forall l :: k < l < n ==> existing[l] == existing[..n][l];
      }
      if LastRow(existing, x) {
        var k :| 0 <= k < |existing| && existing[k] == x && forall l :: k < l < |existing| ==> existing[l].item.id != x.item.id;
        assert existing[..n][k] == x;
      }
    }
  }
}
