/** CycloneDX 1.7 import and export of the inventory (aibom.py; component objects of ECMA-424). */
module CycloneDx {
  import opened Outcomes
  import opened Orders
  import opened AiBomItems

  /** A `modelCard` member: absent or falsy, a truthy value that is no object, or a non-empty object. */
  datatype Card = NoCard | OpaqueCard | CardObject(parameters: Option<Parameters>)

  /** An entry of `components`; empty texts stand for missing or falsy members, no kind for an unsupported type. */
  datatype Entry =
    | NotAnObject
    | Component(kind: Option<Kind>, ref: string, name: string, version: string, description: string, purl: string,
                licenses: seq<LicenseEntry>, card: Card, cardReference: bool)

  datatype Document = Document(format: string, specVersion: string, components: seq<Entry>)

  datatype Error = NotCycloneDx | UnsupportedVersion

  // ------------------------------------------------------------------- import

  function KeptParameters(card: Card): Option<Parameters>
  {
    if card.CardObject? && card.parameters.Some? && card.parameters.value.bytes <= MAX_MODEL_PARAMETERS_BYTES
    then card.parameters else None
  }

  /** The row of one component, or none when it is skipped. */
  function RowOf(e: Entry): Option<Item>
  {
    if e.NotAnObject? || e.kind.None? || Cleaned(e.name, NAME_LIMIT) == "" then None
    else
      var name, ref := Cleaned(e.name, NAME_LIMIT), Cleaned(e.ref, NAME_LIMIT);
      Some(Item(if ref != "" then ref else name, name, Cleaned(e.version, NAME_LIMIT), e.kind.value,
                Cleaned(e.description, TEXT_LIMIT), Cleaned(e.purl, PURL_LIMIT), Licenses(e.licenses),
                !e.card.NoCard? || e.cardReference,
                if e.kind.value == Model then KeptParameters(e.card) else None))
  }

  predicate SupportedVersion(v: string) { v == "1.5" || v == "1.6" || v == "1.7" }

  function Imported(doc: Document): Result<seq<Item>, Error>
  {
    if doc.format != "CycloneDX" then Err(NotCycloneDx)
    else if !SupportedVersion(Cleaned(doc.specVersion, 16)) then Err(UnsupportedVersion)
    else Ok(Present(Map(doc.components, RowOf)))
  }

  /** `_cyclonedx_items` */
  method ImportItems(doc: Document) returns (r: Result<seq<Item>, Error>)
    ensures r == Imported(doc)
  {
    if doc.format != "CycloneDX" {
      return Err(NotCycloneDx);
    }
    if !SupportedVersion(Cleaned(doc.specVersion, 16)) {
      return Err(UnsupportedVersion);
    }
    var rows := ImportRows(doc.components);
    r := Ok(rows);
  }

  method ImportRows(components: seq<Entry>) returns (rows: seq<Item>)
    ensures rows == Present(Map(components, RowOf))
  {
    rows := [];
    for i := 0 to |components|
      invariant rows == Present(Map(components[..i], RowOf))
    {
      RowsNext(components, i);
      var row := ImportRow(components[i]);
      if row.Some? {
        rows := rows + [row.value];
      }
    }
    assert components[..|components|] == components;
  }

  lemma RowsNext(components: seq<Entry>, i: nat)
    requires i < |components|
    ensures Present(Map(components[..i + 1], RowOf))
         == Present(Map(components[..i], RowOf)) + if RowOf(components[i]).Some? then [RowOf(components[i]).value] else []
  {
    assert Map(components[..i + 1], RowOf)[..i] == Map(components[..i], RowOf);
  }

  /** The loop body; None when the component is skipped. */
  method ImportRow(e: Entry) returns (row: Option<Item>)
    ensures row == RowOf(e)
  {
    row := None;
    if e.Component? && e.kind.Some? {
      var name := Cleaned(e.name, NAME_LIMIT);
      if name != "" {
        var ref := Cleaned(e.ref, NAME_LIMIT);
        var licenses := CollectLicenses(e.licenses);
        var parameters := if e.kind.value == Model then KeptParameters(e.card) else None;
        row := Some(Item(if ref != "" then ref else name, name, Cleaned(e.version, NAME_LIMIT), e.kind.value,
                         Cleaned(e.description, TEXT_LIMIT), Cleaned(e.purl, PURL_LIMIT), licenses,
                         !e.card.NoCard? || e.cardReference, parameters));
      }
    }
  }

  // ------------------------------------------------------------------- export

  function ComponentOf(item: Item): Entry
  {
    Component(Some(item.kind), item.id, item.name, item.version, item.description, item.purl,
              Map(item.licenses, Identified),
              if item.modelCard && item.kind == Model then CardObject(item.parameters) else NoCard, false)
  }

  function Exported(items: seq<Item>): Document { Document("CycloneDX", "1.7", Map(items, ComponentOf)) }

  /** `_cyclonedx_export` */
  method ExportItems(items: seq<Item>) returns (doc: Document)
    ensures doc == Exported(items)
  {
    var components: seq<Entry> := [];
    for i := 0 to |items|
      invariant components == Map(items[..i], ComponentOf)
    {
      var item := items[i];
      var card := NoCard;
      if item.modelCard && item.kind == Model {
        card := CardObject(item.parameters);
      }
      components := components + [Component(Some(item.kind), item.id, item.name, item.version, item.description, item.purl,
                                            Map(item.licenses, Identified), card, false)];
    }
    assert items[..|items|] == items;
    doc := Document("CycloneDX", "1.7", components);
  }

  // --------------------------------------------------------------- round trip

  /** A model card needs a model, and parameters need a model card. */
  predicate CardFits(item: Item)
  {
    (item.modelCard ==> item.kind == Model) && (item.parameters.Some? ==> item.modelCard)
  }

  /** What a round trip keeps of a canonical item: a card on anything but a model is dropped, and parameters go with the card. */
  function AfterRoundTrip(item: Item): Item
  {
    var kept := item.modelCard && item.kind == Model;
    item.(modelCard := kept, parameters := if kept then item.parameters else None)
  }

  lemma ComponentRoundTrip(item: Item)
    requires CanonicalItem(item) && Distinct(item.licenses)
    ensures RowOf(ComponentOf(item)) == Some(AfterRoundTrip(item))
  {
    CanonicalIff(item.id, NAME_LIMIT);
    CanonicalIff(item.name, NAME_LIMIT);
    CanonicalIff(item.version, NAME_LIMIT);
    CanonicalIff(item.description, TEXT_LIMIT);
    CanonicalIff(item.purl, PURL_LIMIT);
    LicensesRoundTrip(item.licenses);
  }

  lemma ExportedVersion()
    ensures SupportedVersion(Cleaned("1.7", 16))
  {
    CanonicalIff("1.7", 16);
  }

  /** Export then import gives every canonical item back, in order, as `AfterRoundTrip` describes. */
  lemma ExportThenImport(items: seq<Item>)
    requires CanonicalItems(items)
    ensures Imported(Exported(items)) == Ok(Map(items, AfterRoundTrip))
  {
    ExportedVersion();
    var found := Map(Map(items, ComponentOf), RowOf);
    forall i | 0 <= i < |items| ensures found[i] == Some(AfterRoundTrip(items[i])) {
      assert items[i] in items;
      ComponentRoundTrip(items[i]);
    }
    PresentAll(found, Map(items, AfterRoundTrip));
  }

  /** The items come back unchanged exactly when every model card sits on a model and carries the parameters. */
  lemma RoundTripIff(items: seq<Item>)
    requires CanonicalItems(items)
    ensures Imported(Exported(items)) == Ok(items) <==> forall item :: item in items ==> CardFits(item)
  {
    ExportThenImport(items);
    UnchangedIff(items);
  }

  lemma UnchangedIff(items: seq<Item>)
    requires CanonicalItems(items)
    ensures Map(items, AfterRoundTrip) == items <==> forall item :: item in items ==> CardFits(item)
  {
    if Map(items, AfterRoundTrip) == items {
      forall item | item in items ensures CardFits(item) {
        var i :| 0 <= i < |items| && items[i] == item;
        assert Map(items, AfterRoundTrip)[i] == item;
      }
    }
    if forall item :: item in items ==> CardFits(item) {
      forall i | 0 <= i < |items| ensures Map(items, AfterRoundTrip)[i] == items[i] {
        assert items[i] in items;
      }
    }
  }

  /** A dataset with a model card comes back without it. */
  lemma CardOnDatasetExample()
    ensures var item := Item("d", "corpus", "", Data, "", "", [], true, None);
            CanonicalItems([item]) && Imported(Exported([item])) == Ok([item.(modelCard := false)])
  {
    var item := Item("d", "corpus", "", Data, "", "", [], true, None);
    assert !IsSpace("d"[0]) && !IsSpace("corpus"[0]) && !IsSpace("corpus"[5]);
    ExportThenImport([item]);
    assert Map([item], AfterRoundTrip) == [item.(modelCard := false)];
  }

  /** An imported row whose cuts left no trailing space is canonical, and keeps parameters only with a card. */
  lemma ImportedRowIsCanonical(e: Entry)
    requires RowOf(e).Some?
    ensures var row := RowOf(e).value;
            && Distinct(row.licenses) && (row.parameters.Some? ==> row.modelCard)
            && (CanonicalItem(row) <==>
                  !EndsInSpace(row.id) && !EndsInSpace(row.name) && !EndsInSpace(row.version)
                  && !EndsInSpace(row.description) && !EndsInSpace(row.purl) && forall x :: x in row.licenses ==> !EndsInSpace(x))
  {
    CleanedIsCanonicalIff(e.name, NAME_LIMIT);
    CleanedIsCanonicalIff(e.ref, NAME_LIMIT);
    CleanedIsCanonicalIff(e.version, NAME_LIMIT);
    CleanedIsCanonicalIff(e.description, TEXT_LIMIT);
    CleanedIsCanonicalIff(e.purl, PURL_LIMIT);
    LicensesAreDistinct(e.licenses);
    LicensesCanonicalIff(e.licenses);
  }

  lemma CleanedIsCanonicalIff(value: string, limit: nat)
    ensures Canonical(Cleaned(value, limit), limit) <==> !EndsInSpace(Cleaned(value, limit))
  {
    StartsClean(value, limit);
  }

  lemma LicensesCanonicalIff(entries: seq<LicenseEntry>)
    ensures CanonicalLicenses(Licenses(entries)) <==> forall x :: x in Licenses(entries) ==> !EndsInSpace(x)
  {
    LicensesStartClean(entries);
  }

  lemma {:induction false} LicensesStartClean(entries: seq<LicenseEntry>)
    ensures forall x :: x in Licenses(entries) ==> |x| <= LICENSE_LIMIT && x != "" && !IsSpace(x[0])
  {
    if entries != [] {
      var e := entries[|entries| - 1];
      LicensesStartClean(entries[..|entries| - 1]);
      match e {
        case Bare(text) => StartsClean(text, LICENSE_LIMIT);
        case Named(id, name) => StartsClean(if id != "" then id else name, LICENSE_LIMIT);
        case Unusable =>
      }
    }
  }
}
