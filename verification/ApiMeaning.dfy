/** What a request selects, how it is ordered and which window it gets, member by member (api_v1.py). */
module ApiMeaning {
  import opened Outcomes
  import opened Orders
  import opened Text
  import opened Cursors
  import opened ApiCollections
  import opened ApiPages

  // ---------------------------------------------------------------- selection

  /** The value shows one of the expected texts: an item of a list, or what any other value but null prints as. */
  ghost predicate ShowsOneOf(v: Value, expected: seq<string>)
  {
    || (v.List? && exists k :: 0 <= k < |v.items| && v.items[k] in expected)
    || (v.Number? && v.shown in expected)
    || (v.Other? && v.shown in expected)
  }

  /** Every filter finds one of its texts in the row. */
  ghost predicate Meets(row: Row, filters: seq<FieldFilter>)
  {
    forall f :: f in filters ==> f.field in row && ShowsOneOf(row[f.field], f.expected)
  }

  lemma RowMatchesMeaning(row: Row, filters: seq<FieldFilter>)
    ensures RowMatches(row, filters) <==> Meets(row, filters)
  {
    forall f | f in filters ensures FieldMatches(row, f) <==> f.field in row && ShowsOneOf(row[f.field], f.expected) {
      FieldMatchesMeaning(row, f);
    }
  }

  lemma FieldMatchesMeaning(row: Row, f: FieldFilter)
    ensures FieldMatches(row, f) <==> f.field in row && ShowsOneOf(row[f.field], f.expected)
  {
    if f.field in row && row[f.field].List? {
      var items := row[f.field].items;
      if e :| e in f.expected && e in items {
        var k :| 0 <= k < |items| && items[k] == e;
      }
    }
  }

  /** A filter field that no row of a nonempty list has is an error; otherwise exactly the rows that meet every filter stay, in order. */
  lemma FilterMeaning(rows: seq<Row>, filters: seq<FieldFilter>, keep: Row -> bool)
    requires forall row :: keep(row) <==> Meets(row, filters)
    ensures FilterCollection(rows, filters)
         == if rows != [] && exists f :: f in filters && forall row :: row in rows ==> f.field !in row
            then Err(UnknownFilter) else Ok(Filter(rows, keep))
  {
    forall row ensures Matching(filters)(row) <==> keep(row) {
      RowMatchesMeaning(row, filters);
    }
    FilterSame(rows, Matching(filters), keep);
    if filters == [] { FilterAll(rows, keep); }
  }

  // ------------------------------------------------------------------ sorting

  /** Numbers by value and before all other values, which go by the text they print as. */
  ghost predicate ValueLe(a: Value, b: Value)
  {
    || (a.Number? && b.Number? && a.n <= b.n)
    || (a.Number? && !b.Number?)
    || (a.Other? && b.Other? && StrLe(a.shown, b.shown))
    || (a.Other? && b.List? && StrLe(a.shown, b.shown))
    || (a.List? && b.Other? && StrLe(a.shown, b.shown))
    || (a.List? && b.List? && StrLe(a.shown, b.shown))
  }

  ghost predicate HasValue(row: Row, field: string) { field in row && row[field] != Null }

  lemma RowOrderMeaning(a: Row, b: Row, field: string)
    requires HasValue(a, field) && HasValue(b, field)
    ensures RowOrder(field, false)(a, b) <==> ValueLe(a[field], b[field])
    ensures RowOrder(field, true)(a, b) <==> ValueLe(b[field], a[field])
  {
  }

  /** The rows with a value come first, in the order of their values or its reverse; those without one follow as they came. */
  ghost predicate Arranged(sorted: seq<Row>, rows: seq<Row>, field: string, descending: bool)
  {
    && multiset(sorted) == multiset(rows)
    && (forall i, j :: 0 <= i < j < |sorted| && HasValue(sorted[j], field) ==>
          && HasValue(sorted[i], field)
          && (if descending then ValueLe(sorted[j][field], sorted[i][field]) else ValueLe(sorted[i][field], sorted[j][field])))
  }

  lemma SortRowsArranged(rows: seq<Row>, field: string, descending: bool)
    ensures Arranged(SortRows(rows, field, descending), rows, field, descending)
  {
    var sorted, n := SortRows(rows, field, descending), |Filter(rows, Has(field))|;
    SortPlacesRows(rows, field, descending);
    TailHasNoValue(rows, field, descending);
    forall i, j | 0 <= i < j < |sorted| && HasValue(sorted[j], field)
      ensures HasValue(sorted[i], field)
      ensures if descending then ValueLe(sorted[j][field], sorted[i][field]) else ValueLe(sorted[i][field], sorted[j][field])
    {
      assert sorted[..n][i] == sorted[i] && sorted[..n][j] == sorted[j];
      assert RowOrder(field, descending)(sorted[..n][i], sorted[..n][j]);
      RowOrderMeaning(sorted[i], sorted[j], field);
      RowOrderMeaning(sorted[j], sorted[i], field);
    }
  }

  lemma TailHasNoValue(rows: seq<Row>, field: string, descending: bool)
    ensures var sorted := SortRows(rows, field, descending);
            forall j :: |Filter(rows, Has(field))| <= j < |sorted| ==> !HasValue(sorted[j], field)
  {
    var sorted, n := SortRows(rows, field, descending), |Filter(rows, Has(field))|;
    SortPlacesRows(rows, field, descending);
    forall j | n <= j < |sorted| ensures !HasValue(sorted[j], field) {
      assert sorted[n..][j - n] == sorted[j];
      assert sorted[j] in Filter(rows, Lacks(field));
    }
  }

  /** "-" in front of a field name reverses the order; without a name there is an error, without a parameter no sorting. */
  lemma SortMeaning(rows: seq<Row>, sort: string)
    ensures sort == "" ==> SortCollection(rows, sort) == Ok(rows)
    ensures sort == "-" ==> SortCollection(rows, sort) == Err(SortNamesNoField)
    ensures sort != "" && sort[0] != '-' ==>
              SortCollection(rows, sort).Ok? && Arranged(SortCollection(rows, sort).value, rows, sort, false)
    ensures |sort| > 1 && sort[0] == '-' ==>
              SortCollection(rows, sort).Ok? && Arranged(SortCollection(rows, sort).value, rows, sort[1..], true)
  {
    if sort != "" && sort[0] != '-' { SortRowsArranged(rows, sort, false); }
    if |sort| > 1 && sort[0] == '-' { SortRowsArranged(rows, sort[1..], true); }
  }

  /** Rows whose values print alike, and rows without a value, stay in list order. */
  lemma SortIsStable(rows: seq<Row>, field: string, descending: bool, v: Value, alike: Row -> bool, without: Row -> bool)
    requires v != Null
    requires forall row :: alike(row) <==> HasValue(row, field) && ValueLe(row[field], v) && ValueLe(v, row[field])
    requires forall row :: without(row) <==> !HasValue(row, field)
    ensures Filter(SortRows(rows, field, descending), alike) == Filter(rows, alike)
    ensures Filter(SortRows(rows, field, descending), without) == Filter(rows, without)
  {
    var key := if v.Number? then Numeric(v.n) else Textual(v.shown);
    forall row ensures alike(row) <==> WithKey(field, key)(row) {
      AlikeMeansSameKey(row, field, v, key);
    }
    TiesKeepListOrder(rows, field, descending, key);
    FilterSame(rows, alike, WithKey(field, key));
    FilterSame(SortRows(rows, field, descending), alike, WithKey(field, key));
    MissingStay(rows, field, descending, without);
  }

  lemma AlikeMeansSameKey(row: Row, field: string, v: Value, key: Key)
    requires v != Null && key == if v.Number? then Numeric(v.n) else Textual(v.shown)
    ensures HasValue(row, field) && ValueLe(row[field], v) && ValueLe(v, row[field]) <==> WithKey(field, key)(row)
  {
    if HasValue(row, field) && !row[field].Number? && !v.Number? {
      StrLeTotal(v.shown, v.shown);
      if StrLe(row[field].shown, v.shown) && StrLe(v.shown, row[field].shown) {
        StrLeAntisymmetric(row[field].shown, v.shown);
      }
    }
  }

  lemma MissingStay(rows: seq<Row>, field: string, descending: bool, without: Row -> bool)
    requires forall row :: without(row) <==> !HasValue(row, field)
    ensures Filter(SortRows(rows, field, descending), without) == Filter(rows, without)
  {
    var present := SortBy(Filter(rows, Has(field)), RowOrder(field, descending));
    MultisetMembers(present, Filter(rows, Has(field)));
    FilterAppend(present, Filter(rows, Lacks(field)), without);
    FilterNone(present, without);
    FilterSame(rows, without, Lacks(field));
    FilterAll(Filter(rows, Lacks(field)), without);
  }

  // ------------------------------------------------------------------- windows

  /** The page is the window of the list from `offset` on, of at most `limit` rows. */
  ghost predicate Window<T>(page: seq<T>, all: seq<T>, offset: int, limit: int)
  {
    && (|page| == limit || offset + |page| == |all| || (page == [] && offset >= |all|)) && |page| <= limit
    && (page != [] ==> 0 <= offset && offset + |page| <= |all|)
    && forall k :: 0 <= k < |page| ==> page[k] == all[offset + k]
  }

  /** There is a cursor, to the row behind the window, exactly when rows are left behind it. */
  ghost predicate LeadsOn(next: Option<string>, offset: int, limit: int, count: int)
    requires offset >= 0 && limit >= 0
  {
    next == if count > offset + limit then Some(EncodeCursor(offset + limit)) else None
  }

  lemma SliceMeaning<T>(s: seq<T>, offset: nat, limit: nat)
    ensures Window(Slice(s, offset, limit), s, offset, limit)
  {
  }

  /** An accepted request is answered with the window it names of the rows it selects, their number, the request's own
      sort and filters, and a cursor when rows are left. */
  lemma PageMeaning(rows: seq<Row>, p: Params, loads: string -> Option<Json>)
    ensures CollectionResponse(rows, p, loads).Ok? <==> Selected(rows, p).Ok? && Bounds(p, loads).Ok?
    ensures CollectionResponse(rows, p, loads).Ok? ==>
              var page, all := CollectionResponse(rows, p, loads).value, Selected(rows, p).value;
              && Window(page.data, all, page.offset, page.limit) && page.count == |all| && page.returned == |page.data|
              && NamesLimit(p, page.limit) && NamesStart(p, page.offset, loads)
              && (if p.sort == "" then page.sort == None else page.sort == Some(p.sort)) && page.filters == p.filters
              && LeadsOn(page.next, page.offset, page.limit, page.count)
  {
    if CollectionResponse(rows, p, loads).Ok? {
      var page := CollectionResponse(rows, p, loads).value;
      SelectedSize(rows, p);
      SliceMeaning(Selected(rows, p).value, page.offset, page.limit);
      BoundsIff(p, loads, page.limit, page.offset);
    }
  }

  /** Which error a refused request is told: filters first, then the sort, the limit, and the start. */
  lemma ErrorMeaning(rows: seq<Row>, p: Params, loads: string -> Option<Json>)
    ensures FilterCollection(rows, p.filters).Err? ==> CollectionResponse(rows, p, loads) == Err(UnknownFilter)
    ensures FilterCollection(rows, p.filters).Ok? && p.sort == "-" ==> CollectionResponse(rows, p, loads) == Err(SortNamesNoField)
    ensures FilterCollection(rows, p.filters).Ok? && p.sort != "-" ==>
              && (p.limit == Malformed ==> CollectionResponse(rows, p, loads) == Err(NotAnInteger))
              && (p.limit.Given? && (p.limit.n <= 0 || p.limit.n >= 1001) ==> CollectionResponse(rows, p, loads) == Err(LimitOutOfRange))
              && (p.limit == Absent || (p.limit.Given? && 0 < p.limit.n < 1001) ==>
                    && (p.cursor != "" && DecodeCursor(p.cursor, loads).None? ==> CollectionResponse(rows, p, loads) == Err(InvalidCursor))
                    && (p.cursor == "" && p.offset == Malformed ==> CollectionResponse(rows, p, loads) == Err(NotAnInteger))
                    && (p.cursor == "" && p.offset.Given? && p.offset.n <= -1 ==> CollectionResponse(rows, p, loads) == Err(NegativeOffset)))
  {
    if FilterCollection(rows, p.filters).Ok? { SortMeaning(FilterCollection(rows, p.filters).value, p.sort); }
  }

  // -------------------------------------------------------------- object pages

  /** The rows that all the windows of the parts hold together. */
  ghost function TotalShown<T>(page: map<Path, Member<T>>, parts: seq<Path>): nat
    requires Pageable(page, parts)
  {
    if parts == [] then 0 else |page[parts[0]].rows| + TotalShown(page, parts[1..])
  }

  /** Every part is cut to the same window, the other members stay, and the counts are those of the lists and the windows. */
  lemma ObjectPageMeaning<T>(data: map<Path, Member<T>>, parts: seq<Path>, p: Params, loads: string -> Option<Json>)
    requires Pageable(data, parts) && ObjectResponse(data, parts, p, loads).Ok?
    ensures var answer := ObjectResponse(data, parts, p, loads).value;
            && NamesLimit(p, answer.page.limit) && NamesStart(p, answer.page.offset, loads)
            && answer.page.data.Keys == data.Keys && Pageable(answer.page.data, parts)
            && answer.page.returned == TotalShown(answer.page.data, parts)
            && answer.page.sort == None && answer.page.filters == []
            && LeadsOn(answer.page.next, answer.page.offset, answer.page.limit, answer.page.count)
    ensures var answer := ObjectResponse(data, parts, p, loads).value;
            && (forall part :: part in answer.parts <==> part in parts)
            && (forall part :: part in parts ==>
                  && Window(answer.page.data[part].rows, data[part].rows, answer.page.offset, answer.page.limit)
                  && answer.parts[part] == PartMeta(|data[part].rows|, |answer.page.data[part].rows|)
                  && |data[part].rows| <= answer.page.count)
            && (answer.page.count > 0 ==> exists part :: part in parts && |data[part].rows| == answer.page.count)
            && (forall path :: path in data && path !in parts ==> answer.page.data[path] == data[path])
  {
    var page := ObjectResponse(data, parts, p, loads).value.page;
    BoundsIff(p, loads, page.limit, page.offset);
    ReturnedIsTotal(data, parts, page.limit, page.offset, page.data);
    forall part | part in parts ensures Window(page.data[part].rows, data[part].rows, page.offset, page.limit) {
      SliceMeaning(data[part].rows, page.offset, page.limit);
    }
  }

  lemma {:induction false} TotalAppended<T>(page: map<Path, Member<T>>, parts: seq<Path>, last: Path)
    requires Pageable(page, parts + [last])
    ensures Pageable(page, parts) && last in page && page[last].Items?
    ensures TotalShown(page, parts + [last]) == TotalShown(page, parts) + |page[last].rows|
  {
    assert last in parts + [last];
    assert forall part :: part in parts ==> part in parts + [last];
    if parts == [] {
      assert parts + [last] == [last];
      assert [last][1..] == [];
    } else {
      assert (parts + [last])[1..] == parts[1..] + [last];
      TotalAppended(page, parts[1..], last);
    }
  }

  lemma {:induction false} ReturnedIsTotal<T>(data: map<Path, Member<T>>, parts: seq<Path>, limit: nat, offset: nat,
                                              page: map<Path, Member<T>>)
    requires Pageable(data, parts) && Pageable(page, parts)
    requires forall part :: part in parts ==> page[part].rows == Slice(data[part].rows, offset, limit)
    ensures Returned(data, parts, limit, offset) == TotalShown(page, parts)
  {
    if parts != [] {
      var k := |parts| - 1;
      assert parts == parts[..k] + [parts[k]];
      ReturnedIsTotal(data, parts[..k], limit, offset, page);
      TotalAppended(page, parts[..k], parts[k]);
    }
  }
}
