/** The v1 collection pipeline: filter, sort, window, envelope (api_v1.py). */
module ApiCollections {
  import opened Outcomes
  import opened Orders
  import opened Text
  import opened Cursors

  /** A JSON value together with its `str(...)`; a number also carries its `float(...)`. */
  datatype Value =
    | Null
    | Number(n: real, shown: string)
    | Other(shown: string)
    | List(items: seq<string>, shown: string)

  type Row = map<string, Value>

  datatype Parameter = Absent | Malformed | Given(n: int)

  /** Query parameters; an empty `sort` or `cursor` counts as absent. */
  datatype Params = Params(filters: seq<FieldFilter>, sort: string, limit: Parameter, offset: Parameter, cursor: string)

  datatype FieldFilter = FieldFilter(field: string, expected: seq<string>)

  datatype Error =
    | UnknownFilter | SortNamesNoField | NotAnInteger | LimitOutOfRange | NegativeOffset | InvalidCursor

  // ---------------------------------------------------------------- filtering

  predicate Present(row: Row, field: string) { field in row && row[field] != Null }

  predicate FieldMatches(row: Row, f: FieldFilter)
  {
    Present(row, f.field) &&
    match row[f.field]
    case List(items, _) => exists e :: e in f.expected && e in items
    case Number(_, shown) => shown in f.expected
    case Other(shown) => shown in f.expected
    case Null => false
  }

  predicate RowMatches(row: Row, filters: seq<FieldFilter>)
  {
    forall f :: f in filters ==> FieldMatches(row, f)
  }

  function Matching(filters: seq<FieldFilter>): Row -> bool { row => RowMatches(row, filters) }

  /** Some row of the whole list, filtered out or not, has the field. */
  predicate FieldKnown(rows: seq<Row>, field: string) { exists row :: row in rows && field in row }

  predicate FieldsKnown(rows: seq<Row>, filters: seq<FieldFilter>)
  {
    forall f :: f in filters ==> FieldKnown(rows, f.field)
  }

  function FilterCollection(rows: seq<Row>, filters: seq<FieldFilter>): Result<seq<Row>, Error>
  {
    if filters == [] then Ok(rows)
    else if rows != [] && !FieldsKnown(rows, filters) then Err(UnknownFilter)
    else Ok(Filter(rows, Matching(filters)))
  }

  // ------------------------------------------------------------------ sorting

  /** Numbers before texts, as the tuples `(0, float)` and `(1, str)` compare. */
  datatype Key = Numeric(n: real) | Textual(s: string)

  predicate KeyLe(a: Key, b: Key)
  {
    match (a, b)
    case (Numeric(m), Numeric(n)) => m <= n
    case (Numeric(_), Textual(_)) => true
    case (Textual(_), Numeric(_)) => false
    case (Textual(s), Textual(t)) => StrLe(s, t)
  }

  function SortKey(row: Row, field: string): Key
  {
    if !Present(row, field) then Textual("")
    else match row[field]
      case Null => Textual("")
      case Number(n, _) => Numeric(n)
      case Other(shown) => Textual(shown)
      case List(_, shown) => Textual(shown)
  }

  function RowOrder(field: string, reverse: bool): (Row, Row) -> bool
  {
    (a, b) => if reverse then KeyLe(SortKey(b, field), SortKey(a, field)) else KeyLe(SortKey(a, field), SortKey(b, field))
  }

  function Has(field: string): Row -> bool { row => Present(row, field) }
  function Lacks(field: string): Row -> bool { row => !Present(row, field) }

  function SortRows(rows: seq<Row>, field: string, reverse: bool): seq<Row>
  {
    SortBy(Filter(rows, Has(field)), RowOrder(field, reverse)) + Filter(rows, Lacks(field))
  }

  predicate Descending(sort: string) { sort != "" && sort[0] == '-' }

  function SortField(sort: string): string { if Descending(sort) then sort[1..] else sort }

  function SortCollection(rows: seq<Row>, sort: string): Result<seq<Row>, Error>
  {
    if sort == "" then Ok(rows)
    else if SortField(sort) == "" then Err(SortNamesNoField)
    else Ok(SortRows(rows, SortField(sort), Descending(sort)))
  }

  // ---------------------------------------------------------------- windowing

  function Least(a: nat, b: nat): nat { if a <= b then a else b }

  /** `s[offset : offset + limit]` */
  function Slice<T>(s: seq<T>, offset: nat, limit: nat): seq<T>
  {
    s[Least(offset, |s|)..Least(offset + limit, |s|)]
  }

  /** `paginate_collection`: the limit and the start, the cursor taking precedence over a raw offset. */
  function Bounds(p: Params, loads: string -> Option<Json>): (r: Result<(nat, nat), Error>)
    ensures r.Ok? ==> 1 <= r.value.0 <= 1000
  {
    if p.limit.Malformed? then Err(NotAnInteger)
    else
      var limit := if p.limit.Absent? then 100 else p.limit.n;
      if limit < 1 || limit > 1000 then Err(LimitOutOfRange)
      else if p.cursor != "" then
        var start := DecodeCursor(p.cursor, loads);
        if start.None? then Err(InvalidCursor) else Ok((limit, start.value))
      else if p.offset.Malformed? then Err(NotAnInteger)
      else
        var offset := if p.offset.Absent? then 0 else p.offset.n;
        if offset < 0 then Err(NegativeOffset) else Ok((limit, offset))
  }

  /** The limit a request names, 100 when it names none. */
  predicate NamesLimit(p: Params, limit: int) { p.limit == Given(limit) || (p.limit.Absent? && limit == 100) }

  /** The start a request names: its cursor's if it has one, else its raw offset, else 0. */
  predicate NamesStart(p: Params, start: int, loads: string -> Option<Json>)
  {
    if p.cursor != "" then start >= 0 && DecodeCursor(p.cursor, loads) == Some(start)
    else p.offset == Given(start) || (p.offset.Absent? && start == 0)
  }

  /** A window is accepted exactly when the request names a limit from 1 to 1000 and a start that is not negative. */
  lemma BoundsIff(p: Params, loads: string -> Option<Json>, limit: nat, offset: nat)
    ensures Bounds(p, loads) == Ok((limit, offset))
       <==> NamesLimit(p, limit) && 1 <= limit <= 1000 && NamesStart(p, offset, loads)
  {
  }

  // ----------------------------------------------------------------- envelope

  datatype Page<T> = Page(data: T, count: nat, returned: nat, limit: nat, offset: nat, sort: Option<string>,
                          filters: seq<FieldFilter>, next: Option<string>)

  function NextCursor(offset: nat, limit: nat, count: nat): Option<string>
  {
    if offset + limit < count then Some(EncodeCursor(offset + limit)) else None
  }

  function Envelope<T>(data: T, returned: nat, count: nat, limit: nat, offset: nat, sort: Option<string>,
                       filters: seq<FieldFilter>): Page<T>
  {
    Page(data, count, returned, limit, offset, sort, filters, NextCursor(offset, limit, count))
  }

  function RowsPage(rows: seq<Row>, count: nat, limit: nat, offset: nat, sort: string, filters: seq<FieldFilter>): Page<seq<Row>>
  {
    Envelope(rows, |rows|, count, limit, offset, if sort == "" then None else Some(sort), filters)
  }

  /** The rows the parameters select, in the order they ask for. */
  function Selected(rows: seq<Row>, p: Params): Result<seq<Row>, Error>
  {
    var filtered := FilterCollection(rows, p.filters);
    if filtered.Err? then filtered else SortCollection(filtered.value, p.sort)
  }

  function CollectionResponse(rows: seq<Row>, p: Params, loads: string -> Option<Json>): Result<Page<seq<Row>>, Error>
  {
    var filtered := FilterCollection(rows, p.filters);
    if filtered.Err? then Err(filtered.error)
    else
      var sorted := SortCollection(filtered.value, p.sort);
      if sorted.Err? then Err(sorted.error)
      else
        var bounds := Bounds(p, loads);
        if bounds.Err? then Err(bounds.error)
        else
          var (limit, offset) := bounds.value;
          Ok(RowsPage(Slice(sorted.value, offset, limit), |filtered.value|, limit, offset, p.sort, p.filters))
  }

  // --------------------------------------------------- what sorting guarantees

  lemma KeyTransitive(a: Key, b: Key, c: Key)
    requires KeyLe(a, b) && KeyLe(b, c)
    ensures KeyLe(a, c)
  {
    if a.Textual? {
      StrLeTransitive(a.s, b.s, c.s);
    }
  }

  lemma KeyTotal(a: Key, b: Key)
    ensures KeyLe(a, b) || KeyLe(b, a)
  {
    if a.Textual? && b.Textual? {
      StrLeTotal(a.s, b.s);
    }
  }

  lemma KeyLeReflexive(a: Key)
    ensures KeyLe(a, a)
  {
    KeyTotal(a, a);
  }

  lemma RowOrderIsTotal(field: string, reverse: bool)
    ensures TotalPreorder(RowOrder(field, reverse))
  {
    var le := RowOrder(field, reverse);
    forall a, b ensures le(a, b) || le(b, a) {
      KeyTotal(SortKey(a, field), SortKey(b, field));
    }
    forall a, b, c | le(a, b) && le(b, c) ensures le(a, c) {
      var x, y, z := SortKey(a, field), SortKey(b, field), SortKey(c, field);
      if reverse { KeyTransitive(z, y, x); } else { KeyTransitive(x, y, z); }
    }
  }

  function WithKey(field: string, key: Key): Row -> bool
  {
    row => Present(row, field) && SortKey(row, field) == key
  }

  ghost predicate KeyOrderUpTo(sorted: seq<Row>, n: nat, field: string, reverse: bool)
    requires n <= |sorted|
  {
    && Sorted(sorted[..n], RowOrder(field, reverse))
    && forall i :: 0 <= i < n ==> Present(sorted[i], field)
  }

  /** Rows come back in key order, in either direction, with the rows that lack the field behind them in list order. */
  lemma SortPlacesRows(rows: seq<Row>, field: string, reverse: bool)
    ensures multiset(SortRows(rows, field, reverse)) == multiset(rows)
    ensures |Filter(rows, Has(field))| <= |SortRows(rows, field, reverse)| == |rows|
    ensures KeyOrderUpTo(SortRows(rows, field, reverse), |Filter(rows, Has(field))|, field, reverse)
    ensures SortRows(rows, field, reverse)[|Filter(rows, Has(field))|..] == Filter(rows, Lacks(field))
  {
    FilterPartition(rows, Has(field), Lacks(field));
    PresentRowsSorted(Filter(rows, Has(field)), Filter(rows, Lacks(field)), field, reverse);
  }

  lemma PresentRowsSorted(kept: seq<Row>, missing: seq<Row>, field: string, reverse: bool)
    requires forall row :: row in kept ==> Present(row, field)
    ensures KeyOrderUpTo(SortBy(kept, RowOrder(field, reverse)) + missing, |kept|, field, reverse)
  {
    var sorted := SortBy(kept, RowOrder(field, reverse));
    RowOrderIsTotal(field, reverse);
    SortIsSorted(kept, RowOrder(field, reverse));
    MultisetMembers(sorted, kept);
    SortedFront(sorted, missing, field, reverse);
  }

  lemma SortedFront(sorted: seq<Row>, missing: seq<Row>, field: string, reverse: bool)
    requires Sorted(sorted, RowOrder(field, reverse)) && forall row :: row in sorted ==> Present(row, field)
    ensures KeyOrderUpTo(sorted + missing, |sorted|, field, reverse)
  {
    assert (sorted + missing)[..|sorted|] == sorted;
    forall i | 0 <= i < |sorted| ensures Present((sorted + missing)[i], field) {
      assert sorted[i] in sorted;
    }
  }

  /** Rows with equal keys keep their list order, in a reversed sort too. */
  lemma TiesKeepListOrder(rows: seq<Row>, field: string, reverse: bool, key: Key)
    ensures Filter(SortRows(rows, field, reverse), WithKey(field, key)) == Filter(rows, WithKey(field, key))
  {
    var le, same := RowOrder(field, reverse), WithKey(field, key);
    var kept, missing := Filter(rows, Has(field)), Filter(rows, Lacks(field));
    RowOrderIsTotal(field, reverse);
    FilterAppend(SortBy(kept, le), missing, same);
    FilterNone(missing, same);
    FilterSort(kept, le, same);
    FilterFilter(rows, Has(field), same);
    TiesStay(Filter(rows, same), field, reverse, key);
  }

  lemma TiesStay(tied: seq<Row>, field: string, reverse: bool, key: Key)
    requires forall row :: row in tied ==> SortKey(row, field) == key
    ensures SortBy(tied, RowOrder(field, reverse)) == tied
  {
    RowOrderIsTotal(field, reverse);
    KeyLeReflexive(key);
    forall i, j | 0 <= i <= j < |tied| ensures RowOrder(field, reverse)(tied[i], tied[j]) {
      assert tied[i] in tied && tied[j] in tied;
    }
    SortOfSorted(tied, RowOrder(field, reverse));
  }

  // ----------------------------------------------------------------- the walk

  function Resume(p: Params, cursor: string): Params { p.(cursor := cursor) }

  lemma {:induction false} CursorIsNotEmpty(offset: nat)
    ensures EncodeCursor(offset) != ""
  {
    DumpsIsAscii(offset);
    var bytes := Bytes(Dumps(offset));
    assert |bytes| > 2;
  }

  lemma BoundsAfterCursor(p: Params, loads: string -> Option<Json>)
    requires ReadsDumps(loads) && Bounds(p, loads).Ok?
    ensures forall n: nat :: Bounds(Resume(p, EncodeCursor(n)), loads) == Ok((Bounds(p, loads).value.0, n))
  {
    forall n: nat ensures Bounds(Resume(p, EncodeCursor(n)), loads) == Ok((Bounds(p, loads).value.0, n)) {
      CursorIsNotEmpty(n);
      CursorRoundTrip(n, loads);
    }
  }

  function Remaining(count: nat, offset: nat): nat { if offset < count then count - offset else 0 }

  /** A client that follows `next_cursor` until it is absent and concatenates the pages. */
  ghost function Follow(rows: seq<Row>, p: Params, loads: string -> Option<Json>): seq<Row>
    requires ReadsDumps(loads) && CollectionResponse(rows, p, loads).Ok?
    decreases Remaining(CollectionResponse(rows, p, loads).value.count, CollectionResponse(rows, p, loads).value.offset)
  {
    var page := CollectionResponse(rows, p, loads).value;
    if page.next.None? then page.data
    else
      BoundsAfterCursor(p, loads);
      page.data + Follow(rows, Resume(p, page.next.value), loads)
  }

  lemma SliceStep<T>(s: seq<T>, offset: nat, limit: nat)
    ensures Slice(s, offset, limit) + s[Least(offset + limit, |s|)..] == s[Least(offset, |s|)..]
  {
  }

  lemma SelectedSize(rows: seq<Row>, p: Params)
    requires FilterCollection(rows, p.filters).Ok? && Selected(rows, p).Ok?
    ensures |Selected(rows, p).value| == |FilterCollection(rows, p.filters).value|
  {
    var filtered := FilterCollection(rows, p.filters).value;
    if p.sort != "" {
      SortPlacesRows(filtered, SortField(p.sort), Descending(p.sort));
    }
  }

  /** Following the cursors ends, and yields exactly the selected rows from the first page's start on. */
  lemma {:induction false} WalkRebuildsSelection(rows: seq<Row>, p: Params, loads: string -> Option<Json>)
    requires ReadsDumps(loads) && CollectionResponse(rows, p, loads).Ok?
    ensures var page := CollectionResponse(rows, p, loads).value;
            Selected(rows, p).Ok? && Follow(rows, p, loads) == Selected(rows, p).value[Least(page.offset, |Selected(rows, p).value|)..]
    decreases Remaining(CollectionResponse(rows, p, loads).value.count, CollectionResponse(rows, p, loads).value.offset)
  {
    var page := CollectionResponse(rows, p, loads).value;
    var all := Selected(rows, p).value;
    SelectedSize(rows, p);
    SliceStep(all, page.offset, page.limit);
    if page.next.Some? {
      BoundsAfterCursor(p, loads);
      WalkRebuildsSelection(rows, Resume(p, page.next.value), loads);
    }
  }

  /** A walk that starts without an offset or a cursor returns every selected row once, in order. */
  lemma FullWalk(rows: seq<Row>, p: Params, loads: string -> Option<Json>)
    requires ReadsDumps(loads) && CollectionResponse(rows, p, loads).Ok?
    requires p.cursor == "" && p.offset.Absent?
    ensures Selected(rows, p) == Ok(Follow(rows, p, loads))
  {
    WalkRebuildsSelection(rows, p, loads);
  }
}
