/** Pages that never materialise the collection, and pages of object payloads (api_v1.py). */
module ApiPages {
  import opened Outcomes
  import opened Orders
  import opened Cursors
  import opened ApiCollections

  // ----------------------------------------------------------- streamed pages

  /** Every refused request is answered with the same 400 body. */
  predicate SameAnswer<T(==)>(a: Result<T, Error>, b: Result<T, Error>)
  {
    a == b || (a.Err? && b.Err?)
  }

  function FieldsOf(rows: seq<Row>): (r: set<string>)
    ensures forall field :: field in r <==> FieldKnown(rows, field)
  {
    set row, field | row in rows && field in row :: field
  }

  /** The streaming pass sees no field at all, so it lets unknown filter fields pass. */
  predicate OverlooksUnknownFilter(rows: seq<Row>, p: Params, loads: string -> Option<Json>)
  {
    && p.sort == "" && p.filters != [] && Bounds(p, loads).Ok?
    && rows != [] && FieldsOf(rows) == {}
  }

  lemma SliceNext<T>(s: seq<T>, x: T, offset: nat, limit: nat)
    ensures Slice(s + [x], offset, limit)
         == Slice(s, offset, limit) + if offset <= |s| < offset + limit then [x] else []
  {
  }

  /** Streaming answers as the materialised path does, except where it overlooks an unknown filter field. */
  ghost predicate StreamsFaithfully(r: Result<Page<seq<Row>>, Error>, rows: seq<Row>, p: Params, loads: string -> Option<Json>)
  {
    && (SameAnswer(r, CollectionResponse(rows, p, loads)) <==> !OverlooksUnknownFilter(rows, p, loads))
    && (OverlooksUnknownFilter(rows, p, loads) ==> r.Ok? && r.value.count == 0 && r.value.data == [])
  }

  /** `streamed_page_response`; rows are in file order with asset names already joined. */
  method StreamedPage(rows: seq<Row>, p: Params, loads: string -> Option<Json>) returns (r: Result<Page<seq<Row>>, Error>)
    ensures StreamsFaithfully(r, rows, p, loads)
  {
    if p.sort != "" {
      r := CollectionResponse(rows, p, loads);
    } else if Bounds(p, loads).Err? {
      r := Err(Bounds(p, loads).error);
    } else if p.filters == [] {
      var (limit, offset) := Bounds(p, loads).value;
      r := Ok(RowsPage(Slice(rows, offset, limit), |rows|, limit, offset, "", []));
    } else {
      r := FilteredStream(rows, p, loads);
    }
  }

  method FilteredStream(rows: seq<Row>, p: Params, loads: string -> Option<Json>) returns (r: Result<Page<seq<Row>>, Error>)
    requires p.sort == "" && p.filters != [] && Bounds(p, loads).Ok?
    ensures StreamsFaithfully(r, rows, p, loads)
  {
    var (limit, offset) := Bounds(p, loads).value;
    var page, fields, count := CollectPage(rows, p.filters, limit, offset);
    StreamVerdict(rows, p, fields, loads);
    if fields != {} && AnyUnseen(p.filters, fields) {
      r := Err(UnknownFilter);
    } else {
      r := Ok(RowsPage(page, count, limit, offset, "", p.filters));
    }
  }

  predicate AnyUnseen(filters: seq<FieldFilter>, fields: set<string>)
  {
    exists f :: f in filters && f.field !in fields
  }

  /** When the stream refuses, so does the reference; when it answers, the reference gives that page or overlooks nothing. */
  lemma StreamVerdict(rows: seq<Row>, p: Params, fields: set<string>, loads: string -> Option<Json>)
    requires p.sort == "" && p.filters != [] && Bounds(p, loads).Ok? && fields == FieldsOf(rows)
    ensures fields != {} && AnyUnseen(p.filters, fields) ==> StreamsFaithfully(Err(UnknownFilter), rows, p, loads)
    ensures !(fields != {} && AnyUnseen(p.filters, fields)) ==>
      StreamsFaithfully(Ok(FilteredPage(rows, p.filters, Bounds(p, loads).value.0, Bounds(p, loads).value.1)), rows, p, loads)
  {
    UnknownInStream(rows, p.filters, fields);
    ReferenceAnswer(rows, p, loads);
    if fields == {} && rows == [] {
      FilterNone(rows, Matching(p.filters));
    }
  }

  function FilteredPage(rows: seq<Row>, filters: seq<FieldFilter>, limit: nat, offset: nat): Page<seq<Row>>
  {
    RowsPage(Slice(Filter(rows, Matching(filters)), offset, limit), |Filter(rows, Matching(filters))|, limit, offset, "", filters)
  }

  /** What the materialised path answers to an unsorted request with filters and a valid window. */
  lemma ReferenceAnswer(rows: seq<Row>, p: Params, loads: string -> Option<Json>)
    requires p.sort == "" && p.filters != [] && Bounds(p, loads).Ok?
    ensures CollectionResponse(rows, p, loads)
         == if rows != [] && !FieldsKnown(rows, p.filters) then Err(UnknownFilter)
            else Ok(FilteredPage(rows, p.filters, Bounds(p, loads).value.0, Bounds(p, loads).value.1))
  {
  }

  lemma UnknownInStream(rows: seq<Row>, filters: seq<FieldFilter>, fields: set<string>)
    requires fields == FieldsOf(rows) && filters != []
    ensures FieldsKnown(rows, filters) <==> !AnyUnseen(filters, fields)
    ensures fields == {} ==> !FieldsKnown(rows, filters)
    ensures fields == {} ==> Filter(rows, Matching(filters)) == []
  {
    if fields == {} {
      assert filters[0] in filters && filters[0].field !in fields;
      forall row | row in rows ensures !Matching(filters)(row) {
        if RowMatches(row, filters) { MatchShowsField(rows, row, filters); }
      }
      FilterNone(rows, Matching(filters));
    }
  }

  lemma MatchShowsField(rows: seq<Row>, row: Row, filters: seq<FieldFilter>)
    requires row in rows && filters != [] && RowMatches(row, filters)
    ensures FieldsOf(rows) != {}
  {
    assert FieldMatches(row, filters[0]);
    assert filters[0].field in FieldsOf(rows);
  }

  /** One pass: counts the matches, keeps the page, remembers the fields seen. */
  method CollectPage(rows: seq<Row>, filters: seq<FieldFilter>, limit: nat, offset: nat)
    returns (page: seq<Row>, fields: set<string>, count: nat)
    ensures page == Slice(Filter(rows, Matching(filters)), offset, limit)
    ensures count == |Filter(rows, Matching(filters))|
    ensures fields == FieldsOf(rows)
  {
    page, fields, count := [], {}, 0;
    for i := 0 to |rows|
      invariant PageSoFar(page, count, Filter(rows[..i], Matching(filters)), limit, offset)
      invariant fields == FieldsOf(rows[..i])
    {
      FieldsNext(rows, i);
      PageNext(rows, i, filters, page, count, limit, offset);
      fields := fields + rows[i].Keys;
      if RowMatches(rows[i], filters) {
        if offset <= count < offset + limit {
          page := page + [rows[i]];
        }
        count := count + 1;
      }
    }
    assert rows[..|rows|] == rows;
  }

  predicate PageSoFar(page: seq<Row>, count: nat, matches: seq<Row>, limit: nat, offset: nat)
  {
    page == Slice(matches, offset, limit) && count == |matches|
  }

  lemma PageNext(rows: seq<Row>, i: nat, filters: seq<FieldFilter>, page: seq<Row>, count: nat, limit: nat, offset: nat)
    requires i < |rows| && PageSoFar(page, count, Filter(rows[..i], Matching(filters)), limit, offset)
    ensures !RowMatches(rows[i], filters) ==>
      PageSoFar(page, count, Filter(rows[..i + 1], Matching(filters)), limit, offset)
    ensures RowMatches(rows[i], filters) ==>
      PageSoFar(page + if offset <= count < offset + limit then [rows[i]] else [], count + 1,
                Filter(rows[..i + 1], Matching(filters)), limit, offset)
  {
    FilterNext(rows, i, Matching(filters));
    SliceNext(Filter(rows[..i], Matching(filters)), rows[i], offset, limit);
  }

  lemma FieldsNext(rows: seq<Row>, i: nat)
    requires i < |rows|
    ensures FieldsOf(rows[..i + 1]) == FieldsOf(rows[..i]) + rows[i].Keys
  {
    assert rows[..i + 1] == rows[..i] + [rows[i]];
    forall field ensures FieldKnown(rows[..i + 1], field) <==> FieldKnown(rows[..i], field) || field in rows[i] {
      if FieldKnown(rows[..i], field) {
        var row :| row in rows[..i] && field in row;
        assert row in rows[..i + 1];
      }
      if field in rows[i] { assert rows[i] in rows[..i + 1]; }
    }
  }

  /** A page of keyless rows shows the one disagreement: the stream answers, the materialised path refuses. */
  lemma OverlookedFilterExample(loads: string -> Option<Json>)
    ensures OverlooksUnknownFilter([map[]], Params([FieldFilter("status", ["open"])], "", Absent, Absent, ""), loads)
    ensures CollectionResponse([map[]], Params([FieldFilter("status", ["open"])], "", Absent, Absent, ""), loads).Err?
  {
    var filters := [FieldFilter("status", ["open"])];
    assert filters[0] in filters && !FieldKnown([map[]], filters[0].field);
  }

  // ------------------------------------------------------------- object pages

  /** A member of an object payload, or of an object one level down when `parent` is not empty. */
  datatype Path = Path(parent: string, child: string)

  datatype Member<+T> = Items(rows: seq<T>) | Plain(text: string)

  datatype PartMeta = PartMeta(count: nat, returned: nat)

  datatype ObjectPage<T> = ObjectPage(page: Page<map<Path, Member<T>>>, parts: map<Path, PartMeta>)

  predicate Pageable<T>(data: map<Path, Member<T>>, parts: seq<Path>)
  {
    forall part :: part in parts ==> part in data && data[part].Items?
  }

  function Longest<T>(data: map<Path, Member<T>>, parts: seq<Path>): (n: nat)
    requires Pageable(data, parts)
    ensures forall part :: part in parts ==> |data[part].rows| <= n
    ensures n > 0 ==> exists part :: part in parts && |data[part].rows| == n
  {
    if parts == [] then 0
    else
      var k := |parts| - 1;
      var n := Longest(data, parts[..k]);
      assert parts == parts[..k] + [parts[k]];
      if n >= |data[parts[k]].rows| then n else |data[parts[k]].rows|
  }

  function Returned<T>(data: map<Path, Member<T>>, parts: seq<Path>, limit: nat, offset: nat): nat
    requires Pageable(data, parts)
  {
    if parts == [] then 0
    else
      var k := |parts| - 1;
      Returned(data, parts[..k], limit, offset) + |Slice(data[parts[k]].rows, offset, limit)|
  }

  function SliceParts<T>(data: map<Path, Member<T>>, parts: seq<Path>, limit: nat, offset: nat): map<Path, Member<T>>
    requires Pageable(data, parts)
  {
    map path | path in data :: if path in parts then Items(Slice(data[path].rows, offset, limit)) else data[path]
  }

  function MetaOf<T>(data: map<Path, Member<T>>, parts: seq<Path>, limit: nat, offset: nat): map<Path, PartMeta>
    requires Pageable(data, parts)
  {
    map part | part in parts :: PartMeta(|data[part].rows|, |Slice(data[part].rows, offset, limit)|)
  }

  function ObjectResponse<T>(data: map<Path, Member<T>>, parts: seq<Path>, p: Params, loads: string -> Option<Json>)
    : Result<ObjectPage<T>, Error>
    requires Pageable(data, parts)
  {
    var bounds := Bounds(p, loads);
    if bounds.Err? then Err(bounds.error)
    else
      var (limit, offset) := bounds.value;
      Ok(ObjectPage(Envelope(SliceParts(data, parts, limit, offset), Returned(data, parts, limit, offset),
                             Longest(data, parts), limit, offset, None, []),
                    MetaOf(data, parts, limit, offset)))
  }

  /** `paged_object_response`: the parts are distinct lists of the payload. */
  method PagedObject<T>(data: map<Path, Member<T>>, parts: seq<Path>, p: Params, loads: string -> Option<Json>)
    returns (r: Result<ObjectPage<T>, Error>)
    requires Distinct(parts) && Pageable(data, parts)
    ensures r == ObjectResponse(data, parts, p, loads)
  {
    var bounds := Bounds(p, loads);
    if bounds.Err? {
      return Err(bounds.error);
    }
    var (limit, offset) := bounds.value;
    var page, meta, count, returned := SliceEach(data, parts, limit, offset);
    r := Ok(ObjectPage(Envelope(page, returned, count, limit, offset, None, []), meta));
  }

  method SliceEach<T>(data: map<Path, Member<T>>, parts: seq<Path>, limit: nat, offset: nat)
    returns (page: map<Path, Member<T>>, meta: map<Path, PartMeta>, count: nat, returned: nat)
    requires Distinct(parts) && Pageable(data, parts)
    ensures page == SliceParts(data, parts, limit, offset)
    ensures meta == MetaOf(data, parts, limit, offset)
    ensures count == Longest(data, parts) && returned == Returned(data, parts, limit, offset)
  {
    page, meta, count, returned := data, map[], 0, 0;
    for i := 0 to |parts|
      invariant Pageable(data, parts[..i])
      invariant page == SliceParts(data, parts[..i], limit, offset)
      invariant meta == MetaOf(data, parts[..i], limit, offset)
      invariant count == Longest(data, parts[..i]) && returned == Returned(data, parts[..i], limit, offset)
    {
      PartNext(data, parts, i, limit, offset);
      var part := parts[i];
      var rows := page[part].rows;
      var kept := Slice(rows, offset, limit);
      page := page[part := Items(kept)];
      meta := meta[part := PartMeta(|rows|, |kept|)];
      count := if count >= |rows| then count else |rows|;
      returned := returned + |kept|;
    }
    assert parts[..|parts|] == parts;
  }

  lemma PartNext<T>(data: map<Path, Member<T>>, parts: seq<Path>, i: nat, limit: nat, offset: nat)
    requires Distinct(parts) && Pageable(data, parts) && i < |parts|
    ensures Pageable(data, parts[..i]) && Pageable(data, parts[..i + 1])
    ensures parts[i] in data && SliceParts(data, parts[..i], limit, offset)[parts[i]] == data[parts[i]]
    ensures SliceParts(data, parts[..i + 1], limit, offset)
         == SliceParts(data, parts[..i], limit, offset)[parts[i] := Items(Slice(data[parts[i]].rows, offset, limit))]
    ensures MetaOf(data, parts[..i + 1], limit, offset)
         == MetaOf(data, parts[..i], limit, offset)
              [parts[i] := PartMeta(|data[parts[i]].rows|, |Slice(data[parts[i]].rows, offset, limit)|)]
    ensures Longest(data, parts[..i + 1])
         == if Longest(data, parts[..i]) >= |data[parts[i]].rows| then Longest(data, parts[..i]) else |data[parts[i]].rows|
    ensures Returned(data, parts[..i + 1], limit, offset)
         == Returned(data, parts[..i], limit, offset) + |Slice(data[parts[i]].rows, offset, limit)|
  {
    assert parts[i] in parts;
    assert parts[..i + 1] == parts[..i] + [parts[i]] && parts[..i + 1][..i] == parts[..i];
    assert parts[i] !in parts[..i];
  }

  /** What a client that follows `next_cursor` collects for one part. */
  ghost function FollowPart<T>(data: map<Path, Member<T>>, parts: seq<Path>, part: Path, p: Params, loads: string -> Option<Json>): seq<T>
    requires Pageable(data, parts) && part in parts
    requires ReadsDumps(loads) && Bounds(p, loads).Ok?
    decreases Remaining(Longest(data, parts), Bounds(p, loads).value.1)
  {
    var page := ObjectResponse(data, parts, p, loads).value.page;
    if page.next.None? then page.data[part].rows
    else
      BoundsAfterCursor(p, loads);
      page.data[part].rows + FollowPart(data, parts, part, Resume(p, page.next.value), loads)
  }

  /** One cursor serves all the parts: the walk ends and rebuilds each of them, short or long. */
  lemma {:induction false} WalkRebuildsPart<T>(data: map<Path, Member<T>>, parts: seq<Path>, part: Path, p: Params, loads: string -> Option<Json>)
    requires Pageable(data, parts) && part in parts
    requires ReadsDumps(loads) && Bounds(p, loads).Ok?
    ensures FollowPart(data, parts, part, p, loads) == data[part].rows[Least(Bounds(p, loads).value.1, |data[part].rows|)..]
    decreases Remaining(Longest(data, parts), Bounds(p, loads).value.1)
  {
    var page := ObjectResponse(data, parts, p, loads).value.page;
    SliceStep(data[part].rows, page.offset, page.limit);
    if page.next.Some? {
      BoundsAfterCursor(p, loads);
      WalkRebuildsPart(data, parts, part, Resume(p, page.next.value), loads);
    }
  }

  /** From the start, every part comes back whole; members that are not parts are repeated unchanged. */
  lemma FullObjectWalk<T>(data: map<Path, Member<T>>, parts: seq<Path>, part: Path, p: Params, loads: string -> Option<Json>)
    requires Pageable(data, parts) && part in parts
    requires ReadsDumps(loads) && Bounds(p, loads).Ok? && p.cursor == "" && p.offset.Absent?
    ensures FollowPart(data, parts, part, p, loads) == data[part].rows
    ensures forall path :: path in data && path !in parts ==> ObjectResponse(data, parts, p, loads).value.page.data[path] == data[path]
  {
    WalkRebuildsPart(data, parts, part, p, loads);
  }
}
