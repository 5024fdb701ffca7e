/** The SQL projection of CCF asset results and its agreement with the plain pipeline (ccf_queries.py). */
module CcfQueries {
  import opened Outcomes
  import opened Orders
  import opened Text
  import opened Cursors
  import opened ApiCollections
  import opened ApiPages

  /** Text columns and JSON-array columns of the projection. */
  datatype Schema = Schema(scalars: set<string>, arrays: set<string>)

  const CCF := Schema({"safeguard_id", "source_tenant_id", "asset_id", "status"}, {"event_ids", "evidence_hashes", "reasons"})

  const SQLITE_MAX_OFFSET: nat := 0x7fff_ffff_ffff_ffff

  predicate Declares(schema: Schema, field: string) { field in schema.scalars || field in schema.arrays }

  predicate WellFormed(schema: Schema) { schema.scalars !! schema.arrays && "" !in schema.scalars && "" !in schema.arrays }

  /** An asset result: texts in the scalar fields, lists of texts in the array fields, nothing else. */
  ghost predicate Conforms(schema: Schema, row: Row)
  {
    && (forall field :: field in row <==> Declares(schema, field))
    && (forall field :: field in schema.scalars ==> row[field].Other?)
    && (forall field :: field in schema.arrays ==> row[field].List?)
  }

  ghost predicate AllConform(schema: Schema, rows: seq<Row>) { forall row :: row in rows ==> Conforms(schema, row) }

  // --------------------------------------------------------------- projection

  /** One table row: the columns, the sort keys of the array columns, and the result itself as payload. */
  datatype Record = Record(ordinal: nat, texts: map<string, string>, lists: map<string, seq<string>>,
                           sorts: map<string, string>, payload: Row)

  function RecordOf(schema: Schema, ordinal: nat, row: Row): Record
    requires Conforms(schema, row)
  {
    Record(ordinal,
           map field | field in schema.scalars :: row[field].shown,
           map field | field in schema.arrays :: row[field].items,
           map field | field in schema.arrays :: row[field].shown,
           row)
  }

  /** The table holds the given results in order, numbered from zero. */
  ghost predicate Projects(schema: Schema, table: seq<Record>, rows: seq<Row>)
  {
    && |table| == |rows| && AllConform(schema, rows)
    && forall i :: 0 <= i < |rows| ==> rows[i] in rows && table[i] == RecordOf(schema, i, rows[i])
  }

  /** `write_projection`: one insert per result, in order. */
  method WriteProjection(schema: Schema, rows: seq<Row>) returns (table: seq<Record>)
    requires AllConform(schema, rows)
    ensures Projects(schema, table, rows)
  {
    table := [];
    for ordinal := 0 to |rows|
      invariant |table| == ordinal
      invariant forall i :: 0 <= i < ordinal ==> table[i] == RecordOf(schema, i, rows[i])
    {
      table := table + [RecordOf(schema, ordinal, rows[ordinal])];
    }
  }

  // ------------------------------------------------------------------ queries

  datatype Clause = Never | In(field: string, expected: seq<string>) | Meets(field: string, expected: seq<string>)

  predicate Holds(c: Clause, rec: Record)
  {
    match c
    case Never => false
    case In(field, expected) => field in rec.texts && rec.texts[field] in expected
    case Meets(field, expected) => field in rec.lists && exists e :: e in expected && e in rec.lists[field]
  }

  predicate AllHold(clauses: seq<Clause>, rec: Record) { forall c :: c in clauses ==> Holds(c, rec) }

  function Where(clauses: seq<Clause>): Record -> bool { rec => AllHold(clauses, rec) }

  datatype OrderBy = ByOrdinal | ByColumn(field: string, descending: bool)

  function Column(rec: Record, field: string): string
  {
    if field in rec.sorts then rec.sorts[field] else if field in rec.texts then rec.texts[field] else ""
  }

  predicate InOrder(a: Record, b: Record, order: OrderBy)
  {
    if order.ByOrdinal? || Column(a, order.field) == Column(b, order.field) then a.ordinal <= b.ordinal
    else if order.descending then StrLe(Column(b, order.field), Column(a, order.field))
    else StrLe(Column(a, order.field), Column(b, order.field))
  }

  function Ordered(order: OrderBy): (Record, Record) -> bool { (a, b) => InOrder(a, b, order) }

  function Payload(rec: Record): Row { rec.payload }

  /** `SELECT payload ... WHERE ... ORDER BY ... LIMIT ... OFFSET ...` and the matching `count(*)`. */
  function Query(table: seq<Record>, clauses: seq<Clause>, order: OrderBy, limit: nat, offset: nat): (seq<Row>, nat)
  {
    var found := Filter(table, Where(clauses));
    (Map(Slice(SortBy(found, Ordered(order)), offset, limit), Payload), |found|)
  }

  // ------------------------------------------------------------ building them

  function ClauseOf(schema: Schema, f: FieldFilter): Clause
  {
    if f.expected == [] then Never
    else if f.field in schema.arrays then Meets(f.field, f.expected)
    else In(f.field, f.expected)
  }

  function Clauses(schema: Schema): FieldFilter -> Clause { f => ClauseOf(schema, f) }

  predicate AllDeclared(schema: Schema, filters: seq<FieldFilter>)
  {
    forall f :: f in filters ==> Declares(schema, f.field)
  }

  /** The clause list of `read_page`; the first undeclared field raises. */
  method BuildClauses(schema: Schema, filters: seq<FieldFilter>) returns (r: Result<seq<Clause>, Error>)
    ensures r == if AllDeclared(schema, filters) then Ok(Map(filters, Clauses(schema))) else Err(UnknownFilter)
  {
    var clauses: seq<Clause> := [];
    for i := 0 to |filters|
      invariant |clauses| == i
      invariant forall j :: 0 <= j < i ==> Declares(schema, filters[j].field) && clauses[j] == ClauseOf(schema, filters[j])
    {
      var f := filters[i];
      if f.field !in schema.scalars && f.field !in schema.arrays {
        assert f in filters;
        return Err(UnknownFilter);
      }
      if f.expected == [] {
        clauses := clauses + [Never];
      } else if f.field in schema.arrays {
        clauses := clauses + [Meets(f.field, f.expected)];
      } else {
        clauses := clauses + [In(f.field, f.expected)];
      }
    }
    assert clauses == Map(filters, Clauses(schema));
    r := Ok(clauses);
  }

  function OrderOf(schema: Schema, sort: string): OrderBy
  {
    if Declares(schema, SortField(sort)) then ByColumn(SortField(sort), Descending(sort)) else ByOrdinal
  }

  /** `read_page`: the rows of the page and the filtered count. */
  method ReadPage(schema: Schema, table: seq<Record>, filters: seq<FieldFilter>, sort: string, limit: int, offset: int)
    returns (r: Result<(seq<Row>, nat), Error>)
    ensures !(1 <= limit <= 1000) || offset < 0 ==> r == Err(LimitOutOfRange)
    ensures 1 <= limit <= 1000 && offset >= 0 ==>
      r == if AllDeclared(schema, filters)
           then Ok(Query(table, Map(filters, Clauses(schema)), OrderOf(schema, sort), limit, Least(offset, SQLITE_MAX_OFFSET)))
           else Err(UnknownFilter)
  {
    if !(1 <= limit <= 1000) || offset < 0 {
      return Err(LimitOutOfRange);
    }
    var clauses := BuildClauses(schema, filters);
    if clauses.Err? {
      return Err(clauses.error);
    }
    r := Ok(Query(table, clauses.value, OrderOf(schema, sort), limit, Least(offset, SQLITE_MAX_OFFSET)));
  }

  // ------------------------------------------------ WHERE is the row predicate

  lemma ClauseIsFieldFilter(schema: Schema, ordinal: nat, row: Row, f: FieldFilter)
    requires WellFormed(schema) && Conforms(schema, row) && Declares(schema, f.field)
    ensures Holds(ClauseOf(schema, f), RecordOf(schema, ordinal, row)) <==> FieldMatches(row, f)
  {
    assert f.field in row;
  }

  lemma WhereIsRowMatches(schema: Schema, ordinal: nat, row: Row, filters: seq<FieldFilter>)
    requires WellFormed(schema) && Conforms(schema, row) && AllDeclared(schema, filters)
    ensures AllHold(Map(filters, Clauses(schema)), RecordOf(schema, ordinal, row)) <==> RowMatches(row, filters)
  {
    var clauses, rec := Map(filters, Clauses(schema)), RecordOf(schema, ordinal, row);
    forall f | f in filters ensures ClauseOf(schema, f) in clauses && (Holds(ClauseOf(schema, f), rec) <==> FieldMatches(row, f)) {
      MapMembers(filters, Clauses(schema), ClauseOf(schema, f));
      ClauseIsFieldFilter(schema, ordinal, row, f);
    }
    forall c | c in clauses ensures exists f :: f in filters && ClauseOf(schema, f) == c {
      MapMembers(filters, Clauses(schema), c);
    }
  }

  lemma {:induction false} FilterMap<T(!new), U(!new)>(s: seq<T>, f: T -> U, p: T -> bool, q: U -> bool)
    requires forall x :: x in s ==> p(x) == q(f(x))
    ensures Map(Filter(s, p), f) == Filter(Map(s, f), q)
  {
    if s != [] {
      assert forall x :: x in s[1..] ==> x in s;
      assert s[0] in s;
      FilterMap(s[1..], f, p, q);
      assert Map(s, f)[1..] == Map(s[1..], f);
    }
  }

  lemma FoundIsFiltered(schema: Schema, table: seq<Record>, rows: seq<Row>, filters: seq<FieldFilter>)
    requires WellFormed(schema) && Projects(schema, table, rows) && AllDeclared(schema, filters)
    ensures Map(Filter(table, Where(Map(filters, Clauses(schema)))), Payload) == Filter(rows, Matching(filters))
  {
    var where := Where(Map(filters, Clauses(schema)));
    forall rec | rec in table ensures where(rec) == Matching(filters)(Payload(rec)) {
      var i :| 0 <= i < |table| && table[i] == rec;
      WhereIsRowMatches(schema, i, rows[i], filters);
    }
    FilterMap(table, Payload, where, Matching(filters));
    assert Map(table, Payload) == rows;
  }

  // -------------------------------------------- ORDER BY is the stable sorting

  ghost predicate Numbered(s: seq<Record>)
  {
    forall i, j :: 0 <= i < j < |s| ==> s[i].ordinal < s[j].ordinal
  }

  lemma {:induction false} FilterNumbered(s: seq<Record>, p: Record -> bool)
    requires Numbered(s)
    ensures Numbered(Filter(s, p))
  {
    if s != [] {
      FilterNumbered(s[1..], p);
      forall rec | rec in Filter(s[1..], p) ensures s[0].ordinal < rec.ordinal {
        assert rec in s[1..];
      }
    }
  }

  function PayloadOrder(field: string, descending: bool): (Record, Record) -> bool
  {
    (a: Record, b: Record) => RowOrder(field, descending)(a.payload, b.payload)
  }

  /** Breaking ties by ordinal is what a stable sort of the ordinal order does. */
  lemma {:induction false} OrdinalTieBreak(s: seq<Record>, le: (Record, Record) -> bool, le': (Record, Record) -> bool)
    requires Numbered(s)
    requires forall x, y :: x in s && y in s && x.ordinal < y.ordinal ==> le(x, y) == le'(x, y)
    ensures SortBy(s, le) == SortBy(s, le')
  {
    if s != [] {
      assert forall x :: x in s[1..] ==> x in s;
      OrdinalTieBreak(s[1..], le, le');
      MultisetMembers(SortBy(s[1..], le), s[1..]);
      forall y | y in SortBy(s[1..], le) ensures le(s[0], y) == le'(s[0], y) {
        assert y in s[1..];
      }
      InsertSame(s[0], SortBy(s[1..], le), le, le');
    }
  }

  lemma StrLeReflexive(a: string)
    ensures StrLe(a, a)
  {
    StrLeTotal(a, a);
  }

  ghost predicate FromResults(schema: Schema, s: seq<Record>)
  {
    forall rec :: rec in s ==> Conforms(schema, rec.payload) && rec == RecordOf(schema, rec.ordinal, rec.payload)
  }

  lemma ColumnIsSortKey(schema: Schema, rec: Record, field: string)
    requires WellFormed(schema) && Conforms(schema, rec.payload) && rec == RecordOf(schema, rec.ordinal, rec.payload)
    requires Declares(schema, field)
    ensures SortKey(rec.payload, field) == Textual(Column(rec, field)) && Present(rec.payload, field)
  {
    assert field in rec.payload;
  }

  lemma ColumnAgrees(schema: Schema, x: Record, y: Record, field: string, descending: bool)
    requires WellFormed(schema) && FromResults(schema, [x, y]) && Declares(schema, field) && x.ordinal < y.ordinal
    ensures InOrder(x, y, ByColumn(field, descending)) == RowOrder(field, descending)(x.payload, y.payload)
  {
    assert x in [x, y] && y in [x, y];
    ColumnIsSortKey(schema, x, field);
    ColumnIsSortKey(schema, y, field);
    StrLeReflexive(Column(x, field));
  }

  lemma ColumnOrder(schema: Schema, s: seq<Record>, field: string, descending: bool)
    requires WellFormed(schema) && FromResults(schema, s) && Numbered(s) && Declares(schema, field)
    ensures SortBy(s, Ordered(ByColumn(field, descending))) == SortBy(s, PayloadOrder(field, descending))
  {
    var le, le' := Ordered(ByColumn(field, descending)), PayloadOrder(field, descending);
    forall x, y | x in s && y in s && x.ordinal < y.ordinal ensures le(x, y) == le'(x, y) {
      ColumnAgrees(schema, x, y, field, descending);
    }
    OrdinalTieBreak(s, le, le');
  }

  lemma OrdinalOrder(s: seq<Record>)
    requires Numbered(s)
    ensures SortBy(s, Ordered(ByOrdinal)) == s
  {
    SortOfSorted(s, Ordered(ByOrdinal));
  }

  lemma SortDeclaredField(schema: Schema, rows: seq<Row>, field: string, reverse: bool)
    requires AllConform(schema, rows) && WellFormed(schema) && Declares(schema, field)
    ensures SortRows(rows, field, reverse) == SortBy(rows, RowOrder(field, reverse))
  {
    forall row | row in rows ensures Present(row, field) {
      assert field in row;
    }
    FilterAll(rows, Has(field));
    FilterNone(rows, Lacks(field));
    assert SortBy(rows, RowOrder(field, reverse)) + [] == SortBy(rows, RowOrder(field, reverse));
  }

  lemma SortUndeclaredField(schema: Schema, rows: seq<Row>, field: string, reverse: bool)
    requires AllConform(schema, rows) && !Declares(schema, field)
    ensures SortRows(rows, field, reverse) == rows
  {
    FilterNone(rows, Has(field));
    FilterAll(rows, Lacks(field));
    assert SortBy(Filter(rows, Has(field)), RowOrder(field, reverse)) == [];
  }

  /** The rows in query order are the rows in the pipeline's order, for every sort parameter. */
  lemma OrderByIsSortCollection(schema: Schema, s: seq<Record>, sort: string)
    requires WellFormed(schema) && FromResults(schema, s) && Numbered(s)
    requires SortCollection(Map(s, Payload), sort).Ok?
    ensures Map(SortBy(s, Ordered(OrderOf(schema, sort))), Payload) == SortCollection(Map(s, Payload), sort).value
  {
    var field, reverse := SortField(sort), Descending(sort);
    PayloadsConform(schema, s);
    if Declares(schema, field) {
      ColumnOrder(schema, s, field, reverse);
      SortMap(s, Payload, PayloadOrder(field, reverse), RowOrder(field, reverse));
      SortDeclaredField(schema, Map(s, Payload), field, reverse);
    } else {
      OrdinalOrder(s);
      SortUndeclaredField(schema, Map(s, Payload), field, reverse);
    }
  }

  lemma PayloadsConform(schema: Schema, s: seq<Record>)
    requires FromResults(schema, s)
    ensures AllConform(schema, Map(s, Payload))
  {
    forall row | row in Map(s, Payload) ensures Conforms(schema, row) {
      MapMembers(s, Payload, row);
    }
  }

  // --------------------------------------------------------------- refinement

  lemma TableIsNumbered(schema: Schema, table: seq<Record>, rows: seq<Row>)
    requires Projects(schema, table, rows)
    ensures Numbered(table) && FromResults(schema, table)
  {
    forall rec | rec in table ensures Conforms(schema, rec.payload) && rec == RecordOf(schema, rec.ordinal, rec.payload) {
      var i :| 0 <= i < |table| && table[i] == rec;
    }
  }

  lemma SliceMap<T, U>(s: seq<T>, f: T -> U, offset: nat, limit: nat)
    ensures Map(Slice(s, offset, limit), f) == Slice(Map(s, f), offset, limit)
  {
  }

  lemma CappedOffset<T>(s: seq<T>, offset: nat, limit: nat)
    requires |s| <= SQLITE_MAX_OFFSET
    ensures Slice(s, Least(offset, SQLITE_MAX_OFFSET), limit) == Slice(s, offset, limit)
  {
  }

  /** Page and count of the indexed read are those of filter, stable sort and slice over the original list. */
  lemma QueryRefinesPipeline(schema: Schema, table: seq<Record>, rows: seq<Row>, filters: seq<FieldFilter>, sort: string,
                             limit: nat, offset: nat)
    requires WellFormed(schema) && Projects(schema, table, rows) && |rows| <= SQLITE_MAX_OFFSET
    requires AllDeclared(schema, filters) && SortCollection(Filter(rows, Matching(filters)), sort).Ok?
    ensures Query(table, Map(filters, Clauses(schema)), OrderOf(schema, sort), limit, Least(offset, SQLITE_MAX_OFFSET))
         == (Slice(SortCollection(Filter(rows, Matching(filters)), sort).value, offset, limit), |Filter(rows, Matching(filters))|)
  {
    var where := Where(Map(filters, Clauses(schema)));
    var found := Filter(table, where);
    TableIsNumbered(schema, table, rows);
    FilterNumbered(table, where);
    FoundIsFiltered(schema, table, rows, filters);
    OrderByIsSortCollection(schema, found, sort);
    var sorted := SortBy(found, Ordered(OrderOf(schema, sort)));
    CappedOffset(sorted, offset, limit);
    SliceMap(sorted, Payload, offset, limit);
  }

  /** Ordinals are unique, so the ORDER BY leaves an SQL engine no choice. */
  lemma OrderLeavesNoChoice(schema: Schema, table: seq<Record>, rows: seq<Row>, clauses: seq<Clause>, order: OrderBy, answer: seq<Record>)
    requires Projects(schema, table, rows)
    requires multiset(answer) == multiset(Filter(table, Where(clauses))) && Sorted(answer, Ordered(order))
    ensures answer == SortBy(Filter(table, Where(clauses)), Ordered(order))
  {
    var found, le := Filter(table, Where(clauses)), Ordered(order);
    TableIsNumbered(schema, table, rows);
    InOrderIsTotal(order);
    SortIsSorted(found, le);
    MultisetMembers(answer, found);
    forall x, y | x in answer && y in answer && le(x, y) && le(y, x) ensures x == y {
      SameOrdinal(table, x, y, order);
    }
    SortedUnique(answer, SortBy(found, le), le);
  }

  lemma SameOrdinal(table: seq<Record>, x: Record, y: Record, order: OrderBy)
    requires Numbered(table) && x in table && y in table
    requires InOrder(x, y, order) && InOrder(y, x, order)
    ensures x == y
  {
    if order.ByColumn? && Column(x, order.field) != Column(y, order.field) {
      StrLeAntisymmetric(Column(x, order.field), Column(y, order.field));
    }
    var i :| 0 <= i < |table| && table[i] == x;
    var j :| 0 <= j < |table| && table[j] == y;
  }

  lemma InOrderTransitive(a: Record, b: Record, c: Record, order: OrderBy)
    requires InOrder(a, b, order) && InOrder(b, c, order)
    ensures InOrder(a, c, order)
  {
    if order.ByColumn? {
      var x, y, z := Column(a, order.field), Column(b, order.field), Column(c, order.field);
      StrLeReflexive(x);
      StrLeReflexive(y);
      if order.descending { StrLeTransitive(z, y, x); } else { StrLeTransitive(x, y, z); }
      if x == z && x != y {
        StrLeAntisymmetric(x, y);
      }
    }
  }

  lemma InOrderIsTotal(order: OrderBy)
    ensures TotalPreorder(Ordered(order))
  {
    var le := Ordered(order);
    forall a, b ensures le(a, b) || le(b, a) {
      if order.ByColumn? { StrLeTotal(Column(a, order.field), Column(b, order.field)); }
    }
    forall a, b, c | le(a, b) && le(b, c) ensures le(a, c) { InOrderTransitive(a, b, c, order); }
  }

  // ------------------------------------------------------------------- routes

  /** The indexed route of the asset results, over the table written for them. */
  method IndexedRoute(schema: Schema, table: seq<Record>, p: Params, loads: string -> Option<Json>)
    returns (r: Result<Page<seq<Row>>, Error>)
    ensures r == RouteAnswer(schema, table, p, loads)
  {
    var sort := SortCollection([], p.sort);
    if sort.Err? {
      return Err(sort.error);
    }
    var bounds := Bounds(p, loads);
    if bounds.Err? {
      return Err(bounds.error);
    }
    var (limit, offset) := bounds.value;
    var indexed := ReadPage(schema, table, p.filters, p.sort, limit, offset);
    if indexed.Err? {
      return Err(indexed.error);
    }
    r := Ok(RowsPage(indexed.value.0, indexed.value.1, limit, offset, p.sort, p.filters));
  }

  function RouteAnswer(schema: Schema, table: seq<Record>, p: Params, loads: string -> Option<Json>): Result<Page<seq<Row>>, Error>
  {
    if SortCollection([], p.sort).Err? then Err(SortNamesNoField)
    else if Bounds(p, loads).Err? then Err(Bounds(p, loads).error)
    else if !AllDeclared(schema, p.filters) then Err(UnknownFilter)
    else
      var (limit, offset) := Bounds(p, loads).value;
      var page := Query(table, Map(p.filters, Clauses(schema)), OrderOf(schema, p.sort), limit, Least(offset, SQLITE_MAX_OFFSET));
      Ok(RowsPage(page.0, page.1, limit, offset, p.sort, p.filters))
  }

  /** Only an empty assessment hides from the plain pipeline that a filter field does not exist. */
  predicate UnknownFieldUnseen(schema: Schema, rows: seq<Row>, p: Params, loads: string -> Option<Json>)
  {
    && rows == [] && !AllDeclared(schema, p.filters)
    && SortCollection([], p.sort).Ok? && Bounds(p, loads).Ok?
  }

  lemma KnownIsDeclared(schema: Schema, rows: seq<Row>, filters: seq<FieldFilter>)
    requires AllConform(schema, rows) && rows != []
    ensures FieldsKnown(rows, filters) <==> AllDeclared(schema, filters)
  {
    assert rows[0] in rows;
    forall f | f in filters ensures FieldKnown(rows, f.field) <==> Declares(schema, f.field) {
      if Declares(schema, f.field) {
        assert f.field in rows[0];
      }
    }
  }

  /** Serving from the index changes no answer, except that case. */
  lemma RoutesAgreeIff(schema: Schema, table: seq<Record>, rows: seq<Row>, p: Params, loads: string -> Option<Json>)
    requires WellFormed(schema) && Projects(schema, table, rows) && |rows| < 0x8000_0000_0000_0000
    ensures SameAnswer(RouteAnswer(schema, table, p, loads), CollectionResponse(rows, p, loads))
       <==> !UnknownFieldUnseen(schema, rows, p, loads)
  {
    if SortCollection([], p.sort).Err? || Bounds(p, loads).Err? {
      assert CollectionResponse(rows, p, loads).Err?;
    } else if !AllDeclared(schema, p.filters) {
      if rows != [] {
        KnownIsDeclared(schema, rows, p.filters);
      }
    } else {
      RoutesAgree(schema, table, rows, p, loads);
    }
  }

  lemma RoutesAgree(schema: Schema, table: seq<Record>, rows: seq<Row>, p: Params, loads: string -> Option<Json>)
    requires WellFormed(schema) && Projects(schema, table, rows) && |rows| <= SQLITE_MAX_OFFSET
    requires SortCollection([], p.sort).Ok? && Bounds(p, loads).Ok? && AllDeclared(schema, p.filters)
    ensures RouteAnswer(schema, table, p, loads) == CollectionResponse(rows, p, loads)
  {
    var (limit, offset) := Bounds(p, loads).value;
    if rows != [] {
      KnownIsDeclared(schema, rows, p.filters);
    }
    if p.filters == [] {
      FilterAll(rows, Matching(p.filters));
    }
    assert FilterCollection(rows, p.filters) == Ok(Filter(rows, Matching(p.filters)));
    QueryRefinesPipeline(schema, table, rows, p.filters, p.sort, limit, offset);
  }

  lemma CcfSchemaIsWellFormed()
    ensures WellFormed(CCF)
  {
    assert |"safeguard_id"| == 12 && |"source_tenant_id"| == 16 && |"asset_id"| == 8 && |"status"| == 6;
    assert |"event_ids"| == 9 && |"evidence_hashes"| == 15 && |"reasons"| == 7;
  }

  /** The fields of an asset result, and those among them that hold lists. */
  lemma CcfFields(field: string)
    ensures Declares(CCF, field) <==>
            || field == "safeguard_id" || field == "source_tenant_id" || field == "asset_id" || field == "status"
            || field == "event_ids" || field == "evidence_hashes" || field == "reasons"
    ensures field in CCF.arrays <==> field == "event_ids" || field == "evidence_hashes" || field == "reasons"
  {
  }

  /** An empty assessment and a filter on a field that does not exist: the index refuses, the plain pipeline answers. */
  lemma EmptyAssessmentExample(loads: string -> Option<Json>)
    ensures var p := Params([FieldFilter("colour", ["red"])], "", Absent, Absent, "");
            && Projects(CCF, [], [])
            && RouteAnswer(CCF, [], p, loads) == Err(UnknownFilter)
            && CollectionResponse([], p, loads).Ok?
  {
    var f := FieldFilter("colour", ["red"]);
    assert |"colour"| == 6 && "colour"[0] == 'c' && "status"[0] == 's';
    assert |"safeguard_id"| == 12 && |"source_tenant_id"| == 16 && |"asset_id"| == 8;
    assert |"event_ids"| == 9 && |"evidence_hashes"| == 15 && |"reasons"| == 7;
    assert f in [f] && !Declares(CCF, f.field);
  }
}
