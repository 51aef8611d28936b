/**
 The audit log pager (packages/audit/src/audit.service.ts, `listLog`): the filter it builds, the
 keyset cursor, and the exact pages a reader sees by following `nextCursor`.

 Times are microseconds.  The database hands a row's time over either as text, which the cursor
 copies, or as a JavaScript Date, which keeps milliseconds only.
 */
module AuditPaging {
  import opened Wrappers

  datatype Key = Key(occurredAt: int, id: int)

  /** The row comparison `(occurred_at, id) < (...)`. */
  predicate Less(a: Key, b: Key) {
    a.occurredAt < b.occurredAt || (a.occurredAt == b.occurredAt && a.id < b.id)
  }

  datatype LogRow = LogRow(
    key: Key,
    tenantId: string,
    actorId: string,
    tableSchema: string,
    tableName: string,
    rowId: string)

  /** `order by occurred_at desc, id desc`, with unique ids. */
  predicate Descending(rows: seq<LogRow>) {
    forall i, j :: 0 <= i < j < |rows| ==> Less(rows[j].key, rows[i].key)
  }

  datatype Driver = TimesAsText | TimesAsDate

  /** The cursor written for a row. */
  function CursorOf(driver: Driver, key: Key): Key {
    match driver
    case TimesAsText => key
    case TimesAsDate => Key(key.occurredAt - key.occurredAt % 1000, key.id)
  }

  // ----- The filter -----

  datatype Query = Query(
    limit: Option<int>,
    tenantId: string,
    actorId: string,
    tableSchema: string,
    tableName: string,
    rowId: string,
    from: Option<int>,
    to: Option<int>,
    cursor: Option<Key>)

  /** What the caller asks for; an empty text does not filter. */
  predicate Matches(q: Query, row: LogRow) {
    && TextsMatch(q, row)
    && (q.from.Some? ==> row.key.occurredAt >= q.from.value)
    && (q.to.Some? ==> row.key.occurredAt <= q.to.value)
    && (q.cursor.Some? ==> Less(row.key, q.cursor.value))
  }

  predicate TextsMatch(q: Query, row: LogRow) {
    && (q.tenantId != "" ==> row.tenantId == q.tenantId)
    && (q.actorId != "" ==> row.actorId == q.actorId)
    && (q.tableSchema != "" ==> row.tableSchema == q.tableSchema)
    && (q.tableName != "" ==> row.tableName == q.tableName)
    && (q.rowId != "" ==> row.rowId == q.rowId)
  }

  datatype Column = TenantId | ActorId | TableSchema | TableName | RowId

  datatype Param = TextParam(text: string) | NumberParam(number: int)

  /** A `where` part; parameters are named by their one-based placeholder. */
  datatype Part =
    | Equals(column: Column, placeholder: nat)
    | NotBefore(placeholder: nat)
    | NotAfter(placeholder: nat)
    | BelowCursor(timePlaceholder: nat, idPlaceholder: nat)

  function Field(row: LogRow, column: Column): string {
    match column
    case TenantId => row.tenantId
    case ActorId => row.actorId
    case TableSchema => row.tableSchema
    case TableName => row.tableName
    case RowId => row.rowId
  }

  function Text(params: seq<Param>, placeholder: nat): Option<string> {
    if 1 <= placeholder <= |params| && params[placeholder - 1].TextParam? then Some(params[placeholder - 1].text) else None
  }

  function Number(params: seq<Param>, placeholder: nat): Option<int> {
    if 1 <= placeholder <= |params| && params[placeholder - 1].NumberParam? then Some(params[placeholder - 1].number) else None
  }

  /** What the database evaluates. */
  predicate Holds(part: Part, params: seq<Param>, row: LogRow) {
    match part
    case Equals(column, p) => Text(params, p) == Some(Field(row, column))
    case NotBefore(p) => Number(params, p).Some? && row.key.occurredAt >= Number(params, p).value
    case NotAfter(p) => Number(params, p).Some? && row.key.occurredAt <= Number(params, p).value
    case BelowCursor(t, i) =>
      Number(params, t).Some? && Number(params, i).Some? && Less(row.key, Key(Number(params, t).value, Number(params, i).value))
  }

  predicate AllHold(parts: seq<Part>, params: seq<Param>, row: LogRow) {
    forall i :: 0 <= i < |parts| ==> Holds(parts[i], params, row)
  }

  /** The placeholders of `parts` are all bound by `params`. */
  predicate Bound(parts: seq<Part>, params: seq<Param>) {
    forall i :: 0 <= i < |parts| ==>
      match parts[i]
      case Equals(_, p) => 1 <= p <= |params|
      case NotBefore(p) => 1 <= p <= |params|
      case NotAfter(p) => 1 <= p <= |params|
      case BelowCursor(t, p) => 1 <= t <= |params| && 1 <= p <= |params|
  }

  lemma MoreParams(parts: seq<Part>, params: seq<Param>, more: seq<Param>, row: LogRow)
    requires Bound(parts, params)
    ensures Bound(parts, params + more)
    ensures AllHold(parts, params + more, row) <==> AllHold(parts, params, row)
  {
    forall i | 0 <= i < |parts|
      ensures Holds(parts[i], params + more, row) <==> Holds(parts[i], params, row)
    {
      assert forall p | 1 <= p <= |params| ::
          Text(params + more, p) == Text(params, p) && Number(params + more, p) == Number(params, p);
    }
    assert AllHold(parts, params + more, row) ==> forall i | 0 <= i < |parts| :: Holds(parts[i], params + more, row);
  }

  /** The `where` clause under construction. */
  class WhereBuilder {
    var whereParts: seq<Part>
    var params: seq<Param>
    var index: nat

    ghost predicate Valid()
      reads this
    {
      index == |params| + 1 && Bound(whereParts, params)
    }

    ghost predicate Accepts(row: LogRow)
      reads this
    {
      AllHold(whereParts, params, row)
    }

    constructor ()
      ensures Valid() && whereParts == [] && params == []
      ensures forall row: LogRow :: Accepts(row)
    {
      whereParts, params, index := [], [], 1;
    }

    method Equal(column: Column, value: string)
      requires Valid()
      modifies this
      ensures Valid()
      ensures forall row :: Accepts(row) <==> old(Accepts(row)) && (value != "" ==> Field(row, column) == value)
    {
      if value != "" {
        Push(Equals(column, index), [TextParam(value)]);
      }
    }

    method TextFilters(q: Query)
      requires Valid()
      modifies this
      ensures Valid()
      ensures forall row :: Accepts(row) <==> old(Accepts(row)) && TextsMatch(q, row)
    {
      Equal(TenantId, q.tenantId);
      Equal(ActorId, q.actorId);
      Equal(TableSchema, q.tableSchema);
      Equal(TableName, q.tableName);
      Equal(RowId, q.rowId);
    }

    method From(time: Option<int>)
      requires Valid()
      modifies this
      ensures Valid()
      ensures forall row :: Accepts(row) <==> old(Accepts(row)) && (time.Some? ==> row.key.occurredAt >= time.value)
    {
      if time.Some? {
        Push(NotBefore(index), [NumberParam(time.value)]);
      }
    }

    method To(time: Option<int>)
      requires Valid()
      modifies this
      ensures Valid()
      ensures forall row :: Accepts(row) <==> old(Accepts(row)) && (time.Some? ==> row.key.occurredAt <= time.value)
    {
      if time.Some? {
        Push(NotAfter(index), [NumberParam(time.value)]);
      }
    }

    method Below(cursor: Option<Key>)
      requires Valid()
      modifies this
      ensures Valid()
      ensures forall row :: Accepts(row) <==> old(Accepts(row)) && (cursor.Some? ==> Less(row.key, cursor.value))
    {
      if cursor.Some? {
        Push(BelowCursor(index, index + 1), [NumberParam(cursor.value.occurredAt), NumberParam(cursor.value.id)]);
      }
    }

    method Push(part: Part, values: seq<Param>)
      requires Valid() && Bound([part], params + values)
      modifies this
      ensures Valid() && params == old(params) + values
      ensures forall row :: Accepts(row) <==> old(Accepts(row)) && Holds(part, params, row)
    {
      forall row: LogRow
        ensures AllHold(whereParts + [part], params + values, row)
                <==> AllHold(whereParts, params, row) && Holds(part, params + values, row)
        ensures Bound(whereParts + [part], params + values)
      {
        MoreParams(whereParts, params, values, row);
        Snoc(whereParts, part, params + values, row);
      }
      whereParts := whereParts + [part];
      params := params + values;
      index := index + |values|;
    }
  }

  lemma Snoc(parts: seq<Part>, part: Part, params: seq<Param>, row: LogRow)
    ensures AllHold(parts + [part], params, row) <==> AllHold(parts, params, row) && Holds(part, params, row)
  {
    var all := parts + [part];
    if AllHold(all, params, row) {
      forall i | 0 <= i < |parts| ensures Holds(parts[i], params, row) {
        assert parts[i] == all[i];
      }
      assert Holds(all[|parts|], params, row);
    }
  }

  /** The clause `listLog` builds admits exactly the rows the caller asked for. */
  method BuildWhere(q: Query) returns (builder: WhereBuilder)
    ensures fresh(builder) && builder.Valid()
    ensures forall row :: builder.Accepts(row) <==> Matches(q, row)
  {
    builder := new WhereBuilder();
    builder.TextFilters(q);
    builder.From(q.from);
    builder.To(q.to);
    builder.Below(q.cursor);
  }

  // ----- Pages -----

  /** `Math.min(Math.max(query.limit ?? 50, 1), 200)`. */
  function PageSize(limit: Option<int>): (size: nat)
    ensures 1 <= size <= 200
  {
    var wanted := if limit.Some? then limit.value else 50;
    if wanted < 1 then 1 else if wanted > 200 then 200 else wanted
  }

  function Distance(a: int, b: int): nat {
    if a <= b then b - a else a - b
  }

  /** 50 rows unless the query gives a limit, then the number from 1 to 200 closest to it. */
  lemma PageSizeIsClosest(limit: Option<int>, k: int)
    requires 1 <= k <= 200
    ensures limit == None ==> PageSize(limit) == 50
    ensures limit.Some? ==>
            Distance(PageSize(limit), limit.value) < Distance(k, limit.value) || PageSize(limit) == k
  {
  }

  function Filter(rows: seq<LogRow>, q: Query): (r: seq<LogRow>)
    ensures forall row :: row in r ==> row in rows && Matches(q, row)
  {
    if rows == [] then []
    else (if Matches(q, rows[0]) then [rows[0]] else []) + Filter(rows[1..], q)
  }

  datatype Page = Page(items: seq<LogRow>, nextCursor: Option<Key>)

  function FirstRows(rows: seq<LogRow>, n: nat): seq<LogRow> {
    if |rows| <= n then rows else rows[..n]
  }

  /** The page of a limit over the rows that qualify: one row beyond it makes the cursor. */
  function PageOf(driver: Driver, rows: seq<LogRow>, size: nat): Page {
    Page(FirstRows(rows, size), if |rows| > size then Some(CursorOf(driver, rows[size].key)) else None)
  }

  lemma FilterStep(rows: seq<LogRow>, log: seq<LogRow>, i: nat, q: Query)
    requires i < |log|
    ensures rows + Filter(log[i..], q) == (if Matches(q, log[i]) then rows + [log[i]] else rows) + Filter(log[i + 1..], q)
  {
    assert log[i..][1..] == log[i + 1..];
    var rest := Filter(log[i + 1..], q);
    assert rows + ([log[i]] + rest) == rows + [log[i]] + rest;
  }

  lemma EnoughRows(rows: seq<LogRow>, log: seq<LogRow>, i: nat, q: Query, n: nat)
    requires i <= |log| && Filter(log, q) == rows + Filter(log[i..], q)
    requires |rows| == n || (|rows| < n && i == |log|)
    ensures FirstRows(Filter(log, q), n) == rows
  {
    assert i == |log| ==> log[i..] == [];
    assert |rows| == n ==> Filter(log, q)[..n] == rows;
  }

  /** `select ... where <parts> order by ... limit n`, over a log kept in that order. */
  method Select(log: seq<LogRow>, builder: WhereBuilder, n: nat, ghost q: Query) returns (rows: seq<LogRow>)
    requires forall row :: builder.Accepts(row) <==> Matches(q, row)
    ensures rows == FirstRows(Filter(log, q), n)
  {
    rows := [];
    var i := 0;
    assert log[0..] == log;
    while i < |log| && |rows| < n
      invariant 0 <= i <= |log| && |rows| <= n
      invariant Filter(log, q) == rows + Filter(log[i..], q)
    {
      FilterStep(rows, log, i, q);
      var admitted := AllHold(builder.whereParts, builder.params, log[i]);
      assert admitted <==> builder.Accepts(log[i]);
      if admitted {
        rows := rows + [log[i]];
      }
      i := i + 1;
    }
    EnoughRows(rows, log, i, q, n);
  }

  /** `listLog`: the first rows of the filtered log, and a cursor built from the row after them. */
  method ListLog(driver: Driver, log: seq<LogRow>, q: Query) returns (page: Page)
    ensures page == PageOf(driver, Filter(log, q), PageSize(q.limit))
  {
    var limit := PageSize(q.limit);
    var builder := BuildWhere(q);
    var rows := Select(log, builder, limit + 1, q);
    var items := FirstRows(rows, limit);
    var tail := if |rows| > limit then Some(CursorOf(driver, rows[limit].key)) else None;
    return Page(items, tail);
  }

  // ----- Following the cursor -----

  /** The rows strictly below the cursor. */
  function Below(rows: seq<LogRow>, cursor: Option<Key>): (r: seq<LogRow>)
    ensures cursor == None ==> r == rows
    ensures forall row :: row in r ==> row in rows
    ensures cursor.Some? ==> forall row :: row in r <==> row in rows && Less(row.key, cursor.value)
  {
    if cursor == None || rows == [] then rows
    else (if Less(rows[0].key, cursor.value) then [rows[0]] else []) + Below(rows[1..], cursor)
  }

  lemma {:induction false} FilterKeepsOrder(rows: seq<LogRow>, q: Query)
    requires Descending(rows)
    ensures Descending(Filter(rows, q))
  {
    if rows != [] {
      FilterKeepsOrder(rows[1..], q);
      var rest := Filter(rows[1..], q);
      forall j | 0 <= j < |rest|
        ensures Less(rest[j].key, rows[0].key)
      {
        assert rest[j] in rows[1..];
        var k :| 0 <= k < |rows| - 1 && rows[1..][k] == rest[j];
        assert rows[k + 1] == rest[j];
      }
    }
  }

  /** Filtering with a cursor is filtering without it, then dropping what is not below the cursor. */
  lemma {:induction false} FilterThenBelow(rows: seq<LogRow>, q: Query)
    ensures Filter(rows, q) == Below(Filter(rows, q.(cursor := None)), q.cursor)
  {
    if rows != [] {
      FilterThenBelow(rows[1..], q);
      var open := q.(cursor := None);
      var rest := Filter(rows[1..], open);
      assert Matches(q, rows[0]) <==> Matches(open, rows[0]) && (q.cursor.Some? ==> Less(rows[0].key, q.cursor.value));
      assert ([rows[0]] + rest)[1..] == rest;
      assert [] + rest == rest;
    }
  }

  /** On a descending log the rows below a cursor are a suffix. */
  lemma {:induction false} BelowIsSuffix(rows: seq<LogRow>, cursor: Key) returns (start: nat)
    requires Descending(rows)
    ensures start <= |rows| && Below(rows, Some(cursor)) == rows[start..]
    ensures forall i :: 0 <= i < |rows| ==> (Less(rows[i].key, cursor) <==> start <= i)
  {
    if rows == [] {
      start := 0;
    } else if Less(rows[0].key, cursor) {
      start := 0;
      BelowAll(rows, cursor);
    } else {
      var rest := BelowIsSuffix(rows[1..], cursor);
      start := rest + 1;
      assert rows[1..][rest..] == rows[start..];
    }
  }

  lemma {:induction false} BelowAll(rows: seq<LogRow>, cursor: Key)
    requires Descending(rows) && (rows != [] ==> Less(rows[0].key, cursor))
    ensures Below(rows, Some(cursor)) == rows
    ensures forall i :: 0 <= i < |rows| ==> Less(rows[i].key, cursor)
  {
    if rows != [] {
      BelowAll(rows[1..], cursor);
      assert [rows[0]] + rows[1..] == rows;
    }
  }

  /** Below a row's own key lies exactly what follows the row. */
  lemma BelowRow(rows: seq<LogRow>, i: nat)
    requires Descending(rows) && i < |rows|
    ensures Below(rows, Some(rows[i].key)) == rows[i + 1..]
  {
    var start := BelowIsSuffix(rows, rows[i].key);
    assert start > i;
    if i + 1 < |rows| {
      assert Less(rows[i + 1].key, rows[i].key);
    }
  }

  /** A cursor never admits the row it was built from, so following cursors ends. */
  lemma CursorMovesOn(driver: Driver, rows: seq<LogRow>, i: nat) returns (start: nat)
    requires Descending(rows) && i < |rows|
    ensures i < start <= |rows| && Below(rows, Some(CursorOf(driver, rows[i].key))) == rows[start..]
    ensures driver == TimesAsText ==> start == i + 1
    ensures forall k :: i < k < start ==>
              rows[k].key.occurredAt / 1000 == rows[i].key.occurredAt / 1000
  {
    var cursor := CursorOf(driver, rows[i].key);
    start := BelowIsSuffix(rows, cursor);
    assert !Less(rows[i].key, cursor);
    if driver == TimesAsText {
      BelowRow(rows, i);
      if i + 1 < |rows| {
        assert Less(rows[i + 1].key, rows[i].key);
      }
    } else {
      forall k | i < k < start
        ensures rows[k].key.occurredAt / 1000 == rows[i].key.occurredAt / 1000
      {
        assert Less(rows[k].key, rows[i].key) && !Less(rows[k].key, cursor);
      }
    }
  }

  lemma StartOf(rows: seq<LogRow>, cursor: Option<Key>) returns (start: nat)
    requires Descending(rows)
    ensures start <= |rows| && Below(rows, cursor) == rows[start..]
  {
    if cursor.Some? {
      start := BelowIsSuffix(rows, cursor.value);
    } else {
      start := 0;
    }
  }

  /** Where the page after a page of `size` rows begins. */
  lemma NextPage(driver: Driver, rows: seq<LogRow>, cursor: Option<Key>, size: nat) returns (start: nat, next: nat)
    requires Descending(rows)
    ensures start <= |rows| && Below(rows, cursor) == rows[start..]
    ensures |rows| - start > size ==>
              && start + size < next <= |rows|
              && Below(rows, PageOf(driver, Below(rows, cursor), size).nextCursor) == rows[next..]
              && (driver == TimesAsText ==> next == start + size + 1)
  {
    start := StartOf(rows, cursor);
    next := start;
    if |rows| - start > size {
      next := PageMovesOn(driver, rows, start, size);
    }
  }

  lemma PageMovesOn(driver: Driver, rows: seq<LogRow>, start: nat, size: nat) returns (next: nat)
    requires Descending(rows) && start + size < |rows|
    ensures start + size < next <= |rows|
    ensures Below(rows, PageOf(driver, rows[start..], size).nextCursor) == rows[next..]
    ensures driver == TimesAsText ==> next == start + size + 1
  {
    assert rows[start..][size] == rows[start + size];
    next := CursorMovesOn(driver, rows, start + size);
  }

  /** The pages of a reader that calls `listLog` again with each `nextCursor` it gets. */
  function Follow(driver: Driver, rows: seq<LogRow>, cursor: Option<Key>, size: nat): (pages: seq<seq<LogRow>>)
    requires Descending(rows)
    ensures |pages| > 0
    decreases |Below(rows, cursor)|
  {
    var page := PageOf(driver, Below(rows, cursor), size);
    if page.nextCursor == None then [page.items]
    else
      assert |Below(rows, page.nextCursor)| < |Below(rows, cursor)| by {
        var start, next := NextPage(driver, rows, cursor, size);
      }
      [page.items] + Follow(driver, rows, page.nextCursor, size)
  }

  function Concat(pages: seq<seq<LogRow>>): seq<LogRow> {
    if pages == [] then [] else pages[0] + Concat(pages[1..])
  }

  /** One page of a reader: the rows from `start`, then everything from `next`. */
  lemma FollowStep(driver: Driver, rows: seq<LogRow>, cursor: Option<Key>, size: nat)
    returns (start: nat, next: nat, after: Option<Key>)
    requires Descending(rows)
    ensures start <= |rows| && Below(rows, cursor) == rows[start..]
    ensures |rows| - start <= size ==> Follow(driver, rows, cursor, size) == [rows[start..]]
    ensures |rows| - start > size ==>
              && start + size < next <= |rows| && Below(rows, after) == rows[next..]
              && Follow(driver, rows, cursor, size) == [rows[start..start + size]] + Follow(driver, rows, after, size)
              && (driver == TimesAsText ==> next == start + size + 1)
  {
    start, next := NextPage(driver, rows, cursor, size);
    after := PageOf(driver, Below(rows, cursor), size).nextCursor;
    assert |rows| - start > size ==> rows[start..][..size] == rows[start..start + size];
  }

  /** Whatever the driver, the rows a reader sees are distinct, descending, and rows of the log. */
  lemma {:induction false} FollowDescends(driver: Driver, rows: seq<LogRow>, cursor: Option<Key>, size: nat)
    requires Descending(rows)
    ensures Descending(Concat(Follow(driver, rows, cursor, size)))
    ensures forall row :: row in Concat(Follow(driver, rows, cursor, size)) ==> row in Below(rows, cursor)
    decreases |Below(rows, cursor)|
  {
    var start, next, after := FollowStep(driver, rows, cursor, size);
    if |rows| - start <= size {
      ConcatOne(rows[start..]);
    } else {
      FollowDescends(driver, rows, after, size);
      var rest := Follow(driver, rows, after, size);
      ConcatCons(rows[start..start + size], rest);
      DescendingAppend(rows, start, size, next, Concat(rest));
    }
  }

  lemma ConcatOne(page: seq<LogRow>)
    ensures Concat([page]) == page
  {
    assert [page][1..] == [];
  }

  lemma ConcatCons(page: seq<LogRow>, pages: seq<seq<LogRow>>)
    ensures Concat([page] + pages) == page + Concat(pages)
  {
    assert ([page] + pages)[1..] == pages;
  }

  lemma DescendingAppend(rows: seq<LogRow>, start: nat, size: nat, next: nat, rest: seq<LogRow>)
    requires Descending(rows) && start + size < next <= |rows|
    requires Descending(rest) && forall row :: row in rest ==> row in rows[next..]
    ensures Descending(rows[start..start + size] + rest)
    ensures forall row :: row in rows[start..start + size] + rest ==> row in rows[start..]
  {
    var head := rows[start..start + size];
    forall i, j | 0 <= i < |head| && 0 <= j < |rest|
      ensures Less(rest[j].key, head[i].key)
    {
      assert rest[j] in rows[next..];
      var k :| next <= k < |rows| && rows[k] == rest[j];
    }
    forall row | row in rest
      ensures row in rows[start..]
    {
      var k :| next <= k < |rows| && rows[k] == row;
      assert rows[start..][k - start] == row;
    }
    forall row | row in head
      ensures row in rows[start..]
    {
      var k :| start <= k < start + size && rows[k] == row;
      assert rows[start..][k - start] == row;
    }
  }

  /** The index of the first row of page `k`. */
  function Offset(k: nat, size: nat): nat {
    if k == 0 then 0 else Offset(k - 1, size) + size + 1
  }

  lemma {:induction false} OffsetIs(k: nat, size: nat)
    ensures Offset(k, size) == k * (size + 1)
  {
    if k > 0 {
      OffsetIs(k - 1, size);
    }
  }

  lemma {:induction false} OffsetsApart(p: nat, k: nat, size: nat)
    ensures p <= k ==> Offset(p, size) <= Offset(k, size)
    ensures p > k ==> Offset(p, size) > Offset(k, size) + size
    decreases p + k
  {
    if p < k {
      OffsetsApart(p, k - 1, size);
    } else if p > k + 1 {
      OffsetsApart(p - 1, k, size);
    }
  }

  /** The pages by position: each page takes `size` rows and the next page starts one row later. */
  function Pages(rows: seq<LogRow>, size: nat): (pages: seq<seq<LogRow>>)
    ensures |pages| > 0
    decreases |rows|
  {
    if |rows| <= size then [rows] else [rows[..size]] + Pages(rows[size + 1..], size)
  }

  lemma PagesFrom(rows: seq<LogRow>, start: nat, next: nat, size: nat)
    requires next == start + size + 1 <= |rows|
    ensures Pages(rows[start..], size) == [rows[start..start + size]] + Pages(rows[next..], size)
  {
    assert rows[start..][size + 1..] == rows[next..];
    assert rows[start..][..size] == rows[start..start + size];
  }

  /** With exact cursors, following the cursor yields exactly those pages. */
  lemma {:induction false} FollowIsPages(rows: seq<LogRow>, cursor: Option<Key>, size: nat)
    requires Descending(rows)
    ensures Follow(TimesAsText, rows, cursor, size) == Pages(Below(rows, cursor), size)
    decreases |Below(rows, cursor)|
  {
    var start, next, after := FollowStep(TimesAsText, rows, cursor, size);
    if |rows| - start > size {
      FollowIsPages(rows, after, size);
      PagesFrom(rows, start, next, size);
    }
  }

  /** There is a page for every `size + 1` rows, and one for the rest. */
  lemma {:induction false} PageCount(rows: seq<LogRow>, size: nat)
    ensures Offset(|Pages(rows, size)| - 1, size) <= |rows| < Offset(|Pages(rows, size)|, size)
    decreases |rows|
  {
    if |rows| > size {
      PageCount(rows[size + 1..], size);
    }
  }

  /** Page `k` is exactly the rows from `k * (size + 1)` on: each page boundary loses one row. */
  lemma {:induction false} PageContents(rows: seq<LogRow>, size: nat, k: nat)
    requires k < |Pages(rows, size)|
    ensures Offset(k, size) <= |rows|
    ensures Pages(rows, size)[k] == FirstRows(rows[Offset(k, size)..], size)
    decreases k
  {
    if k == 0 {
      assert rows[0..] == rows;
    } else {
      var rest := rows[size + 1..];
      PageContents(rest, size, k - 1);
      assert rest[Offset(k - 1, size)..] == rows[Offset(k, size)..];
    }
  }

  /** The row that page `k` leaves behind is on no page at all. */
  lemma SkippedRowIsNeverSeen(rows: seq<LogRow>, size: nat, k: nat, p: nat)
    requires Descending(rows) && k + 1 < |Pages(rows, size)| && p < |Pages(rows, size)|
    ensures Offset(k, size) + size < |rows|
    ensures rows[Offset(k, size) + size] !in Pages(rows, size)[p]
  {
    PageContents(rows, size, k + 1);
    PageContents(rows, size, p);
    OffsetsApart(p, k, size);
    NotInSlice(rows, Offset(k, size) + size, Offset(p, size), size);
  }

  /** Whatever the driver, every page boundary loses at least one row. */
  lemma {:induction false} FollowLoses(driver: Driver, rows: seq<LogRow>, cursor: Option<Key>, size: nat)
    requires Descending(rows)
    ensures |Concat(Follow(driver, rows, cursor, size))| <= |Below(rows, cursor)|
    ensures |Concat(Follow(driver, rows, cursor, size))| == |Below(rows, cursor)| <==> |Below(rows, cursor)| <= size
    decreases |Below(rows, cursor)|
  {
    var start, next, after := FollowStep(driver, rows, cursor, size);
    if |rows| - start <= size {
      ConcatOne(rows[start..]);
    } else {
      FollowLoses(driver, rows, after, size);
      ConcatCons(rows[start..start + size], Follow(driver, rows, after, size));
    }
  }

  /** With either driver, following the cursor reads the whole log exactly when one page holds it. */
  lemma FollowReadsEverythingIff(driver: Driver, rows: seq<LogRow>, size: nat)
    requires Descending(rows)
    ensures Concat(Follow(driver, rows, None, size)) == rows <==> |rows| <= size
  {
    FollowLoses(driver, rows, None, size);
    var start, next, after := FollowStep(driver, rows, None, size);
    assert |rows| <= size ==> start == 0;
    ConcatOne(rows);
  }

  lemma NotInSlice(rows: seq<LogRow>, lost: nat, first: nat, size: nat)
    requires Descending(rows) && lost < |rows| && first <= |rows|
    requires first > lost || first + size <= lost
    ensures rows[lost] !in FirstRows(rows[first..], size)
  {
    var page := FirstRows(rows[first..], size);
    forall i | 0 <= i < |page|
      ensures page[i] != rows[lost]
    {
      assert page[i] == rows[first + i] && first + i != lost;
      assert Less(rows[first + i].key, rows[lost].key) || Less(rows[lost].key, rows[first + i].key);
    }
  }

  // ----- The cursor that would not skip -----

  lemma LastReturnedMovesOn(rows: seq<LogRow>, cursor: Option<Key>, size: nat)
    requires Descending(rows) && 0 < size < |Below(rows, cursor)|
    ensures |Below(rows, Some(Below(rows, cursor)[size - 1].key))| < |Below(rows, cursor)|
  {
    var start := StartOf(rows, cursor);
    BelowRow(rows, start + size - 1);
  }

  /** The same reader when the cursor is built from the last row returned. */
  function FollowLastReturned(rows: seq<LogRow>, cursor: Option<Key>, size: nat): seq<seq<LogRow>>
    requires Descending(rows) && size > 0
    decreases |Below(rows, cursor)|
  {
    var hits := Below(rows, cursor);
    if |hits| <= size then [hits]
    else
      assert |Below(rows, Some(hits[size - 1].key))| < |hits| by {
        LastReturnedMovesOn(rows, cursor, size);
      }
      [hits[..size]] + FollowLastReturned(rows, Some(hits[size - 1].key), size)
  }

  lemma CutAt(rows: seq<LogRow>, start: nat, end: nat)
    requires start <= end <= |rows|
    ensures rows[start..] == rows[start..end] + rows[end..]
  {
  }

  lemma LastReturnedEnd(rows: seq<LogRow>, cursor: Option<Key>, size: nat, start: nat)
    requires Descending(rows) && start <= |rows| <= start + size && size > 0 && Below(rows, cursor) == rows[start..]
    ensures FollowLastReturned(rows, cursor, size) == [rows[start..]]
  {
  }

  lemma LastReturnedCons(rows: seq<LogRow>, cursor: Option<Key>, size: nat, start: nat)
    requires Descending(rows) && 0 < size < |rows| - start && Below(rows, cursor) == rows[start..]
    ensures FollowLastReturned(rows, cursor, size)
         == [rows[start..start + size]] + FollowLastReturned(rows, Some(rows[start + size - 1].key), size)
  {
    var hits := rows[start..];
    assert hits[size - 1] == rows[start + size - 1];
    assert hits[..size] == rows[start..start + size];
  }

  lemma LastReturnedBelow(rows: seq<LogRow>, start: nat, size: nat)
    requires Descending(rows) && 0 < size < |rows| - start
    ensures Below(rows, Some(rows[start + size - 1].key)) == rows[start + size..]
  {
    BelowRow(rows, start + size - 1);
  }

  /** One page of that reader: the next page begins where this one ends. */
  lemma LastReturnedStep(rows: seq<LogRow>, cursor: Option<Key>, size: nat) returns (start: nat, after: Option<Key>)
    requires Descending(rows) && size > 0
    ensures start <= |rows| && Below(rows, cursor) == rows[start..]
    ensures |rows| - start <= size ==> FollowLastReturned(rows, cursor, size) == [rows[start..]]
    ensures |rows| - start > size ==>
              && Below(rows, after) == rows[start + size..]
              && FollowLastReturned(rows, cursor, size) == [rows[start..start + size]] + FollowLastReturned(rows, after, size)
  {
    start := StartOf(rows, cursor);
    after := cursor;
    if |rows| - start > size {
      after := Some(rows[start + size - 1].key);
      LastReturnedCons(rows, cursor, size, start);
      LastReturnedBelow(rows, start, size);
    } else {
      LastReturnedEnd(rows, cursor, size, start);
    }
  }

  /** That reader sees every row exactly once, in order. */
  lemma {:induction false} LastReturnedIsExact(rows: seq<LogRow>, cursor: Option<Key>, size: nat)
    requires Descending(rows) && size > 0
    ensures Concat(FollowLastReturned(rows, cursor, size)) == Below(rows, cursor)
    decreases |Below(rows, cursor)|
  {
    var start, after := LastReturnedStep(rows, cursor, size);
    if |rows| - start <= size {
      ConcatOne(rows[start..]);
    } else {
      LastReturnedIsExact(rows, after, size);
      ConcatCons(rows[start..start + size], FollowLastReturned(rows, after, size));
      CutAt(rows, start, start + size);
    }
  }

  // ----- Times handed over as Date -----

  /** After a Date cursor one row is skipped exactly when the next row is below the truncated time. */
  lemma DateSkipsOneIff(rows: seq<LogRow>, i: nat)
    requires Descending(rows) && i < |rows|
    ensures Below(rows, Some(CursorOf(TimesAsDate, rows[i].key))) == rows[i + 1..]
            <==> (i + 1 == |rows| || Less(rows[i + 1].key, CursorOf(TimesAsDate, rows[i].key)))
  {
    var cursor := CursorOf(TimesAsDate, rows[i].key);
    var start := BelowIsSuffix(rows, cursor);
    assert !Less(rows[i].key, cursor);
    if start == i + 1 {
    } else {
      assert |rows[start..]| != |rows[i + 1..]|;
    }
  }

  /** Times with whole milliseconds lose nothing, so both drivers page alike. */
  lemma {:induction false} WholeMillisecondsPageAlike(rows: seq<LogRow>, cursor: Option<Key>, size: nat)
    requires Descending(rows)
    requires forall i :: 0 <= i < |rows| ==> rows[i].key.occurredAt % 1000 == 0
    ensures Follow(TimesAsDate, rows, cursor, size) == Follow(TimesAsText, rows, cursor, size)
    decreases |Below(rows, cursor)|
  {
    var start, next := NextPage(TimesAsText, rows, cursor, size);
    var page := PageOf(TimesAsText, Below(rows, cursor), size);
    if page.nextCursor.Some? {
      assert rows[start..][size] == rows[start + size];
      assert CursorOf(TimesAsDate, rows[start + size].key) == rows[start + size].key;
      WholeMillisecondsPageAlike(rows, page.nextCursor, size);
    }
  }

  lemma SamplesDescend()
    ensures Descending(SAMPLES)
  {
  }

  lemma SamplesBelow()
    ensures Below(SAMPLES, None) == SAMPLES
    ensures Below(SAMPLES, Some(Key(1000, 2))) == []
    ensures Below(SAMPLES, Some(Key(1800, 2))) == [Sample(1700, 1)]
  {
    SamplesDescend();
    BelowRow(SAMPLES, 1);
  }

  /** Two pages: the second one holds what is below the cursor of the first. */
  lemma FollowTwo(driver: Driver, rows: seq<LogRow>, size: nat, after: Option<Key>)
    requires Descending(rows) && size < |rows| && after == Some(CursorOf(driver, rows[size].key))
    requires |Below(rows, after)| <= size
    ensures Follow(driver, rows, None, size) == [rows[..size], Below(rows, after)]
  {
    assert PageOf(driver, Below(rows, None), size) == Page(rows[..size], after);
    assert Follow(driver, rows, after, size) == [Below(rows, after)];
  }

  /** Three rows of one millisecond: with Date cursors the reader never sees the last two. */
  lemma DateCursorLosesARun()
    ensures Descending(SAMPLES)
    ensures Follow(TimesAsText, SAMPLES, None, 1) == [[SAMPLES[0]], [SAMPLES[2]]]
    ensures Follow(TimesAsDate, SAMPLES, None, 1) == [[SAMPLES[0]], []]
  {
    SamplesDescend();
    SamplesBelow();
    FollowTwo(TimesAsText, SAMPLES, 1, Some(Key(1800, 2)));
    FollowTwo(TimesAsDate, SAMPLES, 1, Some(Key(1000, 2)));
    assert SAMPLES[..1] == [SAMPLES[0]];
  }

  const SAMPLES := [Sample(1900, 3), Sample(1800, 2), Sample(1700, 1)]

  function Sample(occurredAt: int, id: int): LogRow {
    LogRow(Key(occurredAt, id), "t", "a", "s", "n", "r")
  }
}
