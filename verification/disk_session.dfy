/**
 * The durable session store: an in-memory item list mirrored into a table
 * of rows `(id, sessionId, payload)` shared by many sessions. Ids come from
 * an auto-increment counter, so the table is kept in ascending id order.
 * Every operation is scoped to the store's session id, and the store keeps
 * the invariant "memory = this session's items, ordered by row id".
 *
 * The payload encoding (JSONB when the engine supports it, plain JSON text
 * otherwise) is recorded per row; reading decodes both to the stored item.
 */
module DiskSession {
  import opened Wrappers
  import opened Items

  datatype Encoding = Jsonb | PlainText

  datatype Row = Row(id: nat, sessionId: string, encoding: Encoding, item: Item)

  datatype Table = Table(rows: seq<Row>, nextId: nat)

  const DefaultSessionId: string := "default-session"

  /** Rows are in ascending id order and every id is below the next one to hand out. */
  predicate TableWf(t: Table) {
    Ascending(t.rows) && forall i :: 0 <= i < |t.rows| ==> t.rows[i].id < t.nextId
  }

  predicate Ascending(rows: seq<Row>) {
    forall i, j :: 0 <= i < j < |rows| ==> rows[i].id < rows[j].id
  }

  /** Every session other than `sid` reads the same items from both tables. */
  ghost predicate SameElsewhere(t1: Table, t2: Table, sid: string) {
    forall other :: other != sid ==> SessionItems(t1, other) == SessionItems(t2, other)
  }

  /** `JSON.parse(json(data))`: the stored item, whichever encoding wrote it. */
  function Decode(r: Row): Item {
    r.item
  }

  /** `WHERE sessionId = ? ORDER BY id ASC`. */
  function SessionRows(rows: seq<Row>, sid: string): (r: seq<Row>)
    ensures |r| <= |rows|
    ensures forall x :: x in r <==> x in rows && x.sessionId == sid
  {
    if |rows| == 0 then []
    else
      var rest := SessionRows(rows[..|rows| - 1], sid);
      if rows[|rows| - 1].sessionId == sid then rest + [rows[|rows| - 1]] else rest
  }

  function Decoded(rows: seq<Row>): (r: seq<Item>)
    ensures |r| == |rows|
  {
    seq(|rows|, i requires 0 <= i < |rows| => Decode(rows[i]))
  }

  /** The items a reader of the table sees for one session. */
  function SessionItems(t: Table, sid: string): seq<Item> {
    Decoded(SessionRows(t.rows, sid))
  }

  // ---------------------------------------------------------------------
  // Table operations
  // ---------------------------------------------------------------------

  /** One auto-incremented row per item, in order, tagged with the session id. */
  function NewRows(start: nat, sid: string, enc: Encoding, items: seq<Item>): (r: seq<Row>)
    ensures |r| == |items|
    ensures forall k :: 0 <= k < |items| ==> r[k] == Row(start + k, sid, enc, items[k])
  {
    seq(|items|, k requires 0 <= k < |items| => Row(start + k, sid, enc, items[k]))
  }

  function Insert(t: Table, sid: string, enc: Encoding, items: seq<Item>): (r: Table)
    ensures r.rows == t.rows + NewRows(t.nextId, sid, enc, items)
    ensures r.nextId == t.nextId + |items|
    ensures TableWf(t) ==> TableWf(r)
  {
    Table(t.rows + NewRows(t.nextId, sid, enc, items), t.nextId + |items|)
  }

  /** `DELETE ... WHERE id = (SELECT id ... WHERE sessionId = ? ORDER BY id DESC LIMIT 1)`. */
  function DeleteLastRow(rows: seq<Row>, sid: string): (r: seq<Row>)
    ensures forall x :: x in r ==> x in rows
    ensures Ascending(rows) ==> Ascending(r)
  {
    if |rows| == 0 then rows
    else if rows[|rows| - 1].sessionId == sid then rows[..|rows| - 1]
    else
      var rest := DeleteLastRow(rows[..|rows| - 1], sid);
      KeptRowsPrecedeLast(rows, rest);
      rest + [rows[|rows| - 1]]
  }

  /** A selection from all but the last row stays below the last row's id. */
  lemma KeptRowsPrecedeLast(rows: seq<Row>, rest: seq<Row>)
    requires |rows| > 0
    requires forall x :: x in rest ==> x in rows[..|rows| - 1]
    ensures Ascending(rows) ==> forall i :: 0 <= i < |rest| ==> rest[i].id < rows[|rows| - 1].id
  {
    if Ascending(rows) {
      forall i | 0 <= i < |rest| ensures rest[i].id < rows[|rows| - 1].id {
        assert rest[i] in rest;
        assert rest[i] in rows[..|rows| - 1];
        var k :| 0 <= k < |rows| - 1 && rows[k] == rest[i];
      }
    }
  }

  /** `DELETE FROM session_items WHERE sessionId = ?`. */
  function DeleteSessionRows(rows: seq<Row>, sid: string): (r: seq<Row>)
    ensures forall x :: x in r <==> x in rows && x.sessionId != sid
    ensures Ascending(rows) ==> Ascending(r)
  {
    if |rows| == 0 then rows
    else
      var rest := DeleteSessionRows(rows[..|rows| - 1], sid);
      KeptRowsPrecedeLast(rows, rest);
      if rows[|rows| - 1].sessionId == sid then rest else rest + [rows[|rows| - 1]]
  }

  // ---------------------------------------------------------------------
  // Lemmas about the session view of the table
  // ---------------------------------------------------------------------

  lemma {:induction false} SessionRowsAppend(a: seq<Row>, b: seq<Row>, sid: string)
    ensures SessionRows(a + b, sid) == SessionRows(a, sid) + SessionRows(b, sid)
    decreases |b|
  {
    if |b| == 0 {
      assert a + b == a;
    } else {
      assert (a + b)[..|a + b| - 1] == a + b[..|b| - 1];
      SessionRowsAppend(a, b[..|b| - 1], sid);
    }
  }

  lemma {:induction false} SessionRowsOfNewRows(start: nat, tag: string, enc: Encoding, items: seq<Item>, sid: string)
    ensures tag == sid ==> SessionRows(NewRows(start, tag, enc, items), sid) == NewRows(start, tag, enc, items)
    ensures tag != sid ==> SessionRows(NewRows(start, tag, enc, items), sid) == []
    decreases |items|
  {
    if |items| > 0 {
      var rows := NewRows(start, tag, enc, items);
      assert rows[..|rows| - 1] == NewRows(start, tag, enc, items[..|items| - 1]);
      SessionRowsOfNewRows(start, tag, enc, items[..|items| - 1], sid);
    }
  }

  lemma DecodedAppend(a: seq<Row>, b: seq<Row>)
    ensures Decoded(a + b) == Decoded(a) + Decoded(b)
  {
  }

  /** Inserting rows for one session appends exactly those items to it and nothing to others. */
  lemma InsertView(t: Table, tag: string, enc: Encoding, items: seq<Item>, sid: string)
    ensures tag == sid ==> SessionItems(Insert(t, tag, enc, items), sid) == SessionItems(t, sid) + items
    ensures tag != sid ==> SessionItems(Insert(t, tag, enc, items), sid) == SessionItems(t, sid)
  {
    var added := NewRows(t.nextId, tag, enc, items);
    SessionRowsAppend(t.rows, added, sid);
    SessionRowsOfNewRows(t.nextId, tag, enc, items, sid);
    DecodedAppend(SessionRows(t.rows, sid), SessionRows(added, sid));
    if tag == sid {
      assert Decoded(added) == items;
    } else {
      assert SessionRows(t.rows, sid) + [] == SessionRows(t.rows, sid);
    }
  }

  lemma {:induction false} DeleteLastRowView(rows: seq<Row>, tag: string, sid: string)
    ensures tag == sid ==> SessionRows(DeleteLastRow(rows, tag), sid) == DropLast(SessionRows(rows, sid))
    ensures tag != sid ==> SessionRows(DeleteLastRow(rows, tag), sid) == SessionRows(rows, sid)
    decreases |rows|
  {
    if |rows| > 0 {
      var last := rows[|rows| - 1];
      var init := rows[..|rows| - 1];
      if last.sessionId != tag {
        DeleteLastRowView(init, tag, sid);
        SessionRowsAppend(DeleteLastRow(init, tag), [last], sid);
        assert [last][..0] == [];
        if last.sessionId == sid {
          assert SessionRows(rows, sid) == SessionRows(init, sid) + [last];
        }
      }
    }
  }

  function DropLast<T>(s: seq<T>): seq<T> {
    if |s| == 0 then s else s[..|s| - 1]
  }

  lemma {:induction false} DeleteSessionRowsView(rows: seq<Row>, tag: string, sid: string)
    ensures tag == sid ==> SessionRows(DeleteSessionRows(rows, tag), sid) == []
    ensures tag != sid ==> SessionRows(DeleteSessionRows(rows, tag), sid) == SessionRows(rows, sid)
    decreases |rows|
  {
    if |rows| > 0 {
      var last := rows[|rows| - 1];
      var init := rows[..|rows| - 1];
      DeleteSessionRowsView(init, tag, sid);
      if last.sessionId != tag {
        SessionRowsAppend(DeleteSessionRows(init, tag), [last], sid);
        assert [last][..0] == [];
      }
    }
  }

  lemma DecodedDropLast(rows: seq<Row>)
    ensures Decoded(DropLast(rows)) == DropLast(Decoded(rows))
  {
  }

  // ---------------------------------------------------------------------
  // The store
  // ---------------------------------------------------------------------

  datatype Store = Store(sessionId: string, memory: seq<Item>, table: Table, useJsonb: bool)

  function WriteEncoding(d: Store): Encoding {
    if d.useJsonb then Jsonb else PlainText
  }

  /** The store invariant: memory mirrors this session's rows in id order. */
  predicate Consistent(d: Store) {
    TableWf(d.table) && d.memory == SessionItems(d.table, d.sessionId)
  }

  /**
   * Session id resolution at start-up. A non-empty `sessionId` option is
   * used as given; otherwise the id of the first row in the table is
   * adopted, and failing that the id the in-memory session generated.
   */
  function ResolvedId(table: Table, option: Option<string>, generated: string): string {
    if option.Some? && option.value != "" then option.value
    else if |table.rows| > 0 then table.rows[0].sessionId
    else generated
  }

  /** Hydration for a resolved id: load this session's rows, or persist the initial items. */
  function Hydrate(table: Table, sid: string, initial: seq<Item>, useJsonb: bool): (d: Store)
    requires TableWf(table)
    ensures Consistent(d) && d.sessionId == sid && d.useJsonb == useJsonb
    ensures |SessionItems(table, sid)| > 0 ==> d.memory == SessionItems(table, sid) && d.table == table
    ensures |SessionItems(table, sid)| == 0 ==> d.memory == initial
    ensures SameElsewhere(d.table, table, sid)
  {
    var stored := SessionItems(table, sid);
    if |stored| > 0 then Store(sid, stored, table, useJsonb)
    else
      var enc := if useJsonb then Jsonb else PlainText;
      var t := if |initial| > 0 then Insert(table, sid, enc, initial) else table;
      InsertView(table, sid, enc, initial, sid);
      assert SessionItems(t, sid) == initial;
      assert SameElsewhere(t, table, sid) by {
        forall other | other != sid ensures SessionItems(t, other) == SessionItems(table, other) {
          InsertView(table, sid, enc, initial, other);
        }
      }
      Store(sid, initial, t, useJsonb)
  }

  /**
   * Opening the store (`init`), with the empty-id fallback applied to the
   * store's own id as well as to the loading query.
   */
  function Open(table: Table, option: Option<string>, generated: string, initial: seq<Item>, jsonbSupported: bool): (d: Store)
    requires TableWf(table)
    ensures Consistent(d) && d.sessionId != ""
    ensures d.useJsonb == jsonbSupported
    ensures option.Some? && option.value != "" ==> d.sessionId == option.value
    ensures (option.None? || option == Some("")) && |table.rows| > 0 && table.rows[0].sessionId != "" ==>
              d.sessionId == table.rows[0].sessionId
    ensures (option.None? || option == Some("")) && |table.rows| == 0 ==>
              d.sessionId == (if generated != "" then generated else DefaultSessionId)
    ensures (option.None? || option == Some("")) && |table.rows| > 0 && table.rows[0].sessionId == "" ==>
              d.sessionId == DefaultSessionId
    ensures |SessionItems(table, d.sessionId)| > 0 ==> d.memory == SessionItems(table, d.sessionId) && d.table == table
    ensures |SessionItems(table, d.sessionId)| == 0 ==> d.memory == initial
    ensures SameElsewhere(d.table, table, d.sessionId)
  {
    var id := ResolvedId(table, option, generated);
    Hydrate(table, if id == "" then DefaultSessionId else id, initial, jsonbSupported)
  }

  /** `addItems`: append to memory and insert one row per item, in order. */
  function AddItems(d: Store, items: seq<Item>): (r: Store)
    requires Consistent(d)
    ensures Consistent(r)
    ensures r.memory == d.memory + items && r.sessionId == d.sessionId && r.useJsonb == d.useJsonb
    ensures r.table.rows == d.table.rows + NewRows(d.table.nextId, d.sessionId, WriteEncoding(d), items)
    ensures SameElsewhere(r.table, d.table, d.sessionId)
  {
    InsertView(d.table, d.sessionId, WriteEncoding(d), items, d.sessionId);
    InsertElsewhere(d.table, d.sessionId, WriteEncoding(d), items);
    d.(memory := d.memory + items, table := Insert(d.table, d.sessionId, WriteEncoding(d), items))
  }

  lemma InsertElsewhere(t: Table, sid: string, enc: Encoding, items: seq<Item>)
    ensures SameElsewhere(Insert(t, sid, enc, items), t, sid)
  {
    forall other | other != sid ensures SessionItems(Insert(t, sid, enc, items), other) == SessionItems(t, other) {
      InsertView(t, sid, enc, items, other);
    }
  }

  /** The table after `popItem` deleted this session's highest-id row. */
  function PoppedTable(t: Table, sid: string): Table {
    Table(DeleteLastRow(t.rows, sid), t.nextId)
  }

  lemma PoppedTableView(t: Table, sid: string)
    requires TableWf(t)
    ensures TableWf(PoppedTable(t, sid))
    ensures SessionItems(PoppedTable(t, sid), sid) == DropLast(SessionItems(t, sid))
    ensures SameElsewhere(PoppedTable(t, sid), t, sid)
  {
    DeleteLastRowView(t.rows, sid, sid);
    DecodedDropLast(SessionRows(t.rows, sid));
    forall other | other != sid ensures SessionItems(PoppedTable(t, sid), other) == SessionItems(t, other) {
      DeleteLastRowView(t.rows, sid, other);
    }
  }

  /**
   * `popItem`: on an empty session nothing happens; otherwise the last item
   * leaves memory and this session's highest-id row leaves the table.
   */
  function PopItem(d: Store): (r: (Option<Item>, Store))
    requires Consistent(d)
    ensures Consistent(r.1) && r.1.sessionId == d.sessionId
    ensures |d.memory| == 0 ==> r.0 == None && r.1 == d
    ensures |d.memory| > 0 ==> r.0 == Some(d.memory[|d.memory| - 1]) && r.1.memory == d.memory[..|d.memory| - 1]
    ensures |d.memory| > 0 ==> r.1.table == PoppedTable(d.table, d.sessionId)
    ensures SameElsewhere(r.1.table, d.table, d.sessionId)
  {
    if |d.memory| == 0 then (None, d)
    else
      PoppedTableView(d.table, d.sessionId);
      (Some(d.memory[|d.memory| - 1]), d.(memory := d.memory[..|d.memory| - 1], table := PoppedTable(d.table, d.sessionId)))
  }

  /** The table after `clearSession` deleted every row of one session. */
  function ClearedTable(t: Table, sid: string): Table {
    Table(DeleteSessionRows(t.rows, sid), t.nextId)
  }

  lemma ClearedTableView(t: Table, sid: string)
    requires TableWf(t)
    ensures TableWf(ClearedTable(t, sid))
    ensures SessionItems(ClearedTable(t, sid), sid) == []
    ensures SameElsewhere(ClearedTable(t, sid), t, sid)
  {
    DeleteSessionRowsView(t.rows, sid, sid);
    forall other | other != sid ensures SessionItems(ClearedTable(t, sid), other) == SessionItems(t, other) {
      DeleteSessionRowsView(t.rows, sid, other);
    }
  }

  /** `clearSession`: memory emptied and exactly this session's rows deleted. */
  function ClearSession(d: Store): (r: Store)
    requires Consistent(d)
    ensures Consistent(r) && r.memory == [] && r.sessionId == d.sessionId
    ensures forall x :: x in r.table.rows <==> x in d.table.rows && x.sessionId != d.sessionId
    ensures SameElsewhere(r.table, d.table, d.sessionId)
  {
    ClearedTableView(d.table, d.sessionId);
    d.(memory := [], table := ClearedTable(d.table, d.sessionId))
  }

  // ---------------------------------------------------------------------
  // Durability
  // ---------------------------------------------------------------------

  /**
   * Reopening the table with the store's id (and no initial items) yields
   * the same items: what was committed is what a new process sees.
   */
  lemma ReopenRoundTrip(d: Store, generated: string, jsonbSupported: bool)
    requires Consistent(d) && d.sessionId != ""
    ensures Open(d.table, Some(d.sessionId), generated, [], jsonbSupported).memory == d.memory
    ensures Open(d.table, Some(d.sessionId), generated, [], jsonbSupported).table == d.table
  {
  }

  /** The payload encoding chosen at start-up does not change what any session reads back. */
  lemma EncodingIrrelevant(d: Store, items: seq<Item>, sid: string)
    requires Consistent(d)
    ensures SessionItems(AddItems(d.(useJsonb := true), items).table, sid)
         == SessionItems(AddItems(d.(useJsonb := false), items).table, sid)
  {
    InsertView(d.table, d.sessionId, Jsonb, items, sid);
    InsertView(d.table, d.sessionId, PlainText, items, sid);
  }

  datatype Op = Add(items: seq<Item>) | Pop | Clear

  function Apply(d: Store, op: Op): (r: Store)
    requires Consistent(d)
    ensures Consistent(r) && r.sessionId == d.sessionId
  {
    match op
    case Add(items) => AddItems(d, items)
    case Pop => PopItem(d).1
    case Clear => ClearSession(d)
  }

  function ApplyAll(d: Store, ops: seq<Op>): (r: Store)
    requires Consistent(d)
    ensures Consistent(r) && r.sessionId == d.sessionId
    decreases |ops|
  {
    if |ops| == 0 then d else ApplyAll(Apply(d, ops[0]), ops[1..])
  }

  /**
   * After any sequence of additions, pops and clears, a fresh process that
   * opens the same table under the same id sees exactly the items in memory.
   */
  lemma {:induction false} HistoryRoundTrip(table: Table, sid: string, initial: seq<Item>, ops: seq<Op>, generated: string, probe: bool)
    requires TableWf(table) && sid != ""
    ensures var d := ApplyAll(Open(table, Some(sid), generated, initial, probe), ops);
            Open(d.table, Some(sid), generated, [], probe).memory == d.memory
  {
    var d0 := Open(table, Some(sid), generated, initial, probe);
    var d := ApplyAll(d0, ops);
    ReopenRoundTrip(d, generated, probe);
  }

  // ---------------------------------------------------------------------
  // The code as written
  // ---------------------------------------------------------------------

  /**
   * Start-up as written: when the resolved id is empty, the fallback id is
   * used for loading and for persisting the initial items, but the store's
   * own id stays empty, so later operations address another partition.
   */
  function OpenAsWritten(table: Table, option: Option<string>, generated: string, initial: seq<Item>, jsonbSupported: bool): (d: Store)
    requires TableWf(table)
    ensures ResolvedId(table, option, generated) != "" ==> d == Open(table, option, generated, initial, jsonbSupported)
  {
    var id := ResolvedId(table, option, generated);
    Hydrate(table, if id == "" then DefaultSessionId else id, initial, jsonbSupported).(sessionId := id)
  }

  /** A table whose first row carries an empty session id breaks the invariant on start-up. */
  lemma OpenAsWrittenLosesSync()
    ensures var x := Message(None, User, TextContent("hi"), None);
            var table := Table([Row(0, "", PlainText, x)], 1);
            && TableWf(table)
            && !Consistent(OpenAsWritten(table, None, "generated", [], true))
            && Consistent(Open(table, None, "generated", [], true))
  {
    var x := Message(None, User, TextContent("hi"), None);
    var table := Table([Row(0, "", PlainText, x)], 1);
    var d := OpenAsWritten(table, None, "generated", [], true);
    assert SessionRows(table.rows, DefaultSessionId) == [];
    assert SessionRows(table.rows, "") == table.rows;
    assert d.memory == [];
    assert SessionItems(d.table, "") == [x];
  }

  /**
   * `popItem` as written deletes the row only when the popped item is
   * truthy, so popping a stored null leaves its row behind.
   */
  function PopItemAsWritten(d: Store): (r: (Option<Item>, Store))
    requires Consistent(d)
    ensures |d.memory| > 0 && d.memory[|d.memory| - 1] != Absent ==> r == PopItem(d)
  {
    if |d.memory| == 0 then (None, d)
    else if d.memory[|d.memory| - 1] == Absent then
      (Some(Absent), d.(memory := d.memory[..|d.memory| - 1]))
    else PopItem(d)
  }

  /**
   * Popping a stored null as written leaves the session's row in the table
   * while the memory shrinks, so memory and table no longer agree; the
   * corrected `PopItem` keeps them in step.
   */
  lemma PopAsWrittenLosesSync(d: Store)
    requires Consistent(d) && |d.memory| > 0 && d.memory[|d.memory| - 1] == Absent
    ensures !Consistent(PopItemAsWritten(d).1)
    ensures Consistent(PopItem(d).1)
  {
    var after := PopItemAsWritten(d).1;
    assert after.table == d.table && after.sessionId == d.sessionId;
    assert |after.memory| == |d.memory| - 1 == |SessionItems(d.table, d.sessionId)| - 1;
  }
}
