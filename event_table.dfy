/**
 * The event_store table as the SQL statements see it: rows of
 * (id, uuid, data) where id is the BIGSERIAL global offset. Each statement the
 * provider runs is a function here:
 *   SELECT * ... WHERE id > ? ORDER BY id       RowsAfter
 *   SELECT * ... WHERE uuid = ? ORDER BY id     RowsOf
 *   SELECT count(*) ... WHERE uuid = ?          StreamVersion
 *   INSERT INTO ... (uuid, data) VALUES (?, ?)  Append
 *   DELETE FROM ... WHERE uuid = ?              RowsNotOf
 * plus the write path's version check and failure classification.
 */
module EventTable {
  import opened Wrappers
  import opened Platform

  /** An event as the store sees it: the stream it belongs to (null for none) and the version its writer expects. */
  datatype Event = Event(name: string, uuid: Option<Uuid>, expectedStreamVersion: int)

  /** -1 as the expected stream version switches the optimistic check off. */
  const ANY_VERSION := -1

  /** One row of event_store; `data` is the serialized event. */
  datatype Row<T> = Row(id: int, uuid: Option<Uuid>, data: T)

  /** Ids strictly increase along the table, which is the order ORDER BY id yields. */
  ghost predicate IdsAscending<T>(rows: seq<Row<T>>)
  {
    forall i, j :: 0 <= i < j < |rows| ==> rows[i].id < rows[j].id
  }

  /** The table's invariant: ids ascend, start at 1 (BIGSERIAL) and lie below the next id the sequence hands out. */
  ghost predicate ValidTable<T>(rows: seq<Row<T>>, nextId: int)
  {
    && IdsAscending(rows)
    && 1 <= nextId
    && (forall i :: 0 <= i < |rows| ==> 1 <= rows[i].id < nextId)
  }

  /** The WHERE clauses of the store's statements. `uuid = ?` never matches a row whose uuid is NULL. */
  datatype Where = IdAbove(offset: int) | UuidIs(uuid: Uuid) | UuidIsNot(other: Uuid)

  predicate Matches<T>(w: Where, row: Row<T>)
  {
    match w
    case IdAbove(offset) => row.id > offset
    case UuidIs(u) => row.uuid == Some(u)
    case UuidIsNot(u) => row.uuid != Some(u)
  }

  /** The rows a WHERE clause keeps, in table order. */
  function Select<T>(rows: seq<Row<T>>, w: Where): (r: seq<Row<T>>)
    ensures forall i :: 0 <= i < |r| ==> r[i] in rows && Matches(w, r[i])
    ensures forall i :: 0 <= i < |rows| && Matches(w, rows[i]) ==> rows[i] in r
    ensures |r| <= |rows|
  {
    if rows == [] then []
    else (if Matches(w, rows[0]) then [rows[0]] else []) + Select(rows[1..], w)
  }

  /** WHERE id > offset ORDER BY id: exactly the rows past the offset (in id order: SelectKeepsIdOrder). */
  function RowsAfter<T>(rows: seq<Row<T>>, offset: int): (r: seq<Row<T>>)
    ensures forall i :: 0 <= i < |r| ==> r[i] in rows && r[i].id > offset
    ensures forall i :: 0 <= i < |rows| && rows[i].id > offset ==> rows[i] in r
  {
    Select(rows, IdAbove(offset))
  }

  /** WHERE uuid = u ORDER BY id: exactly the rows of stream u. */
  function RowsOf<T>(rows: seq<Row<T>>, u: Uuid): (r: seq<Row<T>>)
    ensures forall i :: 0 <= i < |r| ==> r[i] in rows && r[i].uuid == Some(u)
    ensures forall i :: 0 <= i < |rows| && rows[i].uuid == Some(u) ==> rows[i] in r
  {
    Select(rows, UuidIs(u))
  }

  /** DELETE FROM ... WHERE uuid = u: exactly the rows of the other streams (and those without one) remain. */
  function RowsNotOf<T>(rows: seq<Row<T>>, u: Uuid): (r: seq<Row<T>>)
    ensures forall i :: 0 <= i < |r| ==> r[i] in rows && r[i].uuid != Some(u)
    ensures forall i :: 0 <= i < |rows| && rows[i].uuid != Some(u) ==> rows[i] in r
  {
    Select(rows, UuidIsNot(u))
  }

  /** SELECT count(*) ... WHERE uuid = u: the stream's version is the number of its rows. */
  function StreamVersion<T>(rows: seq<Row<T>>, u: Uuid): (n: nat)
    ensures n <= |rows|
  {
    if rows == [] then 0
    else (if rows[0].uuid == Some(u) then 1 else 0) + StreamVersion(rows[1..], u)
  }

  /** INSERT: a new row with the next BIGSERIAL id at the end of the table. */
  function Append<T>(rows: seq<Row<T>>, nextId: int, uuid: Option<Uuid>, data: T): (r: (seq<Row<T>>, int))
  {
    (rows + [Row(nextId, uuid, data)], nextId + 1)
  }

  /**
   * verifyStreamVersion: with a stream and an expected version other than -1,
   * the write may go on only when the expected version is the stream's row
   * count; otherwise it is a version mismatch carrying (expected, actual).
   */
  function CheckVersion<T>(rows: seq<Row<T>>, event: Event): (r: Option<Failure>)
    ensures r.None? <==>
      event.uuid.None? || event.expectedStreamVersion == ANY_VERSION
      || event.expectedStreamVersion == StreamVersion(rows, event.uuid.value)
    ensures r.Some? ==>
      r.value == VersionMismatch(event.expectedStreamVersion, StreamVersion(rows, event.uuid.value))
  {
    if event.uuid.Some? && event.expectedStreamVersion != ANY_VERSION then
      var actual := StreamVersion(rows, event.uuid.value);
      if event.expectedStreamVersion != actual then Some(VersionMismatch(event.expectedStreamVersion, actual))
      else None
    else None
  }

  /** A failure the store reports as it is. */
  predicate IsStoreFailure(f: Failure)
  {
    f.BrokenStore? || f.BrokenStoreMessage? || f.VersionMismatch?
  }

  /** writeTo's catch clauses: store failures pass through, anything else is wrapped as a broken store. */
  function ClassifyWriteFailure(f: Failure): (r: Failure)
    ensures IsStoreFailure(r)
    ensures IsStoreFailure(f) ==> r == f
    ensures !IsStoreFailure(f) ==> r == BrokenStore(f)
  {
    if IsStoreFailure(f) then f else BrokenStore(f)
  }

  /**
   * write: version check, then serialization, then insert. The table after a
   * failed write is the table before it.
   */
  function Write<T>(rows: seq<Row<T>>, nextId: int, event: Event, serialize: Event -> Result<T, Failure>)
    : (r: (Result<(), Failure>, seq<Row<T>>, int))
    ensures r.0.Failure? ==> r.1 == rows && r.2 == nextId
  {
    match CheckVersion(rows, event)
    case Some(mismatch) => (Failure(ClassifyWriteFailure(mismatch)), rows, nextId)
    case None =>
      match serialize(event)
      case Failure(f) => (Failure(ClassifyWriteFailure(f)), rows, nextId)
      case Success(data) =>
        var (rows', nextId') := Append(rows, nextId, event.uuid, data);
        (Success(()), rows', nextId')
  }

  // ---------------------------------------------------------------------------
  // Reading

  /** Reading a stream yields as many rows as its version counts. */
  lemma {:induction false} StreamVersionCountsRows<T>(rows: seq<Row<T>>, u: Uuid)
    ensures |RowsOf(rows, u)| == StreamVersion(rows, u)
  {
    if rows != [] {
      StreamVersionCountsRows(rows[1..], u);
    }
  }

  /** A stream's version is zero exactly when no row of the table belongs to it. */
  lemma {:induction false} StreamVersionZero<T>(rows: seq<Row<T>>, u: Uuid)
    ensures StreamVersion(rows, u) == 0 <==> forall i :: 0 <= i < |rows| ==> rows[i].uuid != Some(u)
  {
    if rows != [] {
      StreamVersionZero(rows[1..], u);
      assert forall i :: 1 <= i < |rows| ==> rows[i] == rows[1..][i - 1];
    }
  }

  lemma {:induction false} SelectConcat<T>(a: seq<Row<T>>, b: seq<Row<T>>, w: Where)
    ensures Select(a + b, w) == Select(a, w) + Select(b, w)
  {
    if a == [] {
      assert a + b == b;
    } else {
      assert (a + b)[1..] == a[1..] + b;
      SelectConcat(a[1..], b, w);
    }
  }

  lemma {:induction false} SelectAll<T>(rows: seq<Row<T>>, w: Where)
    requires forall i :: 0 <= i < |rows| ==> Matches(w, rows[i])
    ensures Select(rows, w) == rows
  {
    if rows != [] {
      SelectAll(rows[1..], w);
      assert rows == [rows[0]] + rows[1..];
    }
  }

  lemma {:induction false} SelectNone<T>(rows: seq<Row<T>>, w: Where)
    requires forall i :: 0 <= i < |rows| ==> !Matches(w, rows[i])
    ensures Select(rows, w) == []
  {
    if rows != [] {
      SelectNone(rows[1..], w);
    }
  }

  /** Filtering by a weaker clause first changes nothing. */
  lemma {:induction false} SelectOfSelect<T>(rows: seq<Row<T>>, outer: Where, inner: Where)
    requires forall i :: 0 <= i < |rows| && Matches(inner, rows[i]) ==> Matches(outer, rows[i])
    ensures Select(Select(rows, outer), inner) == Select(rows, inner)
  {
    if rows != [] {
      SelectOfSelect(rows[1..], outer, inner);
      var head := if Matches(outer, rows[0]) then [rows[0]] else [];
      SelectConcat(head, Select(rows[1..], outer), inner);
      if head != [] {
        assert head[1..] == [];
      }
    }
  }

  lemma {:induction false} IdsAbove<T>(rows: seq<Row<T>>, w: Where, bound: int)
    requires forall i :: 0 <= i < |rows| ==> rows[i].id > bound
    ensures forall i :: 0 <= i < |Select(rows, w)| ==> Select(rows, w)[i].id > bound
  {
    if rows != [] {
      IdsAbove(rows[1..], w, bound);
    }
  }

  /** A table in id order stays in id order without its first row, whose id is below all others. */
  lemma TailAscending<T>(rows: seq<Row<T>>)
    requires IdsAscending(rows) && rows != []
    ensures IdsAscending(rows[1..])
    ensures forall i :: 0 <= i < |rows[1..]| ==> rows[1..][i].id > rows[0].id
  {
    var tail := rows[1..];
    forall i, j | 0 <= i < j < |tail|
      ensures tail[i].id < tail[j].id
    {
      assert tail[i] == rows[i + 1] && tail[j] == rows[j + 1];
    }
    forall i | 0 <= i < |tail|
      ensures tail[i].id > rows[0].id
    {
      assert tail[i] == rows[i + 1];
    }
  }

  lemma ConsAscending<T>(row: Row<T>, rows: seq<Row<T>>)
    requires IdsAscending(rows)
    requires forall i :: 0 <= i < |rows| ==> rows[i].id > row.id
    ensures IdsAscending([row] + rows)
  {
    var r := [row] + rows;
    forall i, j | 0 <= i < j < |r|
      ensures r[i].id < r[j].id
    {
      assert r[j] == rows[j - 1];
      if i > 0 {
        assert r[i] == rows[i - 1];
      }
    }
  }

  /** ORDER BY id: on a table in id order, every selection is in id order too. */
  lemma {:induction false} SelectKeepsIdOrder<T>(rows: seq<Row<T>>, w: Where)
    requires IdsAscending(rows)
    ensures IdsAscending(Select(rows, w))
  {
    if rows != [] {
      TailAscending(rows);
      SelectKeepsIdOrder(rows[1..], w);
      IdsAbove(rows[1..], w, rows[0].id);
      if Matches(w, rows[0]) {
        ConsAscending(rows[0], Select(rows[1..], w));
      } else {
        assert Select(rows, w) == Select(rows[1..], w);
      }
    }
  }

  lemma {:induction false} StreamVersionConcat<T>(a: seq<Row<T>>, b: seq<Row<T>>, u: Uuid)
    ensures StreamVersion(a + b, u) == StreamVersion(a, u) + StreamVersion(b, u)
  {
    if a == [] {
      assert a + b == b;
    } else {
      assert (a + b)[1..] == a[1..] + b;
      StreamVersionConcat(a[1..], b, u);
    }
  }

  /** Reading from an offset skips a prefix of the table: the result is a suffix. */
  lemma {:induction false} RowsAfterIsSuffix<T>(rows: seq<Row<T>>, offset: int) returns (k: nat)
    requires IdsAscending(rows)
    ensures k <= |rows| && RowsAfter(rows, offset) == rows[k..]
    ensures forall i :: 0 <= i < k ==> rows[i].id <= offset
  {
    if rows == [] {
      k := 0;
    } else if rows[0].id > offset {
      forall i | 0 <= i < |rows|
        ensures Matches(IdAbove(offset), rows[i])
      {
        if i > 0 {
          assert rows[0].id < rows[i].id;
        }
      }
      SelectAll(rows, IdAbove(offset));
      k := 0;
    } else {
      var tail := rows[1..];
      TailAscending(rows);
      var k' := RowsAfterIsSuffix(tail, offset);
      k := k' + 1;
      assert tail[k'..] == rows[k..];
    }
  }

  /**
   * Tailing: a reader that remembers the last id it has seen, and reads again
   * after a write, gets exactly the rows it has not seen, in order.
   */
  lemma CatchUp<T>(rows: seq<Row<T>>, nextId: int, lastSeen: int, event: Event,
                   serialize: Event -> Result<T, Failure>)
    requires ValidTable(rows, nextId) && lastSeen < nextId
    requires Write(rows, nextId, event, serialize).0.Success?
    ensures RowsAfter(Write(rows, nextId, event, serialize).1, lastSeen)
         == RowsAfter(rows, lastSeen) + [Row(nextId, event.uuid, serialize(event).value)]
  {
    var row := Row(nextId, event.uuid, serialize(event).value);
    SelectConcat(rows, [row], IdAbove(lastSeen));
    assert [row][1..] == [];
  }

  // ---------------------------------------------------------------------------
  // Writing

  /**
   * The insert keeps every existing row and adds exactly one after them, whose
   * id is above every existing id; the sequence moves past it, so the table
   * stays valid.
   */
  lemma AppendKeepsTableValid<T>(rows: seq<Row<T>>, nextId: int, uuid: Option<Uuid>, data: T)
    requires ValidTable(rows, nextId)
    ensures forall i :: 0 <= i < |rows| ==> rows[i].id < nextId
    ensures var (r, n) := Append(rows, nextId, uuid, data);
      && |r| == |rows| + 1 && r[..|rows|] == rows && r[|rows|] == Row(nextId, uuid, data)
      && n > nextId
    ensures ValidTable(Append(rows, nextId, uuid, data).0, Append(rows, nextId, uuid, data).1)
  {
  }

  /** Every failure a write reports is a store failure: a broken store or a version mismatch. */
  lemma WriteFailsOnlyWithStoreFailures<T>(rows: seq<Row<T>>, nextId: int, event: Event,
                                           serialize: Event -> Result<T, Failure>)
    ensures var (r, _, _) := Write(rows, nextId, event, serialize);
      r.Failure? ==> IsStoreFailure(r.error)
    ensures var (r, _, _) := Write(rows, nextId, event, serialize);
      r.Failure? && serialize(event).Failure? && !r.error.VersionMismatch? ==>
        r.error == ClassifyWriteFailure(serialize(event).error)
  {
  }

  /**
   * A write without a stream, or with expected version -1, skips the check:
   * it can only fail by failing to serialize, and a serializer failure that is
   * not a store failure comes back wrapped as a broken store.
   */
  lemma UncheckedWriteNeverConflicts<T>(rows: seq<Row<T>>, nextId: int, event: Event,
                                        serialize: Event -> Result<T, Failure>)
    requires event.uuid.None? || event.expectedStreamVersion == ANY_VERSION
    ensures var (r, _, _) := Write(rows, nextId, event, serialize);
      r.Failure? ==> serialize(event).Failure? && r.error == ClassifyWriteFailure(serialize(event).error)
    ensures var (r, _, _) := Write(rows, nextId, event, serialize);
      r.Failure? && serialize(event).error.Serialization? ==> r.error == BrokenStore(serialize(event).error)
    ensures serialize(event).Success? ==> Write(rows, nextId, event, serialize).0.Success?
  {
  }

  /** A write whose expected version is not the stream's version fails with (expected, actual) and changes nothing. */
  lemma ConflictingWriteChangesNothing<T>(rows: seq<Row<T>>, nextId: int, event: Event,
                                          serialize: Event -> Result<T, Failure>)
    requires event.uuid.Some? && event.expectedStreamVersion != ANY_VERSION
    requires event.expectedStreamVersion != StreamVersion(rows, event.uuid.value)
    ensures Write(rows, nextId, event, serialize)
         == (Failure(VersionMismatch(event.expectedStreamVersion, StreamVersion(rows, event.uuid.value))), rows, nextId)
  {
  }

  /**
   * A write that passes the check and serializes appends exactly one row:
   * the event's stream and payload under an id above every existing id. The
   * table stays valid, the event's stream grows by one and every other stream
   * keeps its version and its rows.
   */
  lemma {:induction false} SuccessfulWriteAppendsOneRow<T>(rows: seq<Row<T>>, nextId: int, event: Event,
                                                          serialize: Event -> Result<T, Failure>)
    requires ValidTable(rows, nextId)
    requires CheckVersion(rows, event).None? && serialize(event).Success?
    ensures var (r, rows', nextId') := Write(rows, nextId, event, serialize);
      && r.Success?
      && rows' == rows + [Row(nextId, event.uuid, serialize(event).value)]
      && (forall i :: 0 <= i < |rows| ==> rows[i].id < nextId)
      && ValidTable(rows', nextId')
    ensures var (_, rows', _) := Write(rows, nextId, event, serialize);
      forall v :: StreamVersion(rows', v) == StreamVersion(rows, v) + (if event.uuid == Some(v) then 1 else 0)
    ensures var (_, rows', _) := Write(rows, nextId, event, serialize);
      forall v :: Some(v) != event.uuid ==> RowsOf(rows', v) == RowsOf(rows, v)
  {
    var row := Row(nextId, event.uuid, serialize(event).value);
    var rows' := rows + [row];
    AppendKeepsTableValid(rows, nextId, event.uuid, serialize(event).value);
    assert [row][1..] == [];
    forall v
      ensures StreamVersion(rows', v) == StreamVersion(rows, v) + (if event.uuid == Some(v) then 1 else 0)
      ensures Some(v) != event.uuid ==> RowsOf(rows', v) == RowsOf(rows, v)
    {
      StreamVersionConcat(rows, [row], v);
      SelectConcat(rows, [row], UuidIs(v));
    }
  }

  /**
   * Optimistic concurrency: two writers that read the same stream version v
   * and both write expecting v; whichever goes second fails with (v, v + 1).
   */
  lemma SecondWriterConflicts<T>(rows: seq<Row<T>>, nextId: int, first: Event, second: Event,
                                 serialize: Event -> Result<T, Failure>)
    requires ValidTable(rows, nextId)
    requires first.uuid.Some? && second.uuid == first.uuid
    requires first.expectedStreamVersion == second.expectedStreamVersion == StreamVersion(rows, first.uuid.value)
    requires serialize(first).Success?
    ensures var (r1, rows1, nextId1) := Write(rows, nextId, first, serialize);
      && r1.Success?
      && Write(rows1, nextId1, second, serialize).0
         == Failure(VersionMismatch(first.expectedStreamVersion, first.expectedStreamVersion + 1))
  {
    SuccessfulWriteAppendsOneRow(rows, nextId, first, serialize);
  }

  /**
   * The three-write scenario: E1 on stream A without a check, then E2 and E3
   * both expecting version 0. E1 sets A's version to 1, so E2 already fails
   * with (0, 1), and so does E3.
   */
  lemma ThreeWriteScenario<T>(a: Uuid, serialize: Event -> Result<T, Failure>)
    requires forall e :: serialize(e).Success?
    ensures var e1, e2, e3 := Event("E1", Some(a), ANY_VERSION), Event("E2", Some(a), 0), Event("E3", Some(a), 0);
      var (r1, rows1, next1) := Write([], 1, e1, serialize);
      var (r2, rows2, next2) := Write(rows1, next1, e2, serialize);
      var (r3, rows3, next3) := Write(rows2, next2, e3, serialize);
      && r1.Success? && StreamVersion(rows1, a) == 1
      && r2 == Failure(VersionMismatch(0, 1))
      && r3 == Failure(VersionMismatch(0, 1))
      && rows3 == rows1
  {
    var e1 := Event("E1", Some(a), ANY_VERSION);
    var rows1 := [Row(1, Some(a), serialize(e1).value)];
    assert rows1[1..] == [];
    assert StreamVersion(rows1, a) == 1;
  }

  // ---------------------------------------------------------------------------
  // Deleting

  /**
   * deleteBy: the stream is gone, every other stream keeps its rows, and the
   * table stays valid under the same next id, so deleted ids are never handed
   * out again.
   */
  lemma {:induction false} DeleteRemovesOnlyTheStream<T>(rows: seq<Row<T>>, nextId: int, u: Uuid)
    requires ValidTable(rows, nextId)
    ensures StreamVersion(RowsNotOf(rows, u), u) == 0 && RowsOf(RowsNotOf(rows, u), u) == []
    ensures forall v :: v != u ==> RowsOf(RowsNotOf(rows, u), v) == RowsOf(rows, v)
    ensures ValidTable(RowsNotOf(rows, u), nextId)
  {
    var r := RowsNotOf(rows, u);
    StreamVersionCountsRows(r, u);
    SelectNone(r, UuidIs(u));
    forall v | v != u
      ensures RowsOf(r, v) == RowsOf(rows, v)
    {
      SelectOfSelect(rows, UuidIsNot(u), UuidIs(v));
    }
    forall i | 0 <= i < |r|
      ensures 1 <= r[i].id < nextId
    {
      assert r[i] in rows;
    }
    SelectKeepsIdOrder(rows, UuidIsNot(u));
  }

  // ---------------------------------------------------------------------------
  // Decoding what a query returns

  /**
   * tryAdvance on one row: its payload deserialized into an event; any
   * failure on the way is wrapped as a broken store.
   */
  function ReadRow<T>(deserialize: T -> Result<Event, Failure>, row: Row<T>): (r: Result<Event, Failure>)
    ensures r.Success? <==> deserialize(row.data).Success?
    ensures r.Success? ==> r.value == deserialize(row.data).value
    ensures r.Failure? ==> r == Failure(BrokenStore(deserialize(row.data).error))
  {
    match deserialize(row.data)
    case Success(e) => Success(e)
    case Failure(f) => Failure(BrokenStore(f))
  }

  /**
   * Consuming a whole query result: every row's event in row order, or the
   * failure of the first row that does not deserialize, as a broken store
   * (DecodeAllFailsAtFirstBadRow).
   */
  function DecodeAll<T>(deserialize: T -> Result<Event, Failure>, rows: seq<Row<T>>): (r: Result<seq<Event>, Failure>)
    ensures r.Success? <==> forall i :: 0 <= i < |rows| ==> deserialize(rows[i].data).Success?
    ensures r.Success? ==>
      |r.value| == |rows| && forall i :: 0 <= i < |rows| ==> deserialize(rows[i].data) == Success(r.value[i])
    ensures r.Failure? ==> r.error.BrokenStore?
    decreases |rows|
  {
    if rows == [] then Success([])
    else
      var init := rows[..|rows| - 1];
      match DecodeAll(deserialize, init)
      case Failure(f) => Failure(f)
      case Success(events) =>
        match ReadRow(deserialize, rows[|rows| - 1])
        case Failure(f) => Failure(f)
        case Success(e) => Success(events + [e])
  }

  /** One more row: the outcome so far, extended by that row's. */
  lemma DecodeAllExtend<T>(deserialize: T -> Result<Event, Failure>, rows: seq<Row<T>>, row: Row<T>)
    ensures DecodeAll(deserialize, rows + [row]) ==
      match DecodeAll(deserialize, rows)
      case Failure(f) => Failure(f)
      case Success(events) =>
        match ReadRow(deserialize, row)
        case Failure(f) => Failure(f)
        case Success(e) => Success(events + [e])
  {
    assert (rows + [row])[..|rows|] == rows;
  }

  /** A failed read reports the first row that does not deserialize. */
  lemma {:induction false} DecodeAllFailsAtFirstBadRow<T>(deserialize: T -> Result<Event, Failure>, rows: seq<Row<T>>)
      returns (i: nat)
    requires DecodeAll(deserialize, rows).Failure?
    ensures i < |rows| && deserialize(rows[i].data).Failure?
    ensures forall j :: 0 <= j < i ==> deserialize(rows[j].data).Success?
    ensures DecodeAll(deserialize, rows) == Failure(BrokenStore(deserialize(rows[i].data).error))
    decreases |rows|
  {
    var init := rows[..|rows| - 1];
    if DecodeAll(deserialize, init).Failure? {
      i := DecodeAllFailsAtFirstBadRow(deserialize, init);
      assert rows[i] == init[i];
      assert forall j :: 0 <= j < i ==> rows[j] == init[j];
    } else {
      i := |rows| - 1;
      assert forall j :: 0 <= j < i ==> rows[j] == init[j];
    }
  }

  /** Once a row fails to deserialize, rows after it do not change the outcome. */
  lemma {:induction false} DecodeAllStopsAtFailure<T>(deserialize: T -> Result<Event, Failure>,
                                                      rows: seq<Row<T>>, more: seq<Row<T>>)
    requires DecodeAll(deserialize, rows).Failure?
    ensures DecodeAll(deserialize, rows + more) == DecodeAll(deserialize, rows)
    decreases |more|
  {
    if more == [] {
      assert rows + more == rows;
    } else {
      var init := more[..|more| - 1];
      DecodeAllStopsAtFailure(deserialize, rows, init);
      assert (rows + more)[..|rows + more| - 1] == rows + init;
    }
  }

  /**
   * Write, then read the stream: when the serializer round-trips the event,
   * reading the stream back gives the events it gave before, followed by the
   * new one.
   */
  lemma ReadBackAfterWrite<T>(rows: seq<Row<T>>, nextId: int, event: Event, u: Uuid,
                              serialize: Event -> Result<T, Failure>, deserialize: T -> Result<Event, Failure>)
    requires ValidTable(rows, nextId) && event.uuid == Some(u)
    requires Write(rows, nextId, event, serialize).0.Success?
    requires deserialize(serialize(event).value) == Success(event)
    requires DecodeAll(deserialize, RowsOf(rows, u)).Success?
    ensures DecodeAll(deserialize, RowsOf(Write(rows, nextId, event, serialize).1, u))
         == Success(DecodeAll(deserialize, RowsOf(rows, u)).value + [event])
  {
    var row := Row(nextId, event.uuid, serialize(event).value);
    SelectConcat(rows, [row], UuidIs(u));
    assert [row][1..] == [];
    assert RowsOf([row], u) == [row];
    DecodeAllExtend(deserialize, RowsOf(rows, u), row);
  }
}
