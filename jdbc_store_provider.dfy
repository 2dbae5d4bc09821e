/**
 * The JDBC store provider over the event_store table: it writes with an
 * optimistic version check, reads through a forward-only stream that owns
 * its connection, statement and result set, and deletes whole streams. The
 * table lives in the provider as rows and the next BIGSERIAL id; the meaning
 * of each statement is the matching function of EventTable.
 */
module JdbcStore {
  import opened Wrappers
  import opened Platform
  import opened EventTable
  import opened PostgresDialect
  import opened DdlFactory

  /**
   * The close() calls made so far, in call order. Only Resource.Close adds to
   * it; it is a record for the proofs and is not part of the program's state.
   */
  class CloseLog {
    ghost var calls: seq<Resource>

    ghost constructor ()
      ensures calls == []
    {
      calls := [];
    }
  }

  /** A connection, statement or result set, and what closing it does. */
  class Resource {
    /** Whether close() throws. */
    const failsOnClose: bool
    var open: bool
    var closeAttempted: bool

    constructor (failsOnClose: bool)
      ensures this.failsOnClose == failsOnClose && open && !closeAttempted
    {
      this.failsOnClose := failsOnClose;
      open := true;
      closeAttempted := false;
    }

    /** AutoCloseable.close: releases the resource, or throws and leaves it as it was. */
    method Close(ghost log: CloseLog) returns (r: Option<Failure>)
      modifies this, log
      ensures log.calls == old(log.calls) + [this]
      ensures closeAttempted
      ensures open == (old(open) && failsOnClose)
      ensures r.Some? <==> failsOnClose
      ensures r.Some? ==> r.value.Sql?
    {
      log.calls := log.calls + [this];
      closeAttempted := true;
      if failsOnClose {
        return Some(Sql("close failed"));
      }
      open := false;
      return None;
    }
  }

  /** The non-null entries, in order. */
  function NonNull(resources: seq<Resource?>): (r: seq<Resource>)
    ensures |r| <= |resources|
  {
    if resources == [] then []
    else
      var last := resources[|resources| - 1];
      NonNull(resources[..|resources| - 1]) + (if last == null then [] else [last])
  }

  /**
   * closeQuietly: calls close on every non-null resource, in order, goes on
   * after a close that throws, and never throws itself.
   */
  method CloseQuietly(resources: seq<Resource?>, ghost log: CloseLog)
    modifies set x: Resource | x in resources
    modifies log
    ensures log.calls == old(log.calls) + NonNull(resources)
    ensures forall i :: 0 <= i < |resources| && resources[i] != null ==>
      resources[i].closeAttempted && resources[i].open == (old(resources[i].open) && resources[i].failsOnClose)
  {
    ghost var done: set<Resource> := {};
    var k := 0;
    while k < |resources|
      invariant 0 <= k <= |resources|
      invariant log.calls == old(log.calls) + NonNull(resources[..k])
      invariant forall i :: 0 <= i < k && resources[i] != null ==> resources[i] in done
      invariant forall x: Resource :: x in done ==> x in resources
      invariant forall x: Resource :: x in done ==>
        x.closeAttempted && x.open == (old(x.open) && x.failsOnClose)
      invariant forall i :: 0 <= i < |resources| && resources[i] != null && resources[i] !in done ==>
        resources[i].closeAttempted == old(resources[i].closeAttempted) && resources[i].open == old(resources[i].open)
    {
      var resource := resources[k];
      assert resources[..k + 1][..k] == resources[..k];
      if resource != null {
        var error := resource.Close(log);
        // A close failure is logged and dropped.
        done := done + {resource};
      }
      k := k + 1;
    }
    assert resources[..k] == resources;
  }

  /** One step of collecting: the row at the cursor extends the result, or its failure ends it. */
  lemma CollectStep<T>(deserialize: T -> Result<Event, Failure>, rows: seq<Row<T>>, start: nat, at: nat,
                       events: seq<Event>)
    requires start <= at < |rows| && DecodeAll(deserialize, rows[start..at]) == Success(events)
    ensures ReadRow(deserialize, rows[at]).Success? ==>
      DecodeAll(deserialize, rows[start..at + 1]) == Success(events + [ReadRow(deserialize, rows[at]).value])
    ensures ReadRow(deserialize, rows[at]).Failure? ==>
      DecodeAll(deserialize, rows[start..]) == Failure(ReadRow(deserialize, rows[at]).error)
  {
    var prefix := rows[start..at];
    var row := rows[at];
    var read := rows[start..at + 1];
    assert read == prefix + [row];
    DecodeAllExtend(deserialize, prefix, row);
    if ReadRow(deserialize, row).Failure? {
      assert DecodeAll(deserialize, read) == Failure(ReadRow(deserialize, row).error);
      DecodeAllStopsAtFailure(deserialize, read, rows[at + 1..]);
      assert read + rows[at + 1..] == rows[start..];
    }
  }

  /**
   * The stream readFrom returns: a forward-only cursor over the rows the query
   * selected, which owns the result set, statement and connection it came
   * from until it is closed.
   */
  class EventStream<T> {
    const rows: seq<Row<T>>
    const deserialize: T -> Result<Event, Failure>
    var position: nat
    const resultSet: Resource
    const statement: Resource
    const connection: Resource

    ghost predicate Valid()
      reads this
    {
      position <= |rows|
    }

    constructor (rows: seq<Row<T>>, deserialize: T -> Result<Event, Failure>,
                 resultSet: Resource, statement: Resource, connection: Resource)
      ensures Valid() && position == 0
      ensures this.rows == rows && this.deserialize == deserialize
      ensures this.resultSet == resultSet && this.statement == statement && this.connection == connection
    {
      this.rows := rows;
      this.deserialize := deserialize;
      position := 0;
      this.resultSet := resultSet;
      this.statement := statement;
      this.connection := connection;
    }

    /**
     * tryAdvance: no event once the rows are exhausted; otherwise the cursor
     * moves past the next row, whose event is produced, or whose failure is
     * raised as a broken store.
     */
    method TryAdvance() returns (r: Result<Option<Event>, Failure>)
      requires Valid()
      modifies this`position
      ensures Valid()
      ensures old(position) == |rows| ==> r == Success(None) && position == old(position)
      ensures old(position) < |rows| ==>
        && position == old(position) + 1
        && r == (match ReadRow(deserialize, rows[old(position)])
                 case Success(e) => Success(Some(e))
                 case Failure(f) => Failure(f))
    {
      if position == |rows| {
        return Success(None);
      }
      var row := rows[position];
      position := position + 1;
      match ReadRow(deserialize, row)
      case Success(e) => r := Success(Some(e));
      case Failure(f) => r := Failure(f);
    }

    /** Collectors.toList: advances until the rows run out or a row fails. */
    method Collect() returns (r: Result<seq<Event>, Failure>)
      requires Valid()
      modifies this`position
      ensures Valid()
      ensures r == DecodeAll(deserialize, rows[old(position)..])
      ensures r.Success? ==> position == |rows|
    {
      var start := position;
      var events: seq<Event> := [];
      while true
        invariant start <= position <= |rows|
        invariant DecodeAll(deserialize, rows[start..position]) == Success(events)
        decreases |rows| - position
      {
        var before := position;
        var next := TryAdvance();
        if next.Success? && next.value.None? {
          assert rows[start..position] == rows[start..];
          return Success(events);
        }
        CollectStep(deserialize, rows, start, before, events);
        if next.Failure? {
          return Failure(next.error);
        }
        events := events + [next.value.value];
      }
    }

    /** onClose: closes the result set, the statement and the connection, in that order, quietly. */
    method Close(ghost log: CloseLog)
      modifies resultSet, statement, connection, log
      ensures log.calls == old(log.calls) + [resultSet, statement, connection]
      ensures resultSet.closeAttempted && resultSet.open == (old(resultSet.open) && resultSet.failsOnClose)
      ensures statement.closeAttempted && statement.open == (old(statement.open) && statement.failsOnClose)
      ensures connection.closeAttempted && connection.open == (old(connection.open) && connection.failsOnClose)
    {
      var owned: seq<Resource?> := [resultSet, statement, connection];
      CloseQuietly(owned, log);
      assert owned[0] == resultSet && owned[1] == statement && owned[2] == connection;
      assert NonNull(owned) == [resultSet, statement, connection] by {
        var first: seq<Resource?> := [resultSet];
        var two: seq<Resource?> := [resultSet, statement];
        assert first[..0] == [];
        assert NonNull(first) == [resultSet];
        assert two[..1] == first;
        assert NonNull(two) == [resultSet, statement];
        assert owned[..2] == two;
      }
    }
  }

  /** The store provider: the table, the dialect that names its statements, and the event serializer. */
  class JdbcStoreProvider<T> {
    var rows: seq<Row<T>>
    var nextId: int
    const ddl: PostgresDdl
    const serialize: Event -> Result<T, Failure>
    const deserialize: T -> Result<Event, Failure>

    ghost predicate Valid()
      reads this, ddl
    {
      ddl.Valid() && ValidTable(rows, nextId)
    }

    constructor (ddl: PostgresDdl, rows: seq<Row<T>>, nextId: int,
                 serialize: Event -> Result<T, Failure>, deserialize: T -> Result<Event, Failure>)
      requires ddl.Valid() && ValidTable(rows, nextId)
      ensures Valid()
      ensures this.ddl == ddl && this.rows == rows && this.nextId == nextId
      ensures this.serialize == serialize && this.deserialize == deserialize
    {
      this.ddl := ddl;
      this.rows := rows;
      this.nextId := nextId;
      this.serialize := serialize;
      this.deserialize := deserialize;
    }

    /**
     * write: version check (only for an event with a stream and an expected
     * version other than -1), then serialization, then the insert; the table
     * and the failure are those EventTable.Write describes.
     */
    method Write(event: Event) returns (r: Result<(), Failure>)
      requires Valid()
      modifies this, ddl
      ensures Valid()
      ensures (r, rows, nextId) == EventTable.Write(old(rows), old(nextId), event, serialize)
    {
      var insert := ddl.InsertEvents();
      if event.uuid.Some? && event.expectedStreamVersion != ANY_VERSION {
        var versionQuery := ddl.QueryEventsStreamVersion();
        var actual := StreamVersion(rows, event.uuid.value);
        if event.expectedStreamVersion != actual {
          assert CheckVersion(rows, event) == Some(VersionMismatch(event.expectedStreamVersion, actual));
          return Failure(VersionMismatch(event.expectedStreamVersion, actual));
        }
      }
      assert CheckVersion(rows, event).None?;
      var data := serialize(event);
      if data.Failure? {
        return Failure(ClassifyWriteFailure(data.error));
      }
      AppendKeepsTableValid(rows, nextId, event.uuid, data.value);
      var (rows', nextId') := Append(rows, nextId, event.uuid, data.value);
      rows, nextId := rows', nextId';
      return Success(());
    }

    /** readFrom: an open stream over the rows with id above the offset, in id order. */
    method ReadFrom(offset: int) returns (s: EventStream<T>)
      requires Valid()
      modifies ddl
      ensures Valid() && rows == old(rows) && nextId == old(nextId)
      ensures fresh(s) && fresh(s.resultSet) && fresh(s.statement) && fresh(s.connection)
      ensures s.Valid() && s.position == 0 && s.deserialize == deserialize
      ensures s.rows == RowsAfter(rows, offset)
      ensures s.resultSet.open && s.statement.open && s.connection.open
    {
      var query := ddl.QueryEvents();
      s := OpenStream(RowsAfter(rows, offset));
    }

    method OpenStream(selected: seq<Row<T>>) returns (s: EventStream<T>)
      ensures fresh(s) && fresh(s.resultSet) && fresh(s.statement) && fresh(s.connection)
      ensures s.Valid() && s.position == 0 && s.rows == selected && s.deserialize == deserialize
      ensures s.resultSet.open && s.statement.open && s.connection.open
      ensures !s.resultSet.failsOnClose && !s.statement.failsOnClose && !s.connection.failsOnClose
      ensures !s.resultSet.closeAttempted && !s.statement.closeAttempted && !s.connection.closeAttempted
    {
      var connection := new Resource(false);
      var statement := new Resource(false);
      var resultSet := new Resource(false);
      s := new EventStream(selected, deserialize, resultSet, statement, connection);
    }

    /**
     * readBy(uuid) as written: the stream's events are collected into a list
     * and the stream is never closed, so its connection, statement and result
     * set are still open when the call returns, on success and on failure alike.
     */
    method ReadByAsWritten(uuid: Uuid) returns (r: Result<seq<Event>, Failure>, ghost s: EventStream<T>)
      requires Valid()
      modifies ddl
      ensures Valid() && rows == old(rows) && nextId == old(nextId)
      ensures fresh(s) && fresh(s.resultSet) && fresh(s.statement) && fresh(s.connection)
      ensures s.rows == RowsOf(rows, uuid) && r == DecodeAll(deserialize, s.rows)
      ensures s.connection.open && !s.connection.closeAttempted
      ensures s.statement.open && !s.statement.closeAttempted
      ensures s.resultSet.open && !s.resultSet.closeAttempted
    {
      var query := ddl.QueryEventsByUuid();
      var stream := OpenStream(RowsOf(rows, uuid));
      r := stream.Collect();
      s := stream;
    }

    /**
     * readBy(uuid), corrected: the same list, and the stream is closed once
     * it has been consumed, whether or not a row failed: close is called on
     * its result set, statement and connection, in that order, and each is
     * released.
     */
    method ReadBy(uuid: Uuid) returns (r: Result<seq<Event>, Failure>, ghost s: EventStream<T>, ghost log: CloseLog)
      requires Valid()
      modifies ddl
      ensures Valid() && rows == old(rows) && nextId == old(nextId)
      ensures fresh(s) && fresh(s.resultSet) && fresh(s.statement) && fresh(s.connection)
      ensures s.rows == RowsOf(rows, uuid) && r == DecodeAll(deserialize, s.rows)
      ensures r.Success? ==> |r.value| == StreamVersion(rows, uuid)
      ensures fresh(log) && log.calls == [s.resultSet, s.statement, s.connection]
      ensures !s.connection.open && !s.statement.open && !s.resultSet.open
    {
      var query := ddl.QueryEventsByUuid();
      var stream := OpenStream(RowsOf(rows, uuid));
      r := stream.Collect();
      log := new CloseLog();
      stream.Close(log);
      s := stream;
      StreamVersionCountsRows(rows, uuid);
    }

    /** deleteBy: every row of the stream is removed; other rows, and the next id, stay as they were. */
    method DeleteBy(uuid: Uuid)
      requires Valid()
      modifies this, ddl
      ensures Valid()
      ensures rows == RowsNotOf(old(rows), uuid) && nextId == old(nextId)
    {
      var delete := ddl.DeleteEvents();
      DeleteRemovesOnlyTheStream(rows, nextId, uuid);
      rows := RowsNotOf(rows, uuid);
    }
  }

  /**
   * SerializerFactory.newEventSerializer, the constructor's first step: it
   * serves String and byte[] payloads and refuses any other type with
   * IllegalArgumentException. SerializerFactory.java is not part of this
   * model, so the refusal carries the type's Class.toString() in place of
   * the factory's own message.
   */
  function NewEventSerializer(contentType: JClass): (r: Option<Failure>)
    ensures r.None? <==> contentType == STRING_CLASS || contentType == BYTE_ARRAY_CLASS
    ensures r.Some? ==> r.value.IllegalArgument?
  {
    if contentType == STRING_CLASS || contentType == BYTE_ARRAY_CLASS then None
    else Some(IllegalArgument(ClassToString(contentType)))
  }

  /**
   * The provider's constructor. The serializer factory must accept the
   * content type; then the connection's schema must not be null, and the
   * product name must not be null and must be PostgreSQL. Any of these
   * failures surfaces as a broken store wrapping it, the first one in that
   * order. createStore then accepts the content type, the factory having
   * accepted it. The store DDL only creates what is missing, so an existing
   * table is kept as it is; otherwise the table starts empty with the id
   * sequence at 1.
   */
  method Connect<T>(schema: Option<string>, databaseName: Option<string>, contentType: JClass,
                    existing: Option<(seq<Row<T>>, int)>,
                    serialize: Event -> Result<T, Failure>, deserialize: T -> Result<Event, Failure>)
    returns (r: Result<JdbcStoreProvider<T>, Failure>)
    requires existing.Some? ==> ValidTable(existing.value.0, existing.value.1)
    ensures r.Success? <==>
      && schema.Some? && databaseName == Some("PostgreSQL")
      && (contentType == STRING_CLASS || contentType == BYTE_ARRAY_CLASS)
    ensures r.Failure? ==> r.error.BrokenStore?
    ensures contentType != STRING_CLASS && contentType != BYTE_ARRAY_CLASS ==>
      r.Failure? && r.error.BrokenStore? && r.error.cause.IllegalArgument?
    ensures (contentType == STRING_CLASS || contentType == BYTE_ARRAY_CLASS) && schema.None? ==>
      r == Failure(BrokenStore(NullPointer(Some("Schema must not be null"))))
    ensures (contentType == STRING_CLASS || contentType == BYTE_ARRAY_CLASS) && schema.Some? && databaseName.None? ==>
      r == Failure(BrokenStore(NullPointer(None)))
    ensures (contentType == STRING_CLASS || contentType == BYTE_ARRAY_CLASS)
            && schema.Some? && databaseName.Some? && databaseName.value != "PostgreSQL" ==>
      r == Failure(BrokenStore(IllegalArgument(
        DDL_PRODUCER_INTERFACE + " for " + databaseName.value + " type not supported")))
    ensures r.Success? ==>
      && r.value.Valid()
      && r.value.ddl.schema == schema.value
      && (r.value.rows, r.value.nextId) == (if existing.Some? then existing.value else ([], 1))
      && r.value.serialize == serialize && r.value.deserialize == deserialize
  {
    var refused := NewEventSerializer(contentType);
    if refused.Some? {
      return Failure(BrokenStore(refused.value));
    }
    if schema.None? {
      return Failure(BrokenStore(NullPointer(Some("Schema must not be null"))));
    }
    if databaseName.None? {
      return Failure(BrokenStore(NullPointer(None)));
    }
    var producer := NewDdlProducer(databaseName.value, schema.value);
    if producer.Failure? {
      return Failure(BrokenStore(producer.error));
    }
    var ddl := producer.value;
    var store := ddl.CreateStore(contentType);
    assert store.Success?;
    var (rows, nextId) := if existing.Some? then existing.value else ([], 1);
    var provider := new JdbcStoreProvider(ddl, rows, nextId, serialize, deserialize);
    return Success(provider);
  }
}
