/**
 * The PostgreSQL dialect: the DDL that creates the event store and the DML
 * templates the store provider runs. Each statement getter formats its
 * template once, with the schema prefix, and keeps the text in a field.
 */
module PostgresDialect {
  import opened Wrappers
  import opened Platform
  import opened StringFormat

  // DML templates; their one placeholder takes the schema prefix "<schema>.".
  const READ_EVENTS := Template(["SELECT * FROM ", "event_store WHERE id > ? ORDER BY id"])
  const READ_EVENTS_BY_STREAM := Template(["SELECT * FROM ", "event_store WHERE uuid = ? ORDER BY id"])
  const READ_EVENTS_STREAM_VERSION := Template(["SELECT count(*) FROM ", "event_store WHERE uuid = ?"])
  const READ_EVENTS_BY_STREAM_WITH_SKIP := Template(["SELECT * FROM ", "event_store WHERE uuid = ? ORDER BY id OFFSET ?"])
  const WRITE_EVENTS := Template(["INSERT INTO ", "event_store (uuid, data) VALUES (?, ?)"])
  const DELETE_EVENTS := Template(["DELETE FROM ", "event_store WHERE uuid = ?"])

  // DDL templates.
  const EVENT_CONTENT_NAME := "data"
  const CREATE_SCHEMA := Template(["CREATE SCHEMA IF NOT EXISTS ", ";"])
  const CREATE_TABLE := Template(["CREATE TABLE IF NOT EXISTS ",
    "event_store (id BIGSERIAL PRIMARY KEY, uuid UUID, " + EVENT_CONTENT_NAME + " ", " NOT NULL);"])
  const CREATE_INDEX := Template(["CREATE INDEX CONCURRENTLY IF NOT EXISTS uuid_idx ON ", "event_store (uuid NULLS LAST);"])

  /** A one-placeholder template whose text after the placeholder starts with the table name. */
  predicate TableFollowsPlaceholder(t: Template)
  {
    |t.parts| == 2 && "event_store" <= t.parts[1]
  }

  /** Every query template puts the table name right after its placeholder. */
  lemma QueryTemplatesNameTable()
    ensures TableFollowsPlaceholder(READ_EVENTS)
    ensures TableFollowsPlaceholder(READ_EVENTS_BY_STREAM)
    ensures TableFollowsPlaceholder(READ_EVENTS_STREAM_VERSION)
    ensures TableFollowsPlaceholder(READ_EVENTS_BY_STREAM_WITH_SKIP)
  {
  }

  /** So do the insert, the delete and the index DDL; only the schema and table DDL are shaped otherwise. */
  lemma UpdateTemplatesNameTable()
    ensures TableFollowsPlaceholder(WRITE_EVENTS)
    ensures TableFollowsPlaceholder(DELETE_EVENTS)
    ensures TableFollowsPlaceholder(CREATE_INDEX)
  {
  }

  class PostgresDdl {
    const schema: string
    var queryEvents: Option<string>
    var queryEventsByStream: Option<string>
    var queryEventsStreamVersion: Option<string>
    var queryEventsByStreamWithSkip: Option<string>
    var insertEvents: Option<string>
    var deleteEvents: Option<string>

    /** Every cached statement, once set, is its template formatted with the schema prefix. */
    ghost predicate Valid()
      reads this
    {
      && (queryEvents.Some? ==> queryEvents.value == Format(READ_EVENTS, [FormatSchema()]))
      && (queryEventsByStream.Some? ==> queryEventsByStream.value == Format(READ_EVENTS_BY_STREAM, [FormatSchema()]))
      && (queryEventsStreamVersion.Some? ==>
            queryEventsStreamVersion.value == Format(READ_EVENTS_STREAM_VERSION, [FormatSchema()]))
      && (queryEventsByStreamWithSkip.Some? ==>
            queryEventsByStreamWithSkip.value == Format(READ_EVENTS_BY_STREAM_WITH_SKIP, [FormatSchema()]))
      && (insertEvents.Some? ==> insertEvents.value == Format(WRITE_EVENTS, [FormatSchema()]))
      && (deleteEvents.Some? ==> deleteEvents.value == Format(DELETE_EVENTS, [FormatSchema()]))
    }

    constructor (schema: string)
      ensures this.schema == schema && Valid()
      ensures queryEvents == queryEventsByStream == queryEventsStreamVersion == None
      ensures queryEventsByStreamWithSkip == insertEvents == deleteEvents == None
    {
      this.schema := schema;
      queryEvents, queryEventsByStream, queryEventsStreamVersion := None, None, None;
      queryEventsByStreamWithSkip, insertEvents, deleteEvents := None, None, None;
    }

    /** The schema prefix that qualifies the table name. */
    function FormatSchema(): string
    {
      schema + "."
    }

    /**
     * formatSchema puts the schema and a dot before the placeholder, so a
     * template whose text after the placeholder starts with the table name
     * names schema.event_store once formatted.
     */
    lemma NamesQualifiedTable(t: Template)
      requires TableFollowsPlaceholder(t)
      ensures Contains(Format(t, [FormatSchema()]), schema + "." + "event_store")
    {
      FillBefore(t, FormatSchema(), "event_store");
    }

    /**
     * The DDL run at store construction: schema, then table, then index, each
     * guarded by IF NOT EXISTS so that re-running it is harmless. Only String
     * (TEXT column) and byte[] (BYTEA column) payloads are accepted, and the
     * payload column is the one EventContentName() names.
     */
    function CreateStore(contentType: JClass): (r: Result<string, Failure>)
      ensures r.Success? <==> contentType == STRING_CLASS || contentType == BYTE_ARRAY_CLASS
      ensures r.Failure? ==> r.error == IllegalArgument("Illegal type of content column: " + ClassToString(contentType))
      ensures r.Success? ==>
        r.value == ("CREATE SCHEMA IF NOT EXISTS " + schema + ";")
          + ("CREATE TABLE IF NOT EXISTS " + (schema + ".")
             + ("event_store (id BIGSERIAL PRIMARY KEY, uuid UUID, " + EventContentName() + " ")
             + (if contentType == STRING_CLASS then "TEXT" else "BYTEA") + " NOT NULL);")
          + ("CREATE INDEX CONCURRENTLY IF NOT EXISTS uuid_idx ON " + (schema + ".") + "event_store (uuid NULLS LAST);")
    {
      if contentType != STRING_CLASS && contentType != BYTE_ARRAY_CLASS then
        Failure(IllegalArgument("Illegal type of content column: " + ClassToString(contentType)))
      else
        var columnType := if contentType == STRING_CLASS then "TEXT" else "BYTEA";
        Fill1("CREATE SCHEMA IF NOT EXISTS ", ";", schema);
        Fill2("CREATE TABLE IF NOT EXISTS ", "event_store (id BIGSERIAL PRIMARY KEY, uuid UUID, " + EVENT_CONTENT_NAME + " ",
              " NOT NULL);", FormatSchema(), columnType);
        Fill1("CREATE INDEX CONCURRENTLY IF NOT EXISTS uuid_idx ON ", "event_store (uuid NULLS LAST);", FormatSchema());
        Success(Format(CREATE_SCHEMA, [schema]) + Format(CREATE_TABLE, [FormatSchema(), columnType])
                + Format(CREATE_INDEX, [FormatSchema()]))
    }

    /** The name of the payload column the provider reads events from. */
    function EventContentName(): string
    {
      EVENT_CONTENT_NAME
    }

    method InsertEvents() returns (s: string)
      requires Valid()
      modifies this`insertEvents
      ensures Valid() && insertEvents == Some(s)
      ensures old(insertEvents).Some? ==> s == old(insertEvents).value
      ensures s == "INSERT INTO " + FormatSchema() + "event_store (uuid, data) VALUES (?, ?)"
    {
      if insertEvents == None {
        insertEvents := Some(Format(WRITE_EVENTS, [FormatSchema()]));
      }
      s := insertEvents.value;
      Fill1("INSERT INTO ", "event_store (uuid, data) VALUES (?, ?)", FormatSchema());
    }

    method QueryEvents() returns (s: string)
      requires Valid()
      modifies this`queryEvents
      ensures Valid() && queryEvents == Some(s)
      ensures old(queryEvents).Some? ==> s == old(queryEvents).value
      ensures s == "SELECT * FROM " + FormatSchema() + "event_store WHERE id > ? ORDER BY id"
    {
      if queryEvents == None {
        queryEvents := Some(Format(READ_EVENTS, [FormatSchema()]));
      }
      s := queryEvents.value;
      Fill1("SELECT * FROM ", "event_store WHERE id > ? ORDER BY id", FormatSchema());
    }

    method DeleteEvents() returns (s: string)
      requires Valid()
      modifies this`deleteEvents
      ensures Valid() && deleteEvents == Some(s)
      ensures old(deleteEvents).Some? ==> s == old(deleteEvents).value
      ensures s == "DELETE FROM " + FormatSchema() + "event_store WHERE uuid = ?"
    {
      if deleteEvents == None {
        deleteEvents := Some(Format(DELETE_EVENTS, [FormatSchema()]));
      }
      s := deleteEvents.value;
      Fill1("DELETE FROM ", "event_store WHERE uuid = ?", FormatSchema());
    }

    method QueryEventsByUuid() returns (s: string)
      requires Valid()
      modifies this`queryEventsByStream
      ensures Valid() && queryEventsByStream == Some(s)
      ensures old(queryEventsByStream).Some? ==> s == old(queryEventsByStream).value
      ensures s == "SELECT * FROM " + FormatSchema() + "event_store WHERE uuid = ? ORDER BY id"
    {
      if queryEventsByStream == None {
        queryEventsByStream := Some(Format(READ_EVENTS_BY_STREAM, [FormatSchema()]));
      }
      s := queryEventsByStream.value;
      Fill1("SELECT * FROM ", "event_store WHERE uuid = ? ORDER BY id", FormatSchema());
    }

    method QueryEventsByUuidWithSkip() returns (s: string)
      requires Valid()
      modifies this`queryEventsByStreamWithSkip
      ensures Valid() && queryEventsByStreamWithSkip == Some(s)
      ensures old(queryEventsByStreamWithSkip).Some? ==> s == old(queryEventsByStreamWithSkip).value
      ensures s == "SELECT * FROM " + FormatSchema() + "event_store WHERE uuid = ? ORDER BY id OFFSET ?"
    {
      if queryEventsByStreamWithSkip == None {
        queryEventsByStreamWithSkip := Some(Format(READ_EVENTS_BY_STREAM_WITH_SKIP, [FormatSchema()]));
      }
      s := queryEventsByStreamWithSkip.value;
      Fill1("SELECT * FROM ", "event_store WHERE uuid = ? ORDER BY id OFFSET ?", FormatSchema());
    }

    method QueryEventsStreamVersion() returns (s: string)
      requires Valid()
      modifies this`queryEventsStreamVersion
      ensures Valid() && queryEventsStreamVersion == Some(s)
      ensures old(queryEventsStreamVersion).Some? ==> s == old(queryEventsStreamVersion).value
      ensures s == "SELECT count(*) FROM " + FormatSchema() + "event_store WHERE uuid = ?"
    {
      if queryEventsStreamVersion == None {
        queryEventsStreamVersion := Some(Format(READ_EVENTS_STREAM_VERSION, [FormatSchema()]));
      }
      s := queryEventsStreamVersion.value;
      Fill1("SELECT count(*) FROM ", "event_store WHERE uuid = ?", FormatSchema());
    }
  }
}
