/**
 * The H2 dialect. Its DML templates are the PostgreSQL ones; its DDL stores
 * binary payloads as BLOB and builds a plain index (no CONCURRENTLY, no
 * NULLS LAST). Statement getters format once and cache, as in PostgreSQL.
 */
module H2Dialect {
  import opened Wrappers
  import opened Platform
  import opened StringFormat
  import PostgresDialect

  const READ_EVENTS := Template(["SELECT * FROM ", "event_store WHERE id > ? ORDER BY id"])
  const READ_EVENTS_BY_STREAM := Template(["SELECT * FROM ", "event_store WHERE uuid = ? ORDER BY id"])
  const READ_EVENTS_STREAM_VERSION := Template(["SELECT count(*) FROM ", "event_store WHERE uuid = ?"])
  const WRITE_EVENTS := Template(["INSERT INTO ", "event_store (uuid, data) VALUES (?, ?)"])
  const DELETE_EVENTS := Template(["DELETE FROM ", "event_store WHERE uuid = ?"])

  const CONTENT_NAME := "data"
  const CREATE_SCHEMA := Template(["CREATE SCHEMA IF NOT EXISTS ", ";"])
  const CREATE_TABLE := Template(["CREATE TABLE IF NOT EXISTS ",
    "event_store (id BIGSERIAL PRIMARY KEY, uuid UUID, " + CONTENT_NAME + " ", " NOT NULL);"])
  const CREATE_INDEX := Template(["CREATE INDEX IF NOT EXISTS uuid_idx ON ", "event_store (uuid);"])

  /** The constructor's null check: a missing schema raises NullPointerException before any field is set. */
  method NewH2Ddl(schema: Option<string>) returns (r: Result<H2Ddl, Failure>)
    ensures r.Failure? <==> schema.None?
    ensures r.Failure? ==> r.error == NullPointer(None)
    ensures r.Success? ==> r.value.schema == schema.value && r.value.Valid()
    ensures r.Success? ==> r.value.queryEvents == r.value.insertEvents == r.value.deleteEvents == None
    ensures r.Success? ==> r.value.queryEventsByStream == r.value.queryEventsStreamVersion == None
  {
    if schema.None? {
      return Failure(NullPointer(None));
    }
    var ddl := new H2Ddl(schema.value);
    return Success(ddl);
  }

  /** Every query template puts the table name right after its placeholder. */
  lemma QueryTemplatesNameTable()
    ensures PostgresDialect.TableFollowsPlaceholder(READ_EVENTS)
    ensures PostgresDialect.TableFollowsPlaceholder(READ_EVENTS_BY_STREAM)
    ensures PostgresDialect.TableFollowsPlaceholder(READ_EVENTS_STREAM_VERSION)
  {
  }

  /** So do the insert, the delete and the index DDL; only the schema and table DDL are shaped otherwise. */
  lemma UpdateTemplatesNameTable()
    ensures PostgresDialect.TableFollowsPlaceholder(WRITE_EVENTS)
    ensures PostgresDialect.TableFollowsPlaceholder(DELETE_EVENTS)
    ensures PostgresDialect.TableFollowsPlaceholder(CREATE_INDEX)
  {
  }

  class H2Ddl {
    const schema: string
    var queryEvents: Option<string>
    var queryEventsByStream: Option<string>
    var queryEventsStreamVersion: Option<string>
    var insertEvents: Option<string>
    var deleteEvents: Option<string>

    /** Every cached statement, once set, is its template formatted with the schema prefix. */
    ghost predicate Valid()
      reads this
    {
      && (queryEvents.Some? ==> queryEvents.value == Format(READ_EVENTS, [FormatSchema()]))
      && (queryEventsByStream.Some? ==> queryEventsByStream.value == Format(READ_EVENTS_BY_STREAM, [FormatSchema()]))
      && (queryEventsStreamVersion.Some? ==>
            queryEventsStreamVersion.value == Format(READ_EVENTS_STREAM_VERSION, [FormatSchema()]))
      && (insertEvents.Some? ==> insertEvents.value == Format(WRITE_EVENTS, [FormatSchema()]))
      && (deleteEvents.Some? ==> deleteEvents.value == Format(DELETE_EVENTS, [FormatSchema()]))
    }

    constructor (schema: string)
      ensures this.schema == schema && Valid()
      ensures queryEvents == queryEventsByStream == queryEventsStreamVersion == None
      ensures insertEvents == deleteEvents == None
    {
      this.schema := schema;
      queryEvents, queryEventsByStream, queryEventsStreamVersion := None, None, None;
      insertEvents, deleteEvents := None, None;
    }

    function FormatSchema(): string
    {
      schema + "."
    }

    /**
     * formatSchema puts the schema and a dot before the placeholder, so a
     * template whose text after the placeholder starts with the table name
     * names schema.event_store once formatted.
     */
    lemma NamesQualifiedTable(t: Template)
      requires PostgresDialect.TableFollowsPlaceholder(t)
      ensures Contains(Format(t, [FormatSchema()]), schema + "." + "event_store")
    {
      FillBefore(t, FormatSchema(), "event_store");
    }

    /**
     * Schema, then table, then index DDL, each IF NOT EXISTS. String payloads
     * get a TEXT column and byte[] payloads a BLOB column; any other type is refused.
     */
    function CreateStore(contentType: JClass): (r: Result<string, Failure>)
      ensures r.Success? <==> contentType == STRING_CLASS || contentType == BYTE_ARRAY_CLASS
      ensures r.Failure? ==> r.error == IllegalArgument("Illegal type of content column: " + ClassToString(contentType))
      ensures r.Success? ==>
        r.value == ("CREATE SCHEMA IF NOT EXISTS " + schema + ";")
          + ("CREATE TABLE IF NOT EXISTS " + (schema + ".")
             + ("event_store (id BIGSERIAL PRIMARY KEY, uuid UUID, " + ContentName() + " ")
             + (if contentType == STRING_CLASS then "TEXT" else "BLOB") + " NOT NULL);")
          + ("CREATE INDEX IF NOT EXISTS uuid_idx ON " + (schema + ".") + "event_store (uuid);")
    {
      if contentType != STRING_CLASS && contentType != BYTE_ARRAY_CLASS then
        Failure(IllegalArgument("Illegal type of content column: " + ClassToString(contentType)))
      else
        var columnType := if contentType == STRING_CLASS then "TEXT" else "BLOB";
        Fill1("CREATE SCHEMA IF NOT EXISTS ", ";", schema);
        Fill2("CREATE TABLE IF NOT EXISTS ", "event_store (id BIGSERIAL PRIMARY KEY, uuid UUID, " + CONTENT_NAME + " ",
              " NOT NULL);", FormatSchema(), columnType);
        Fill1("CREATE INDEX IF NOT EXISTS uuid_idx ON ", "event_store (uuid);", FormatSchema());
        Success(Format(CREATE_SCHEMA, [schema]) + Format(CREATE_TABLE, [FormatSchema(), columnType])
                + Format(CREATE_INDEX, [FormatSchema()]))
    }

    function ContentName(): string
    {
      CONTENT_NAME
    }

    method InsertEvents() returns (s: string)
      requires Valid()
      modifies this`insertEvents
      ensures Valid() && insertEvents == Some(s)
      ensures old(insertEvents).Some? ==> s == old(insertEvents).value
      ensures s == "INSERT INTO " + FormatSchema() + "event_store (uuid, data) VALUES (?, ?)"
    {
      if insertEvents == None {
        insertEvents := Some(Format(WRITE_EVENTS, [FormatSchema()]));
      }
      s := insertEvents.value;
      Fill1("INSERT INTO ", "event_store (uuid, data) VALUES (?, ?)", FormatSchema());
    }

    method QueryEvents() returns (s: string)
      requires Valid()
      modifies this`queryEvents
      ensures Valid() && queryEvents == Some(s)
      ensures old(queryEvents).Some? ==> s == old(queryEvents).value
      ensures s == "SELECT * FROM " + FormatSchema() + "event_store WHERE id > ? ORDER BY id"
    {
      if queryEvents == None {
        queryEvents := Some(Format(READ_EVENTS, [FormatSchema()]));
      }
      s := queryEvents.value;
      Fill1("SELECT * FROM ", "event_store WHERE id > ? ORDER BY id", FormatSchema());
    }

    method DeleteEvents() returns (s: string)
      requires Valid()
      modifies this`deleteEvents
      ensures Valid() && deleteEvents == Some(s)
      ensures old(deleteEvents).Some? ==> s == old(deleteEvents).value
      ensures s == "DELETE FROM " + FormatSchema() + "event_store WHERE uuid = ?"
    {
      if deleteEvents == None {
        deleteEvents := Some(Format(DELETE_EVENTS, [FormatSchema()]));
      }
      s := deleteEvents.value;
      Fill1("DELETE FROM ", "event_store WHERE uuid = ?", FormatSchema());
    }

    method QueryEventsByUuid() returns (s: string)
      requires Valid()
      modifies this`queryEventsByStream
      ensures Valid() && queryEventsByStream == Some(s)
      ensures old(queryEventsByStream).Some? ==> s == old(queryEventsByStream).value
      ensures s == "SELECT * FROM " + FormatSchema() + "event_store WHERE uuid = ? ORDER BY id"
    {
      if queryEventsByStream == None {
        queryEventsByStream := Some(Format(READ_EVENTS_BY_STREAM, [FormatSchema()]));
      }
      s := queryEventsByStream.value;
      Fill1("SELECT * FROM ", "event_store WHERE uuid = ? ORDER BY id", FormatSchema());
    }

    method QueryEventsStreamVersion() returns (s: string)
      requires Valid()
      modifies this`queryEventsStreamVersion
      ensures Valid() && queryEventsStreamVersion == Some(s)
      ensures old(queryEventsStreamVersion).Some? ==> s == old(queryEventsStreamVersion).value
      ensures s == "SELECT count(*) FROM " + FormatSchema() + "event_store WHERE uuid = ?"
    {
      if queryEventsStreamVersion == None {
        queryEventsStreamVersion := Some(Format(READ_EVENTS_STREAM_VERSION, [FormatSchema()]));
      }
      s := queryEventsStreamVersion.value;
      Fill1("SELECT count(*) FROM ", "event_store WHERE uuid = ?", FormatSchema());
    }
  }

  /** The five DML templates are word for word the PostgreSQL ones, and so is the payload column. */
  lemma SameDmlAsPostgres()
    ensures READ_EVENTS == PostgresDialect.READ_EVENTS
    ensures READ_EVENTS_BY_STREAM == PostgresDialect.READ_EVENTS_BY_STREAM
    ensures READ_EVENTS_STREAM_VERSION == PostgresDialect.READ_EVENTS_STREAM_VERSION
    ensures WRITE_EVENTS == PostgresDialect.WRITE_EVENTS
    ensures DELETE_EVENTS == PostgresDialect.DELETE_EVENTS
    ensures CONTENT_NAME == PostgresDialect.EVENT_CONTENT_NAME
  {
  }
}
