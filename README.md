# jes event store — a Dafny model of its core

jes is an append-only event store for Java. Events are appended to a
single `event_store` table. Its columns are a `BIGSERIAL` id, which serves
as the global offset, a nullable stream `uuid`, and the serialized payload
`data`. This project models and proves the following parts:

- **The JDBC store provider** (`JdbcStoreProvider`):
  - `write` checks the stream version optimistically and then inserts.
    Failures are classified: broken-store and version-mismatch exceptions
    pass through, and everything else is wrapped as a broken store.
  - `readFrom(offset)` returns the rows with id strictly above the offset,
    in id order.
  - `readBy(uuid)` collects one stream.
  - `deleteBy(uuid)` removes one stream.
  - The forward-only stream reads one row per `tryAdvance`, and its quiet
    close releases the result set, the statement and the connection.
  - The constructor's failure wrapping.

  The table is held in the provider as a sequence of rows plus the next
  id. Each SQL statement's effect is a function of `EventTable`.
- **The SQL dialects** (`DDLFactory`, `PostgresDDL`, `H2DDL`):
  - dialect selection by exact product name;
  - the content-type check;
  - the `CREATE SCHEMA` / `CREATE TABLE` / `CREATE INDEX` text;
  - statement getters that format their template once and then keep it in
    a field.

  `String.format` is modelled for `%s` only, on templates kept as the
  literal text between their placeholders (`StringFormat`). The literal
  parts are those of the Java constants with each `%s` cut out.
- **The type discriminator**:
  - `TypeRegistry`: an alias map where the first registration of a type
    wins.
  - The Jackson serializer's type-id resolver: alias, else class name;
    inverse alias, else class-name resolution; a cache of constructed
    types that only grows.
  - How `serialize` and `deserialize` classify failures.

Layout:

| file | module |
|---|---|
| wrappers.dfy | `Option`, `Result` |
| platform.dfy | classes by name, class loading, `UUID`, the exception taxonomy |
| string_format.dfy | `%s` templates |
| postgres_ddl.dfy | `PostgresDialect` |
| h2_ddl.dfy | `H2Dialect` |
| ddl_factory.dfy | `DdlFactory` |
| type_registry.dfy | `TypeRegistry` |
| jackson_serializer.dfy | `JacksonSerializer` |
| event_table.dfy | `EventTable`: the table, its statements, the write path, and the specification lemmas |
| jdbc_store_provider.dfy | `JdbcStore`: resources, the event stream, the provider, and the constructor |

Two facts about the code that the model keeps, and that a reader might
not expect:

- A stream's version is its row count (`SELECT count(*)`,
  PostgresDDL.java:24, read at JdbcStoreProvider.java:144-150). Take three
  writes to one stream: E1 expecting -1, then E2 expecting 0, then E3
  expecting 0. E1 succeeds and leaves the version at 1, so E2 already
  conflicts with (0, 1), and so does E3. `EventTable.ThreeWriteScenario`
  proves this.
- Serializer and deserializer failures reach the caller wrapped as
  broken-store failures, not as serialization failures:
  - `writeTo` wraps a serializer failure as a broken store
    (JdbcStoreProvider.java:134-135);
  - `tryAdvance` wraps a deserializer failure as a broken store
    (JdbcStoreProvider.java:106-107).

  The serializer itself raises `SerializationException`
  (`JacksonSerializer.Serialize`).

## Model

| member | source | states |
|---|---|---|
| TypeRegistry.PutIfAbsent | src/main/java/io/jes/serializer/TypeRegistry.java:29-32 | An absent key gets the new value and null comes back. A present key keeps its value, the map is unchanged and the earlier value comes back. No other key changes. |
| TypeRegistry.TypeRegistry.AddAlias | src/main/java/io/jes/serializer/TypeRegistry.java:27-33 | A null type fails with "Type class must be provided" before the alias is looked at. A null alias fails with "Alias name must be provided". A failure leaves the map alone. Otherwise map and result are putIfAbsent's, and the map stays equal to the fold of all registrations so far. |
| TypeRegistry.TypeRegistry.GetAliases | src/main/java/io/jes/serializer/TypeRegistry.java:35-37 | Returns a map equal to the registry's. It is a value, so changing it cannot reach the registry. |
| TypeRegistry.FirstRegistrationWins | src/main/java/io/jes/serializer/TypeRegistry.java:17-33 | After any sequence of registrations, a type has an alias exactly when it was registered. Its alias is the one given at its first registration. |
| TypeRegistry.RegistrationsOnlyAdd | src/main/java/io/jes/serializer/TypeRegistry.java:17-37 | Later registrations never remove or replace an alias. |
| TypeRegistry.TypeRegistry.constructor | src/main/java/io/jes/serializer/TypeRegistry.java:14-17 | A new registry has no aliases. |
| JacksonSerializer.TypeId | src/main/java/io/jes/serializer/JacksonSerializer.java:97-101 | The id of a class is its registered alias, else its fully-qualified name. |
| JacksonSerializer.ResolveClass | src/main/java/io/jes/serializer/JacksonSerializer.java:105-110 | An id registered as an alias gives the aliased class without name resolution. Any other id succeeds exactly when the loader knows that name, and gives the very class the loader holds under it. Otherwise it fails with ClassNotFound(id). |
| JacksonSerializer.TypeIdRoundTrip | src/main/java/io/jes/serializer/JacksonSerializer.java:97-112 | With inverse alias maps, a class's id resolves back to that class. This holds when the class has an alias, or when the loader finds that class under its name and the name is not another class's alias. |
| JacksonSerializer.AliasShadowsClassName | src/main/java/io/jes/serializer/JacksonSerializer.java:106-110 | An alias equal to an unaliased class's name resolves to the aliased class, which is a different class. |
| JacksonSerializer.DefaultRoundTrip | src/main/java/io/jes/serializer/JacksonSerializer.java:80-82 | With the empty maps the serializer configures, a class round-trips exactly when the loader finds that class under its name. |
| JacksonSerializer.TypeIdResolver.Default | src/main/java/io/jes/serializer/JacksonSerializer.java:80-82 | The default resolver has no aliases and an empty cache. |
| JacksonSerializer.NewTypeIdResolver | src/main/java/io/jes/serializer/JacksonSerializer.java:85-89 | Either alias map null: NullPointerException. Otherwise the resolver holds both maps and an empty cache. |
| JacksonSerializer.TypeIdResolver.IdFromValueAndType | src/main/java/io/jes/serializer/JacksonSerializer.java:97-101 | A null suggested type fails with NullPointerException. Otherwise the id is the alias of the suggested type, else its name. |
| JacksonSerializer.TypeIdResolver.IdFromValue | src/main/java/io/jes/serializer/JacksonSerializer.java:92-94 | Delegates with the value's runtime class. A null value fails with NullPointerException. |
| JacksonSerializer.TypeIdResolver.TypeFromId | src/main/java/io/jes/serializer/JacksonSerializer.java:105-112 | Succeeds exactly when the id resolves, and the type's raw class is the resolved class. On failure the error is ClassNotFound and the cache is unchanged. The cache gains at most the resolved class's entry. An existing entry is returned as it is, and a new one is fresh. Every cached type belongs to its key. |
| JacksonSerializer.Serialize | src/main/java/io/jes/serializer/JacksonSerializer.java:56-62 | Success exactly when the mapper produces text. Every failure, IO or unchecked, becomes a SerializationException wrapping it. |
| JacksonSerializer.Deserialize | src/main/java/io/jes/serializer/JacksonSerializer.java:64-71 | Success exactly when the mapper produces a value. An IO failure becomes a SerializationException. Any other failure passes through unwrapped. |
| JacksonSerializer.SerializerRoundTrip | src/main/java/io/jes/serializer/JacksonSerializer.java:56-71 | A mapper whose read undoes its write gives deserialize(serialize(x)) == x. |
| DdlFactory.NewDdlProducer | src/main/java/io/jes/provider/jdbc/DDLFactory.java:15-23 | Succeeds exactly for the case-sensitive name "PostgreSQL", with a PostgreSQL dialect for the schema and nothing cached. Any other name fails with IllegalArgumentException "interface io.jes.provider.jdbc.DDLProducer for <name> type not supported". |
| PostgresDialect.PostgresDdl.constructor | src/main/java/io/jes/provider/jdbc/PostgresDDL.java:45-47 | Keeps the schema, and no statement is cached yet. |
| Platform.ClassToString | src/main/java/io/jes/provider/jdbc/PostgresDDL.java:52-53 | The type in createStore's message is printed as Class.toString() prints it: "interface " before an interface's name, "class " before any other class's name, and a primitive's bare name. |
| PostgresDialect.PostgresDdl.CreateStore | src/main/java/io/jes/provider/jdbc/PostgresDDL.java:51-62 | Only String and byte[] are accepted; any other type fails with "Illegal type of content column: " followed by the type's Class.toString() ("interface " or "class " before the name, the bare name for a primitive). The text is schema DDL, table DDL (TEXT or BYTEA payload column, named by EventContentName), then index DDL, each IF NOT EXISTS, with the schema prefix. |
| PostgresDialect.PostgresDdl.NamesQualifiedTable | src/main/java/io/jes/provider/jdbc/PostgresDDL.java:125-128 | formatSchema puts the schema and a dot before the placeholder. So any one-placeholder template whose text after the placeholder starts with the table name yields a statement containing "<schema>.event_store". |
| PostgresDialect.QueryTemplatesNameTable | src/main/java/io/jes/provider/jdbc/PostgresDDL.java:22-25 | Each of the four query templates has the table name right after its placeholder, so each formatted query reads from "<schema>.event_store". |
| PostgresDialect.UpdateTemplatesNameTable | src/main/java/io/jes/provider/jdbc/PostgresDDL.java:27-35 | The insert and delete templates, and the index DDL, have the table name right after the placeholder too. |
| PostgresDialect.PostgresDdl.InsertEvents | src/main/java/io/jes/provider/jdbc/PostgresDDL.java:72-77 | The insert statement with "<schema>." spliced in. The first call caches it, and later calls return the cached text unchanged. |
| PostgresDialect.PostgresDdl.QueryEvents | src/main/java/io/jes/provider/jdbc/PostgresDDL.java:81-86 | The read-all statement (id > ?, ORDER BY id), with the same caching. |
| PostgresDialect.PostgresDdl.DeleteEvents | src/main/java/io/jes/provider/jdbc/PostgresDDL.java:90-96 | The delete-by-stream statement, with the same caching. |
| PostgresDialect.PostgresDdl.QueryEventsByUuid | src/main/java/io/jes/provider/jdbc/PostgresDDL.java:100-105 | The by-stream statement (uuid = ?, ORDER BY id), with the same caching. |
| PostgresDialect.PostgresDdl.QueryEventsByUuidWithSkip | src/main/java/io/jes/provider/jdbc/PostgresDDL.java:109-114 | The by-stream statement with OFFSET, with the same caching. |
| PostgresDialect.PostgresDdl.QueryEventsStreamVersion | src/main/java/io/jes/provider/jdbc/PostgresDDL.java:118-123 | The count(*) by-stream statement, with the same caching. |
| H2Dialect.NewH2Ddl | src/main/java/io/jes/provider/jdbc/H2DDL.java:31-33 | A null schema fails with NullPointerException. Otherwise a dialect for the schema with nothing cached. |
| H2Dialect.H2Ddl.CreateStore | src/main/java/io/jes/provider/jdbc/H2DDL.java:37-48 | As for PostgreSQL, with a BLOB column for byte[] and an index without CONCURRENTLY or NULLS LAST. |
| H2Dialect.H2Ddl.NamesQualifiedTable | src/main/java/io/jes/provider/jdbc/H2DDL.java:101-104 | As for PostgreSQL: a template with the table name right after its placeholder yields a statement containing "<schema>.event_store". |
| H2Dialect.QueryTemplatesNameTable | src/main/java/io/jes/provider/jdbc/H2DDL.java:10-12 | Each of the three H2 query templates has the table name right after its placeholder. |
| H2Dialect.UpdateTemplatesNameTable | src/main/java/io/jes/provider/jdbc/H2DDL.java:13-21 | So do the H2 insert and delete templates, and its index DDL. |
| H2Dialect.H2Ddl.InsertEvents | src/main/java/io/jes/provider/jdbc/H2DDL.java:58-63 | The insert statement with the schema prefix, computed once and cached. |
| H2Dialect.H2Ddl.QueryEvents | src/main/java/io/jes/provider/jdbc/H2DDL.java:67-72 | The read-all statement, computed once and cached. |
| H2Dialect.H2Ddl.DeleteEvents | src/main/java/io/jes/provider/jdbc/H2DDL.java:76-81 | The delete statement, computed once and cached. |
| H2Dialect.H2Ddl.QueryEventsByUuid | src/main/java/io/jes/provider/jdbc/H2DDL.java:85-90 | The by-stream statement, computed once and cached. |
| H2Dialect.H2Ddl.QueryEventsStreamVersion | src/main/java/io/jes/provider/jdbc/H2DDL.java:94-99 | The version statement, computed once and cached. |
| H2Dialect.SameDmlAsPostgres | src/main/java/io/jes/provider/jdbc/H2DDL.java:10-16 | The five DML templates and the payload column name are the PostgreSQL ones, word for word. |
| StringFormat.FormatRestoresText | src/main/java/io/jes/provider/jdbc/PostgresDDL.java:58-120 | String.format puts each argument exactly where a "%s" stood: filling every placeholder with "%s" itself gives the template text back. |
| StringFormat.Fill1 | src/main/java/io/jes/provider/jdbc/PostgresDDL.java:58 | Formatting a one-placeholder template puts the argument where "%s" stood. |
| StringFormat.Fill2 | src/main/java/io/jes/provider/jdbc/PostgresDDL.java:59 | Formatting a two-placeholder template puts the arguments in order where the two "%s" stood. |
| EventTable.Select | src/main/java/io/jes/provider/jdbc/PostgresDDL.java:22-28 | A WHERE clause keeps exactly the rows it matches, each of them a row of the table, and never more rows than the table has. |
| EventTable.SelectConcat | src/main/java/io/jes/provider/jdbc/PostgresDDL.java:22-28 | Selecting from two runs of rows gives the selections of each run, in table order. |
| EventTable.SelectOfSelect | src/main/java/io/jes/provider/jdbc/PostgresDDL.java:23-28 | Selecting first by a weaker clause does not change a selection. This is why deleting one stream leaves the other streams' rows as they were. |
| EventTable.SelectKeepsIdOrder | src/main/java/io/jes/provider/jdbc/PostgresDDL.java:22-25 | ORDER BY id: on a table in id order, every selection is in id order too. |
| EventTable.RowsAfter | src/main/java/io/jes/provider/jdbc/PostgresDDL.java:22 | Exactly the rows with id above the offset, and nothing else. |
| EventTable.RowsOf | src/main/java/io/jes/provider/jdbc/PostgresDDL.java:23 | Exactly the rows of the stream, in table (id) order. |
| EventTable.RowsNotOf | src/main/java/io/jes/provider/jdbc/PostgresDDL.java:28 | Exactly the rows not of the stream, in table order. |
| EventTable.StreamVersion | src/main/java/io/jes/provider/JdbcStoreProvider.java:144-150 | The version count(*) returns is never more than the table's row count. |
| EventTable.StreamVersionZero | src/main/java/io/jes/provider/jdbc/PostgresDDL.java:24 | A stream's version is zero exactly when no row of the table belongs to it. |
| EventTable.StreamVersionCountsRows | src/main/java/io/jes/provider/jdbc/PostgresDDL.java:23-24 | The version query's count equals the number of rows the by-stream query returns. |
| EventTable.RowsAfterIsSuffix | src/main/java/io/jes/provider/JdbcStoreProvider.java:70-72 | On a table in id order, readFrom's rows are a suffix of the table, and every skipped row has id at most the offset. |
| EventTable.CatchUp | src/main/java/io/jes/provider/JdbcStoreProvider.java:70-72 | A reader that remembers the last id it saw gets, after a write, what it got before plus exactly the new row. |
| EventTable.CheckVersion | src/main/java/io/jes/provider/JdbcStoreProvider.java:140-157 | Passes exactly when the uuid is null, the expected version is -1, or it equals the stream's row count. Otherwise VersionMismatch(expected, actual). |
| EventTable.ClassifyWriteFailure | src/main/java/io/jes/provider/JdbcStoreProvider.java:132-136 | Broken-store and version-mismatch failures pass unchanged. Anything else becomes BrokenStore wrapping it. The result is always a store failure. |
| EventTable.Write | src/main/java/io/jes/provider/JdbcStoreProvider.java:119-137 | A failed write leaves the table and the id counter as they were. |
| EventTable.AppendKeepsTableValid | src/main/java/io/jes/provider/jdbc/PostgresDDL.java:27-33 | The INSERT keeps every row and adds exactly one after them, with the uuid and payload, under the next BIGSERIAL id. That id is above every existing id, the sequence moves past it, and the table stays valid. |
| EventTable.WriteFailsOnlyWithStoreFailures | src/main/java/io/jes/provider/JdbcStoreProvider.java:132-136 | Every failure of write is a broken store or a version mismatch. A serializer failure surfaces classified. |
| EventTable.UncheckedWriteNeverConflicts | src/main/java/io/jes/provider/JdbcStoreProvider.java:140-143 | With a null uuid or expected version -1, a write fails only through serialization, never with a version mismatch, and succeeds when serialization does. |
| EventTable.ConflictingWriteChangesNothing | src/main/java/io/jes/provider/JdbcStoreProvider.java:150-153 | An expected version other than the stream's count fails with (expected, actual), and nothing is inserted. |
| EventTable.SuccessfulWriteAppendsOneRow | src/main/java/io/jes/provider/JdbcStoreProvider.java:124-131 | A checked, serialized write appends exactly one row (uuid, payload), whose id is above every existing id. The table stays valid. The written stream's version grows by one, and every other stream keeps its version and its rows. |
| EventTable.SecondWriterConflicts | src/main/java/io/jes/provider/JdbcStoreProvider.java:144-153 | Two writers expecting the same version v of one stream: the first succeeds and the second fails with (v, v + 1). |
| EventTable.ThreeWriteScenario | src/main/java/io/jes/provider/JdbcStoreProvider.java:140-153 | E1 (-1), E2 (0), E3 (0) on one stream: E1 succeeds, E2 and E3 fail with (0, 1), and the table keeps only E1. |
| EventTable.DeleteRemovesOnlyTheStream | src/main/java/io/jes/provider/JdbcStoreProvider.java:160-166 | After deleteBy the stream is empty and every other stream has the same rows. The table stays valid under the same next id, so deleted ids are not handed out again. |
| EventTable.ReadRow | src/main/java/io/jes/provider/JdbcStoreProvider.java:104-107 | A row's event is its deserialized payload. A deserializer failure becomes BrokenStore wrapping it. |
| EventTable.DecodeAll | src/main/java/io/jes/provider/JdbcStoreProvider.java:94-112 | Consuming a result: success exactly when every row deserializes, with one event per row in row order. Otherwise the broken-store failure of the first failing row. |
| EventTable.DecodeAllFailsAtFirstBadRow | src/main/java/io/jes/provider/JdbcStoreProvider.java:104-107 | A failed read names a row that does not deserialize. Every row before it does. The failure is that row's, as a broken store. |
| EventTable.DecodeAllStopsAtFailure | src/main/java/io/jes/provider/JdbcStoreProvider.java:106-107 | Rows after a failing row do not change the outcome. |
| EventTable.ReadBackAfterWrite | src/main/java/io/jes/provider/JdbcStoreProvider.java:75-77 | After a successful write of an event that round-trips through the serializer, reading its stream gives the earlier events followed by the new one. |
| JdbcStore.Resource.Close | src/main/java/io/jes/provider/JdbcStoreProvider.java:176 | Closing is attempted, and the call is recorded at the end of the close log. A resource that does not fail on close is no longer open; one that fails raises an error and stays as it was. |
| JdbcStore.CloseQuietly | src/main/java/io/jes/provider/JdbcStoreProvider.java:172-182 | Close is called on every non-null resource, in order: the close log grows by exactly the non-null resources, in list order, even after one close fails. Each ends closed unless its close fails. Nothing is raised. |
| JdbcStore.EventStream.TryAdvance | src/main/java/io/jes/provider/JdbcStoreProvider.java:98-110 | At the end: no event, and the cursor stays. Otherwise the cursor moves one row and yields ReadRow of that row. |
| JdbcStore.EventStream.Collect | src/main/java/io/jes/provider/JdbcStoreProvider.java:76 | Collecting from the cursor yields DecodeAll of the remaining rows. On success the cursor is at the end. |
| JdbcStore.EventStream.Close | src/main/java/io/jes/provider/JdbcStoreProvider.java:111 | Close is called on the stream's result set, statement and connection, in that order, as the close log records. Each ends closed unless its close fails. |
| JdbcStore.JdbcStoreProvider.Write | src/main/java/io/jes/provider/JdbcStoreProvider.java:115-137 | The outcome and the new table are EventTable.Write's. The table invariant and the dialect cache invariant are kept. |
| JdbcStore.JdbcStoreProvider.ReadFrom | src/main/java/io/jes/provider/JdbcStoreProvider.java:70-72 | A fresh open stream at position 0 over exactly RowsAfter(offset). The table is unchanged. |
| JdbcStore.JdbcStoreProvider.OpenStream | src/main/java/io/jes/provider/JdbcStoreProvider.java:80-92 | Opens a fresh connection, statement and result set, and wraps the selected rows in a stream that owns them. |
| JdbcStore.JdbcStoreProvider.ReadByAsWritten | src/main/java/io/jes/provider/JdbcStoreProvider.java:75-77 | Returns the fresh stream it read: its rows are the stream's rows and the result is DecodeAll of them. That stream's connection, statement and result set are all still open, with no close attempted, when the call returns. |
| JdbcStore.JdbcStoreProvider.ReadBy | src/main/java/io/jes/provider/JdbcStoreProvider.java:75-77 | The same result from the same kind of fresh stream, with as many events as the stream's version. Close was called on that stream's result set, statement and connection, in that order, and none of them is open when the call returns, on success and on failure. |
| JdbcStore.JdbcStoreProvider.DeleteBy | src/main/java/io/jes/provider/JdbcStoreProvider.java:160-170 | The table becomes RowsNotOf(uuid), the next id is kept, and the table invariant holds. |
| JdbcStore.NewEventSerializer | src/main/java/io/jes/provider/JdbcStoreProvider.java:44 | The serializer factory serves exactly String and byte[] payloads and refuses any other type with IllegalArgumentException. |
| JdbcStore.Connect | src/main/java/io/jes/provider/JdbcStoreProvider.java:41-57 | Succeeds exactly when the content type is String or byte[], the schema is non-null and the product name is "PostgreSQL". The checks fail in that order, each as a BrokenStore wrapping the original exception: the serializer factory's IllegalArgumentException for any other content type, whatever the schema and name; then "Schema must not be null"; then the null name; then the unsupported database. createStore's content-type check is never reached with a refused type. On success an existing table is kept, and otherwise the table starts empty at id 1. |

## Left out

- JDBC plumbing: data sources, connections, prepared statements, parameter binding, result sets and SQL execution. The table is a sequence of rows, and each statement is the EventTable function named in event_table.dfy.
- JdbcStore.JdbcStoreProvider.OpenStream: the resources it opens never fail and always close cleanly. A failure to get a connection or run the query (wrapped as a broken store at JdbcStoreProvider.java:89-91) is not modelled. Close failures are modelled by `Resource` and `CloseQuietly` alone.
- JdbcStore.JdbcStoreProvider.Write: assumes no failure from the connection or the insert itself. Only the version check and the serializer can fail.
- JdbcStore.JdbcStoreProvider.DeleteBy: assumes no database failure, so the broken-store wrapping at JdbcStoreProvider.java:167-168 is not exercised.
- The "Can't read uuid version" branch (JdbcStoreProvider.java:147-149) is not modelled: count(*) always yields one row.
- tryAdvance reads the payload by column name (JdbcStoreProvider.java:104). The name is always "data", the payload column of CREATE TABLE, so the lookup is not modelled. The unchecked cast of the payload is not modelled either.
- Concurrency: the race between the version check and the insert, ConcurrentHashMap atomicity, and the meaning of CREATE INDEX CONCURRENTLY. Every operation runs alone.
- Ids and versions are unbounded integers: BIGSERIAL and long overflow are not modelled.
- JdbcStore.Connect: `requireNonNull(dataSource)` is not modelled. SerializerFactory.java is not part of this model, so the serializer pair is a parameter.
- JdbcStore.NewEventSerializer: the factory's accepted types (String and byte[]) and its refusal of others with IllegalArgumentException come from SerializerFactoryTest.java:25-38. The factory's own message text is not modelled: the refusal carries the type's Class.toString() in its place, and Connect's contract states only the exception's kind. Running the store DDL is modelled as "an existing table is kept, otherwise an empty one starts at id 1".
- The provider always holds the PostgreSQL dialect, the only one the factory creates. H2DDL is modelled on its own, since the factory never creates it.
- The source uses one name in the provider (`queryEventsByStream`, `eventContentName`, `newDataSourceSyntax`) and another in the dialects (`queryEventsByUuid`, `contentName`, `newDDLProducer`). The model matches them by role.
- Jackson internals: ObjectMapper configuration (`configureMapper`) and JSON encoding. The mapper is an abstract function that produces a value, an IO error or an unchecked error.
- Reflection: `Class.forName` is a lookup in a map from names to classes, and `TypeFactory.constructType` is a fresh `JavaType` for the class. The resolver's `DatabindContext` argument and `getMechanism` are not modelled.
- PostgresDialect.PostgresDdl.EventContentName and H2Dialect.H2Ddl.ContentName carry no contract of their own. The CreateStore contracts state that the payload column is the name they return.
- Logging (the provider's warnings, TypeRegistry's trace).
- RedissonSnapshotProvider, CommandHandler, NoopCommandBus, JEventStore and the DDLProducer interface are not part of this model.

## Findings

| source | as written | input that shows it | evidently intended | confidence | as-written member | corrected member |
|---|---|---|---|---|---|---|
| src/main/java/io/jes/provider/JdbcStoreProvider.java:75-77 | `readBy(uuid)` collects the stream into a list and never closes the stream. The close handler (:111) that releases the result set, statement and connection never runs, and a deserialization failure mid-stream leaks them the same way. | Any `readBy(uuid)`, including one on a stream with no events. The list comes back and the connection is still open. | The stream is closed once collected (try-with-resources), on success and on failure, as readFrom's callers must do. | high; not executed | JdbcStore.JdbcStoreProvider.ReadByAsWritten | JdbcStore.JdbcStoreProvider.ReadBy |
