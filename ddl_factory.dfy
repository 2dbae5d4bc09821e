/** Picks the SQL dialect for a database product name. */
module DdlFactory {
  import opened Wrappers
  import opened Platform
  import opened StringFormat
  import opened PostgresDialect

  const UNSUPPORTED_TYPE := Template(["", " for ", " type not supported"])

  /** DDLProducer.class, an interface. */
  const DDL_PRODUCER := JClass("io.jes.provider.jdbc.DDLProducer", Interface)

  /** DDLProducer.class.toString(), the first argument of the error message. */
  const DDL_PRODUCER_INTERFACE := ClassToString(DDL_PRODUCER)

  /**
   * Only the exact, case-sensitive product name "PostgreSQL" is supported; it
   * yields a fresh PostgreSQL dialect for the schema. Every other name, H2's
   * included, is refused with IllegalArgumentException.
   */
  method NewDdlProducer(databaseName: string, schema: string) returns (r: Result<PostgresDdl, Failure>)
    ensures r.Success? <==> databaseName == "PostgreSQL"
    ensures r.Success? ==> r.value.schema == schema && r.value.Valid()
    ensures r.Success? ==> r.value.queryEvents == r.value.queryEventsByStream == r.value.insertEvents == None
    ensures r.Success? ==> r.value.queryEventsStreamVersion == r.value.deleteEvents == None
    ensures r.Success? ==> r.value.queryEventsByStreamWithSkip == None
    ensures r.Failure? ==>
      r.error == IllegalArgument(DDL_PRODUCER_INTERFACE + " for " + databaseName + " type not supported")
  {
    if databaseName == "PostgreSQL" {
      var ddl := new PostgresDdl(schema);
      return Success(ddl);
    } else {
      Fill2("", " for ", " type not supported", DDL_PRODUCER_INTERFACE, databaseName);
      assert "" + DDL_PRODUCER_INTERFACE == DDL_PRODUCER_INTERFACE;
      return Failure(IllegalArgument(Format(UNSUPPORTED_TYPE, [DDL_PRODUCER_INTERFACE, databaseName])));
    }
  }
}
