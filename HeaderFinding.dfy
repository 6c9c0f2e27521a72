/**
 * Reading the header from the event as the code is written. `nextValue()` is called
 * on the header line's iterator without asking `hasNextValue()` first. On a header
 * line that holds no row, such as an empty one, Jackson throws
 * `NoSuchElementException`. Neither the header's `catch` block nor the batch loop's
 * handles it, because both catch only `IOException`. The exception leaves the
 * processor and abandons the rest of the batch. The comment beside that call says
 * the intent is an empty header, so that every value gets a synthesized name. The
 * rest of the model uses that intended behaviour
 * (`CsvProcessor.ParseHeaderFromEventSourceKey`).
 */
module HeaderFinding {
  import opened Wrappers
  import opened FieldMapper
  import opened CsvProcessor

  /** The outcome of reading the header line: a header, or an exception no `catch` handles. */
  datatype HeaderRead = Header(names: seq<string>) | Escaped

  /** The header read from the event's header-source field, exactly as written. */
  function ParseHeaderFromEventSourceKeyAsWritten(config: Config, readRow: RowReader, schema: Schema,
                                                  fields: map<string, string>): (r: HeaderRead)
    requires HasHeaderSource(config, fields)
    ensures r.Escaped? <==> readRow(schema, fields[config.columnNamesSourceKey.value]).NoRow?
    ensures r.Header? ==> r.names == ParseHeaderFromEventSourceKey(config, readRow, schema, fields)
  {
    match readRow(schema, fields[config.columnNamesSourceKey.value])
    case Row(header) => Header(header)
    case NoRow => Escaped
    case Malformed => Header([])
  }

  /** One event processed as written: its new fields, or `None` when the exception escapes
      and the batch is abandoned. */
  function ProcessEventAsWritten(config: Config, readRow: RowReader, fields: map<string, string>)
    : Option<map<string, string>>
    requires config.source in fields
  {
    var hasHeaderSource := HasHeaderSource(config, fields);
    var schema := CreateCsvSchema(config);
    match readRow(schema, fields[config.source])
    case Malformed => Some(fields)
    case NoRow => Some(DeleteHeaderField(config, hasHeaderSource, fields))
    case Row(row) =>
      if hasHeaderSource then
        match ParseHeaderFromEventSourceKeyAsWritten(config, readRow, schema, fields)
        case Escaped => None
        case Header(header) => Some(DeleteHeaderField(config, true, ApplyPuts(fields, FieldPuts(header, row))))
      else
        var header := ParseHeader(config, readRow, schema, fields, false);
        Some(DeleteHeaderField(config, false, ApplyPuts(fields, FieldPuts(header, row))))
  }

  /** The source line has a row, the event carries the header source, and its line has no row. */
  predicate HeaderLineWithoutRow(config: Config, readRow: RowReader, fields: map<string, string>)
    requires config.source in fields
  {
    var schema := CreateCsvSchema(config);
    readRow(schema, fields[config.source]).Row? &&
    HasHeaderSource(config, fields) &&
    readRow(schema, fields[config.columnNamesSourceKey.value]).NoRow?
  }

  /** The code as written and the intended model differ exactly on events whose header line
      has no row. On those the written code throws. On every other event both give the same
      fields. */
  lemma AsWrittenAgreesUnlessHeaderLineWithoutRow(config: Config, readRow: RowReader, fields: map<string, string>)
    requires config.source in fields
    ensures ProcessEventAsWritten(config, readRow, fields).None? <==> HeaderLineWithoutRow(config, readRow, fields)
    ensures ProcessEventAsWritten(config, readRow, fields).Some? ==>
      ProcessEventAsWritten(config, readRow, fields).value == ProcessEvent(config, readRow, fields)
  {
  }

  /** The intended behaviour for a header line without a row: the header is empty; every
      value is written under its synthesized name. Only the deleted header-source field
      can hide such a value. */
  lemma NoRowHeaderAutoNames(config: Config, readRow: RowReader, fields: map<string, string>, i: nat)
    requires config.source in fields
    requires HeaderLineWithoutRow(config, readRow, fields)
    requires i < |readRow(CreateCsvSchema(config), fields[config.source]).values|
    requires !config.deleteHeader || GenerateColumnHeader(i) != config.columnNamesSourceKey.value
    ensures ResolvedHeader(config, readRow, fields) == []
    ensures GenerateColumnHeader(i) in ProcessEvent(config, readRow, fields)
    ensures ProcessEvent(config, readRow, fields)[GenerateColumnHeader(i)] ==
            readRow(CreateCsvSchema(config), fields[config.source]).values[i]
  {
    var row := readRow(CreateCsvSchema(config), fields[config.source]).values;
    AutoNamedValuesLand(fields, [], row, i);
  }
}
