/**
 * The CSV processor: for every event of a batch, split the line held in the
 * source field into values and merge them into the event as named fields,
 * with names taken from a header found in the event, from the configuration,
 * or synthesized from the value's position.
 *
 * The CSV tokenizer itself is a parameter (`RowReader`): it reads the first
 * row of a line under a schema and either yields that row, finds no row at
 * all (an empty line), or fails (the tokenizer's IOException).
 */
module CsvProcessor {
  import opened Wrappers
  import opened FieldMapper
  import opened Events

  /** The processor's configuration; `None` is a Java `null`. */
  datatype Config = Config(
    source: string,
    delimiter: char,
    quoteCharacter: char,
    columnNames: Option<seq<string>>,
    columnNamesSourceKey: Option<string>,
    deleteHeader: bool)

  /** The tokenizer schema: the column separator and the quote character. */
  datatype Schema = Schema(columnSeparator: char, quoteChar: char)

  /** What reading the first row of a line yields. */
  datatype Tokens =
    | Malformed                     // the tokenizer threw an IOException
    | NoRow                         // `hasNextValue()` is false: the line holds no row
    | Row(values: seq<string>)      // the first row's raw values

  /** The tokenizer, built once per batch and used for both the source and the header line. */
  type RowReader = (Schema, string) -> Tokens

  function CreateCsvSchema(config: Config): Schema
  {
    Schema(config.delimiter, config.quoteCharacter)
  }

  /** The header key is configured and the event carries it. */
  predicate HasHeaderSource(config: Config, fields: map<string, string>)
  {
    config.columnNamesSourceKey.Some? && config.columnNamesSourceKey.value in fields
  }

  /** The header read from the event's header-source field; a failed read falls back to no header. */
  function ParseHeaderFromEventSourceKey(config: Config, readRow: RowReader, schema: Schema,
                                         fields: map<string, string>): seq<string>
    requires HasHeaderSource(config, fields)
  {
    match readRow(schema, fields[config.columnNamesSourceKey.value])
    case Row(header) => header
    case NoRow => []
    case Malformed => []
  }

  /** The header for one event: from the event, else from the configuration, else empty. */
  function ParseHeader(config: Config, readRow: RowReader, schema: Schema,
                       fields: map<string, string>, thisEventHasHeaderSource: bool): seq<string>
    requires thisEventHasHeaderSource ==> HasHeaderSource(config, fields)
  {
    if thisEventHasHeaderSource then ParseHeaderFromEventSourceKey(config, readRow, schema, fields)
    else if config.columnNames.Some? then config.columnNames.value
    else []
  }

  /** The header an event's fields resolve to under a configuration. */
  function ResolvedHeader(config: Config, readRow: RowReader, fields: map<string, string>): seq<string>
  {
    ParseHeader(config, readRow, CreateCsvSchema(config), fields, HasHeaderSource(config, fields))
  }

  /** Removes the header-source field when the event carried it and deletion is configured. */
  function DeleteHeaderField(config: Config, thisEventHasHeaderSource: bool,
                             fields: map<string, string>): map<string, string>
    requires thisEventHasHeaderSource ==> config.columnNamesSourceKey.Some?
  {
    if thisEventHasHeaderSource && config.deleteHeader then fields - {config.columnNamesSourceKey.value}
    else fields
  }

  /** The fields of one event after the processor has handled it. */
  function ProcessEvent(config: Config, readRow: RowReader, fields: map<string, string>): map<string, string>
    requires config.source in fields
  {
    var hasHeaderSource := HasHeaderSource(config, fields);
    match readRow(CreateCsvSchema(config), fields[config.source])
    case Malformed => fields
    case NoRow => DeleteHeaderField(config, hasHeaderSource, fields)
    case Row(row) =>
      var header := ResolvedHeader(config, readRow, fields);
      DeleteHeaderField(config, hasHeaderSource, ApplyPuts(fields, FieldPuts(header, row)))
  }

  /** Writes `data` into the event, named by `header` as far as it reaches and by
      position after that. */
  method PutDataInEvent(event: Event, header: seq<string>, data: seq<string>)
    modifies event
    ensures event.fields == ApplyPuts(old(event.fields), FieldPuts(header, data))
  {
    ghost var initial := event.fields;
    var providedHeaderColIdx := 0;
    while providedHeaderColIdx < |header| && providedHeaderColIdx < |data|
      invariant providedHeaderColIdx <= |header| && providedHeaderColIdx <= |data|
      invariant event.fields == FirstPuts(initial, header, data, providedHeaderColIdx)
    {
      event.Put(header[providedHeaderColIdx], data[providedHeaderColIdx]);
      providedHeaderColIdx := providedHeaderColIdx + 1;
    }
    var remainingColIdx := providedHeaderColIdx;
    while remainingColIdx < |data|
      invariant providedHeaderColIdx <= remainingColIdx <= |data|
      invariant event.fields == FirstPuts(initial, header, data, remainingColIdx)
    {
      event.Put(GenerateColumnHeader(remainingColIdx), data[remainingColIdx]);
      remainingColIdx := remainingColIdx + 1;
    }
    FirstPutsComplete(initial, header, data);
  }

  /** Handles one event, as the body of the batch loop does: reads the source line, and
      unless the tokenizer fails, maps its row (if any) and then deletes the header-source
      field if the event carried it and deletion is configured. */
  method ProcessRecord(config: Config, readRow: RowReader, schema: Schema, event: Event)
    requires schema == CreateCsvSchema(config)
    requires config.source in event.fields
    modifies event
    ensures event.fields == ProcessEvent(config, readRow, old(event.fields))
  {
    var message := event.Get(config.source);
    var userDidSpecifyHeaderEventKey := config.columnNamesSourceKey.Some?;
    var thisEventHasHeaderSource := userDidSpecifyHeaderEventKey &&
                                    event.ContainsKey(config.columnNamesSourceKey.value);
    var messageRow := readRow(schema, message);
    if !messageRow.Malformed? {
      if messageRow.Row? {
        var header := ParseHeader(config, readRow, schema, event.fields, thisEventHasHeaderSource);
        PutDataInEvent(event, header, messageRow.values);
      }
      if thisEventHasHeaderSource && config.deleteHeader {
        event.Delete(config.columnNamesSourceKey.value);
      }
    }
  }

  /** Processes the batch in order, each event in place and independently of the others,
      with one schema for the whole batch; returns the batch itself. */
  method DoExecute(config: Config, readRow: RowReader, records: seq<Event>) returns (result: seq<Event>)
    requires forall i, j :: 0 <= i < j < |records| ==> records[i] != records[j]
    requires forall i :: 0 <= i < |records| ==> config.source in records[i].fields
    modifies records
    ensures result == records
    ensures forall i :: 0 <= i < |records| ==>
      records[i].fields == ProcessEvent(config, readRow, old(records[i].fields))
  {
    var schema := CreateCsvSchema(config);
    var k := 0;
    while k < |records|
      invariant k <= |records|
      invariant forall i :: 0 <= i < k ==>
        records[i].fields == ProcessEvent(config, readRow, old(records[i].fields))
      invariant forall i :: k <= i < |records| ==> records[i].fields == old(records[i].fields)
    {
      ProcessRecord(config, readRow, schema, records[k]);
      k := k + 1;
    }
    result := records;
  }
}
