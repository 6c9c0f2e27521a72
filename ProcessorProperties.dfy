/**
 * What the CSV processor promises about one event: which header it uses,
 * which fields it writes, which it leaves alone, when the header-source
 * field goes away, and what a second run does.
 */
module ProcessorProperties {
  import opened Wrappers
  import opened FieldMapper
  import opened CsvProcessor

  /** The three tiers of header resolution, strictly in this order. */
  lemma HeaderPriority(config: Config, readRow: RowReader, fields: map<string, string>)
    ensures HasHeaderSource(config, fields) ==>
      var tokens := readRow(CreateCsvSchema(config), fields[config.columnNamesSourceKey.value]);
      ResolvedHeader(config, readRow, fields) == (if tokens.Row? then tokens.values else [])
    ensures !HasHeaderSource(config, fields) && config.columnNames.Some? ==>
      ResolvedHeader(config, readRow, fields) == config.columnNames.value
    ensures !HasHeaderSource(config, fields) && config.columnNames.None? ==>
      ResolvedHeader(config, readRow, fields) == []
  {
  }

  /** When the event carries its own header the configured column names play no part. */
  lemma EventHeaderOverridesColumnNames(config: Config, readRow: RowReader, fields: map<string, string>,
                                        columnNames: Option<seq<string>>)
    requires HasHeaderSource(config, fields)
    ensures ResolvedHeader(config.(columnNames := columnNames), readRow, fields) ==
            ResolvedHeader(config, readRow, fields)
  {
  }

  /** A header-source field that fails to tokenize is not an error: the values are named
      exactly as if no header had been configured at all, and the field is still deleted
      when deletion is configured. */
  lemma MalformedHeaderActsAsUnconfigured(config: Config, readRow: RowReader, fields: map<string, string>)
    requires config.source in fields
    requires HasHeaderSource(config, fields)
    requires readRow(CreateCsvSchema(config), fields[config.columnNamesSourceKey.value]).Malformed?
    requires readRow(CreateCsvSchema(config), fields[config.source]).Row?
    ensures var unconfigured := config.(columnNames := None, columnNamesSourceKey := None);
      ProcessEvent(config, readRow, fields) ==
        DeleteHeaderField(config, true, ProcessEvent(unconfigured, readRow, fields))
  {
  }

  /** A source line the tokenizer rejects leaves the event entirely as it was,
      header-source field included. */
  lemma MalformedSourceLeavesEventUnchanged(config: Config, readRow: RowReader, fields: map<string, string>)
    requires config.source in fields
    requires readRow(CreateCsvSchema(config), fields[config.source]).Malformed?
    ensures ProcessEvent(config, readRow, fields) == fields
  {
  }

  /** A source line without a row injects nothing; only the header-source field may go. */
  lemma EmptySourceOnlyDeletesHeader(config: Config, readRow: RowReader, fields: map<string, string>)
    requires config.source in fields
    requires readRow(CreateCsvSchema(config), fields[config.source]).NoRow?
    ensures ProcessEvent(config, readRow, fields) ==
      if HasHeaderSource(config, fields) && config.deleteHeader
      then fields - {config.columnNamesSourceKey.value}
      else fields
  {
  }

  /** Whenever the source line was read without error, a header-source field the event
      carried is gone afterwards if deletion is configured, whatever the header parse gave. */
  lemma HeaderSourceDeleted(config: Config, readRow: RowReader, fields: map<string, string>)
    requires config.source in fields
    requires !readRow(CreateCsvSchema(config), fields[config.source]).Malformed?
    requires HasHeaderSource(config, fields) && config.deleteHeader
    ensures config.columnNamesSourceKey.value !in ProcessEvent(config, readRow, fields)
  {
  }

  /** The header-source key the processor removes from these fields, if any. */
  function Removed(config: Config, fields: map<string, string>): set<string>
  {
    if HasHeaderSource(config, fields) && config.deleteHeader then {config.columnNamesSourceKey.value} else {}
  }

  /** A source line that yields a row: the event gains exactly the written names (less a
      deleted header-source key), every field not written keeps its value, and every value
      past the header lands under its absolute, 1-based synthesized name. */
  lemma RowMergedIntoEvent(config: Config, readRow: RowReader, fields: map<string, string>)
    requires config.source in fields
    requires readRow(CreateCsvSchema(config), fields[config.source]).Row?
    ensures
      var row := readRow(CreateCsvSchema(config), fields[config.source]).values;
      var header := ResolvedHeader(config, readRow, fields);
      var written := Names(FieldPuts(header, row));
      var result := ProcessEvent(config, readRow, fields);
      && result.Keys == (fields.Keys + written) - Removed(config, fields)
      && (forall key :: key in fields && key !in written && key !in Removed(config, fields) ==>
            key in result && result[key] == fields[key])
      && (forall i :: |header| <= i < |row| && GenerateColumnHeader(i) !in Removed(config, fields) ==>
            GenerateColumnHeader(i) in result && result[GenerateColumnHeader(i)] == row[i])
  {
    var row := readRow(CreateCsvSchema(config), fields[config.source]).values;
    var header := ResolvedHeader(config, readRow, fields);
    var puts := FieldPuts(header, row);
    var merged := ApplyPuts(fields, puts);
    ApplyPutsKeys(fields, puts);
    forall key | key in fields && key !in Names(puts)
      ensures key in merged && merged[key] == fields[key]
    {
      ApplyPutsUntouched(fields, puts, key);
    }
    forall i | |header| <= i < |row|
      ensures GenerateColumnHeader(i) in merged && merged[GenerateColumnHeader(i)] == row[i]
    {
      AutoNamedValuesLand(fields, header, row, i);
    }
  }

  /** Running the processor again on its own output changes nothing, provided the first
      run left the source field and the header-source field as they were (so in particular
      did not delete the header-source field). */
  lemma ProcessEventIdempotent(config: Config, readRow: RowReader, fields: map<string, string>)
    requires config.source in fields
    requires var result := ProcessEvent(config, readRow, fields);
      config.source in result && result[config.source] == fields[config.source]
    requires var result := ProcessEvent(config, readRow, fields);
      config.columnNamesSourceKey.Some? ==>
        var key := config.columnNamesSourceKey.value;
        (key in result <==> key in fields) && (key in fields ==> result[key] == fields[key])
    ensures ProcessEvent(config, readRow, ProcessEvent(config, readRow, fields)) ==
            ProcessEvent(config, readRow, fields)
  {
    var result := ProcessEvent(config, readRow, fields);
    assert HasHeaderSource(config, result) == HasHeaderSource(config, fields);
    match readRow(CreateCsvSchema(config), fields[config.source])
    case Malformed =>
    case NoRow =>
    case Row(row) =>
      var header := ResolvedHeader(config, readRow, fields);
      assert ResolvedHeader(config, readRow, result) == header;
      ApplyPutsIdempotent(fields, FieldPuts(header, row));
  }
}
