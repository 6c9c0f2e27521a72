# CSV processor of Data Prepper, modelled in Dafny

Data Prepper's `csv` processor reads one line of delimited text from a field of each event,
splits it into values and writes the values back into the event as named fields. This
project models that processor (`CSVProcessor.java`) and proves what it does on every
input.

- **Field mapper** (`FieldMapper`, `Decimal`). `PutDataInEvent` runs the source's two index
  loops over an `Event` object. Its contract ties the new fields to `FieldPuts(header, row)`,
  the ordered list of writes, applied by `ApplyPuts`. `FieldPuts` is the zip of header and
  row followed by the positionally named tail. `GenerateColumnHeader(i)` is
  `"column"` followed by the decimal digits of `i + 1`.
- **Header resolver** (`CsvProcessor.ParseHeader`, `ParseHeaderFromEventSourceKey`). Both are
  pure functions over the event's fields and the configuration.
- **Orchestrator** (`CsvProcessor.DoExecute`, `ProcessRecord`). A loop over a sequence of
  `Event` objects, each changed in place. Each event ends up with
  `ProcessEvent(config, readRow, old fields)`.
- **Header read as written** (`HeaderFinding`). The code reads the header line without first
  asking whether it has a row. This module models that code and its exception. The rest of the
  model uses the intended empty header (see Findings).
- **Tokenizer**. Jackson's `CsvMapper` with the schema built from the configured separator
  and quote character is foreign code. Here it is the parameter `readRow: (Schema, string) -> Tokens`.
  `Tokens` is `Malformed` (the `IOException`), `NoRow` (`hasNextValue()` is false) or
  `Row(values)` (the first row). The same reader is used for the source line and for the
  header line, as in the source. `Rfc4180` is a separate reference tokenizer that follows
  rules 5 to 7 of section 2 of RFC 4180 (quoted fields, embedded delimiters, doubled
  quotes). `Scenarios` states the processor's end-to-end results with that tokenizer on concrete events.

The event is a `map<string, string>` held in the `fields` of an `Event` object. The
configuration is a `Config` value, and a Java `null` is `None`.

The model follows the code (`CSVProcessor.java:56-71`). A source line whose tokenization throws leaves the event entirely
unchanged. Its header-source field is NOT deleted, because the delete sits inside the same
`try` as the read. The decision to delete depends on whether the header-source key was present
before any value was written (line 54). So a header name that equals the header-source key
creates a field that is then not deleted.

## Model

| member | source | states |
|---|---|---|
| `CsvProcessor.DoExecute` | data-prepper-plugins/csv-processor/src/main/java/com/amazon/dataprepper/plugins/processor/csv/CSVProcessor.java:44-73 | returns the same batch (same events, same order); every event ends as `ProcessEvent` of its own old fields, independently of the others |
| `CsvProcessor.ProcessRecord` | data-prepper-plugins/csv-processor/src/main/java/com/amazon/dataprepper/plugins/processor/csv/CSVProcessor.java:50-71 | one loop body changes only its event, leaving it as `ProcessEvent` of the old fields |
| `CsvProcessor.PutDataInEvent` | data-prepper-plugins/csv-processor/src/main/java/com/amazon/dataprepper/plugins/processor/csv/CSVProcessor.java:134-142 | after the two loops the event's fields are the old fields with the writes of `FieldPuts(header, data)` applied in order |
| `CsvProcessor.ProcessEvent` | data-prepper-plugins/csv-processor/src/main/java/com/amazon/dataprepper/plugins/processor/csv/CSVProcessor.java:50-71 | definition: one event's new fields (source line malformed: unchanged; no row: only the header delete; a row: the writes, then the header delete); its properties are the `ProcessorProperties` rows, and `ProcessRecord` is proved against it |
| `CsvProcessor.CreateCsvSchema` | data-prepper-plugins/csv-processor/src/main/java/com/amazon/dataprepper/plugins/processor/csv/CSVProcessor.java:97-101 | definition: the schema holds the configured separator and quote character; used by `ProcessEvent` and `DoExecute` |
| `CsvProcessor.ParseHeader` | data-prepper-plugins/csv-processor/src/main/java/com/amazon/dataprepper/plugins/processor/csv/CSVProcessor.java:104-116 | definition: the three-way choice of header; its properties are `HeaderPriority` and `EventHeaderOverridesColumnNames` |
| `CsvProcessor.ParseHeaderFromEventSourceKey` | data-prepper-plugins/csv-processor/src/main/java/com/amazon/dataprepper/plugins/processor/csv/CSVProcessor.java:118-132 | definition, as intended: the header line's first row, or the empty header when the line is malformed or has no row; properties in `HeaderPriority`, `MalformedHeaderActsAsUnconfigured` and `HeaderFinding.NoRowHeaderAutoNames` |
| `CsvProcessor.DeleteHeaderField` | data-prepper-plugins/csv-processor/src/main/java/com/amazon/dataprepper/plugins/processor/csv/CSVProcessor.java:66-68 | definition: removes the header-source key only when the event carried it and deletion is configured; properties in `HeaderSourceDeleted`, `EmptySourceOnlyDeletesHeader` and `RowMergedIntoEvent` |
| `FieldMapper.GenerateColumnHeader` | data-prepper-plugins/csv-processor/src/main/java/com/amazon/dataprepper/plugins/processor/csv/CSVProcessor.java:144-147 | definition: `"column"` followed by the decimal digits of `colNumber + 1`; properties in `GenerateColumnHeaderInjective` and `GenerateColumnHeaderExamples` |
| `FieldMapper.FieldPuts` | data-prepper-plugins/csv-processor/src/main/java/com/amazon/dataprepper/plugins/processor/csv/CSVProcessor.java:134-142 | definition: the ordered writes of the two loops, as header zip plus positionally named tail; properties in `FieldPutAt`, `FieldPutsAt`, `FieldPutsValues` and `FieldPutsNames` |
| `FieldMapper.ApplyPuts` | data-prepper-plugins/csv-processor/src/main/java/com/amazon/dataprepper/plugins/processor/csv/CSVProcessor.java:137-140 | definition: performing writes one after another on a field map; properties in the `ApplyPuts*` rows |
| `FieldMapper.FieldPutAt` | data-prepper-plugins/csv-processor/src/main/java/com/amazon/dataprepper/plugins/processor/csv/CSVProcessor.java:134-142 | write i carries `row[i]` and is named `header[i]` when the header reaches it, else `"column" + (i+1)` |
| `Events.Event.Put` | data-prepper-plugins/csv-processor/src/main/java/com/amazon/dataprepper/plugins/processor/csv/CSVProcessor.java:137 | a put adds the field or overwrites its old value and changes nothing else |
| `Events.Event.Delete` | data-prepper-plugins/csv-processor/src/main/java/com/amazon/dataprepper/plugins/processor/csv/CSVProcessor.java:67 | a delete removes exactly that key |
| `FieldMapper.FieldPutsAt` | data-prepper-plugins/csv-processor/src/main/java/com/amazon/dataprepper/plugins/processor/csv/CSVProcessor.java:134-142 | exactly `|row|` writes; write i carries `row[i]` and is named `header[i]` when `i < |header|`, else `"column" + (i+1)` |
| `FieldMapper.FieldPutsValues` | data-prepper-plugins/csv-processor/src/main/java/com/amazon/dataprepper/plugins/processor/csv/CSVProcessor.java:134-142 | the written values, in order, are exactly the row: each value once |
| `FieldMapper.FieldPutsNames` | data-prepper-plugins/csv-processor/src/main/java/com/amazon/dataprepper/plugins/processor/csv/CSVProcessor.java:135-141 | a name is written iff it is a header entry at a position the row reaches or the synthesized name of a position past the header; header entries past the row are never written |
| `FieldMapper.FirstPutsComplete` | data-prepper-plugins/csv-processor/src/main/java/com/amazon/dataprepper/plugins/processor/csv/CSVProcessor.java:135-141 | writing the values one position at a time, as the two loops do, ends in the fields of `FieldPuts` |
| `FieldMapper.ApplyPutsKeys` | data-prepper-plugins/csv-processor/src/main/java/com/amazon/dataprepper/plugins/processor/csv/CSVProcessor.java:137-140 | the event's keys afterwards are its old keys plus the written names |
| `FieldMapper.ApplyPutsUntouched` | data-prepper-plugins/csv-processor/src/main/java/com/amazon/dataprepper/plugins/processor/csv/CSVProcessor.java:137-140 | a field no write names keeps its value |
| `FieldMapper.ApplyPutsLastWins` | data-prepper-plugins/csv-processor/src/main/java/com/amazon/dataprepper/plugins/processor/csv/CSVProcessor.java:137-140 | a write that no later write of the same name follows gives the field its final value (later puts overwrite earlier ones) |
| `FieldMapper.ApplyPutsWrittenIndependent` | data-prepper-plugins/csv-processor/src/main/java/com/amazon/dataprepper/plugins/processor/csv/CSVProcessor.java:137-140 | the final value of a written field does not depend on the event's earlier fields |
| `FieldMapper.ApplyPutsIdempotent` | data-prepper-plugins/csv-processor/src/main/java/com/amazon/dataprepper/plugins/processor/csv/CSVProcessor.java:134-142 | performing the same writes twice gives the same fields as once |
| `FieldMapper.AutoNamedValuesLand` | data-prepper-plugins/csv-processor/src/main/java/com/amazon/dataprepper/plugins/processor/csv/CSVProcessor.java:139-147 | for `|header| <= i < |row|` the field `"column" + (i+1)` ends holding `row[i]`, whatever the header and the old fields |
| `FieldMapper.HeaderNamedValueLands` | data-prepper-plugins/csv-processor/src/main/java/com/amazon/dataprepper/plugins/processor/csv/CSVProcessor.java:135-137 | a header name that no later write reuses ends holding the value at its position |
| `FieldMapper.GenerateColumnHeaderInjective` | data-prepper-plugins/csv-processor/src/main/java/com/amazon/dataprepper/plugins/processor/csv/CSVProcessor.java:144-147 | two positions get the same synthesized name iff they are the same position |
| `FieldMapper.GenerateColumnHeaderExamples` | data-prepper-plugins/csv-processor/src/main/java/com/amazon/dataprepper/plugins/processor/csv/CSVProcessor.java:144-147 | numbering is 1-based: positions 0, 2, 9 are `column1`, `column3`, `column10` |
| `Decimal.DecimalRoundTrip` | data-prepper-plugins/csv-processor/src/main/java/com/amazon/dataprepper/plugins/processor/csv/CSVProcessor.java:146 | reading back the decimal rendering of a number gives the number |
| `Decimal.DecimalStringInjective` | data-prepper-plugins/csv-processor/src/main/java/com/amazon/dataprepper/plugins/processor/csv/CSVProcessor.java:146 | distinct numbers render to distinct strings |
| `Decimal.DecimalStringWellFormed` | data-prepper-plugins/csv-processor/src/main/java/com/amazon/dataprepper/plugins/processor/csv/CSVProcessor.java:146 | the rendering is non-empty, digits only, with no leading zero, one digit exactly below 10 |
| `ProcessorProperties.HeaderPriority` | data-prepper-plugins/csv-processor/src/main/java/com/amazon/dataprepper/plugins/processor/csv/CSVProcessor.java:104-131 | header from the event's header-source field when configured and present (empty if its read fails or yields no row), else the configured column names, else empty |
| `ProcessorProperties.EventHeaderOverridesColumnNames` | data-prepper-plugins/csv-processor/src/main/java/com/amazon/dataprepper/plugins/processor/csv/CSVProcessor.java:106-110 | when the event carries the header source, the configured column names do not affect the header |
| `ProcessorProperties.MalformedHeaderActsAsUnconfigured` | data-prepper-plugins/csv-processor/src/main/java/com/amazon/dataprepper/plugins/processor/csv/CSVProcessor.java:118-131 | a header line that fails to tokenize is not an error: the event ends as if no header were configured, except that the header-source field is still deleted if configured |
| `ProcessorProperties.MalformedSourceLeavesEventUnchanged` | data-prepper-plugins/csv-processor/src/main/java/com/amazon/dataprepper/plugins/processor/csv/CSVProcessor.java:56-71 | a source line whose tokenization throws leaves the event unchanged, header-source field included |
| `ProcessorProperties.EmptySourceOnlyDeletesHeader` | data-prepper-plugins/csv-processor/src/main/java/com/amazon/dataprepper/plugins/processor/csv/CSVProcessor.java:59-68 | a source line without a row writes nothing; only the header-source field is removed, when present and deletion is configured |
| `ProcessorProperties.HeaderSourceDeleted` | data-prepper-plugins/csv-processor/src/main/java/com/amazon/dataprepper/plugins/processor/csv/CSVProcessor.java:53-68 | whenever the source line is read without error, a present header-source field is gone afterwards if deletion is configured |
| `ProcessorProperties.RowMergedIntoEvent` | data-prepper-plugins/csv-processor/src/main/java/com/amazon/dataprepper/plugins/processor/csv/CSVProcessor.java:60-68 | with a row: keys become old keys plus written names minus a deleted header key; unwritten fields keep their values; every value past the header lands under its synthesized name |
| `ProcessorProperties.ProcessEventIdempotent` | data-prepper-plugins/csv-processor/src/main/java/com/amazon/dataprepper/plugins/processor/csv/CSVProcessor.java:50-71 | a second run changes nothing when the first left the source and header-source fields alone (so did not delete the header) |
| `Rfc4180.FieldsWithoutQuotes` | data-prepper-plugins/csv-processor/src/main/java/com/amazon/dataprepper/plugins/processor/csv/CSVProcessor.java:97-101 | reference tokenizer only (RFC 4180 section 2, rules 5-7; the source delegates this to Jackson and only builds the schema at these lines): without quote characters, the reference tokenizer's fields are the pieces between delimiters, empty pieces kept |
| `Rfc4180.TokenizeOfJoin` | data-prepper-plugins/csv-processor/src/main/java/com/amazon/dataprepper/plugins/processor/csv/CSVProcessor.java:97-101 | reference tokenizer only (RFC 4180 section 2, rules 5-7; the source delegates this to Jackson and only builds the schema at these lines): plain fields joined with the separator tokenize back to the same fields |
| `Rfc4180.TokenizeOfEncode` | data-prepper-plugins/csv-processor/src/main/java/com/amazon/dataprepper/plugins/processor/csv/CSVProcessor.java:97-101 | reference tokenizer only (RFC 4180 section 2, rules 5-7; the source delegates this to Jackson and only builds the schema at these lines): any fields, quoted with doubled inner quotes and joined with the separator, tokenize back to the same fields |
| `Rfc4180.QuotedFieldKeepsDelimiters` | data-prepper-plugins/csv-processor/src/main/java/com/amazon/dataprepper/plugins/processor/csv/CSVProcessor.java:97-101 | reference tokenizer only (RFC 4180 section 2, rules 5-7; the source delegates this to Jackson and only builds the schema at these lines): a delimiter inside a quoted field is not a field boundary |
| `Rfc4180.TokenizeEdgeCases` | data-prepper-plugins/csv-processor/src/main/java/com/amazon/dataprepper/plugins/processor/csv/CSVProcessor.java:97-101 | reference tokenizer only (RFC 4180 section 2, rules 5-7; the source delegates this to Jackson and only builds the schema at these lines): an empty line holds no row; a first field that opens a quote and never closes it is malformed, whatever doubled quotes come before the end |
| `Rfc4180.UnclosedQuoteAfterQuotedFields` | data-prepper-plugins/csv-processor/src/main/java/com/amazon/dataprepper/plugins/processor/csv/CSVProcessor.java:97-101 | reference tokenizer only (RFC 4180 section 2, rules 5-7; the source delegates this to Jackson and only builds the schema at these lines): an unclosed quote in any later field, after any number of quoted fields, is malformed |
| `Rfc4180.UnclosedQuoteAfterPlainFields` | data-prepper-plugins/csv-processor/src/main/java/com/amazon/dataprepper/plugins/processor/csv/CSVProcessor.java:97-101 | reference tokenizer only (RFC 4180 section 2, rules 5-7; the source delegates this to Jackson and only builds the schema at these lines): an unclosed quote in any later field, after any number of plain fields (as in `a,"b`), is malformed |
| `Rfc4180.EmptyFieldExample` | data-prepper-plugins/csv-processor/src/main/java/com/amazon/dataprepper/plugins/processor/csv/CSVProcessor.java:97-101 | reference tokenizer only (RFC 4180 section 2, rules 5-7; the source delegates this to Jackson and only builds the schema at these lines): `a,,b` reads as `a`, an empty field, `b` |
| `Rfc4180.DoubledQuoteExample` | data-prepper-plugins/csv-processor/src/main/java/com/amazon/dataprepper/plugins/processor/csv/CSVProcessor.java:97-101 | reference tokenizer only (RFC 4180 section 2, rules 5-7; the source delegates this to Jackson and only builds the schema at these lines): `"x""y"` reads as `x"y` |
| `Scenarios.StaticColumnNamesScenario` | data-prepper-plugins/csv-processor/src/main/java/com/amazon/dataprepper/plugins/processor/csv/CSVProcessor.java:104-116 | column names `a`, `b` on `1,2,3` give `a:1`, `b:2`, `column3:3` and keep `message` |
| `Scenarios.EventHeaderScenario` | data-prepper-plugins/csv-processor/src/main/java/com/amazon/dataprepper/plugins/processor/csv/CSVProcessor.java:53-68 | header `x,y` from field `hdr` on `1,2,3` gives `x:1`, `y:2`, `column3:3`, and `hdr` is deleted |
| `Scenarios.MalformedEventIsolated` | data-prepper-plugins/csv-processor/src/main/java/com/amazon/dataprepper/plugins/processor/csv/CSVProcessor.java:48-73 | in a batch, an event with an unclosed quote comes back unchanged (its `hdr` kept) while the next event is processed normally |
| `Scenarios.EmptyHeaderLineScenario` | data-prepper-plugins/csv-processor/src/main/java/com/amazon/dataprepper/plugins/processor/csv/CSVProcessor.java:118-125 | an empty `hdr` line: as written the event's processing throws and the batch is abandoned; as intended `1,2,3` becomes `column1`..`column3` and `hdr` is deleted |
| `HeaderFinding.ParseHeaderFromEventSourceKeyAsWritten` | data-prepper-plugins/csv-processor/src/main/java/com/amazon/dataprepper/plugins/processor/csv/CSVProcessor.java:118-132 | as written: the header read throws exactly when the header line has no row, and otherwise gives the intended header |
| `HeaderFinding.ProcessEventAsWritten` | data-prepper-plugins/csv-processor/src/main/java/com/amazon/dataprepper/plugins/processor/csv/CSVProcessor.java:50-71 | definition, as written: one event's new fields, or no result when the header read's exception escapes; related to `ProcessEvent` by `AsWrittenAgreesUnlessHeaderLineWithoutRow` |
| `HeaderFinding.AsWrittenAgreesUnlessHeaderLineWithoutRow` | data-prepper-plugins/csv-processor/src/main/java/com/amazon/dataprepper/plugins/processor/csv/CSVProcessor.java:50-71 | the code as written throws iff the source line has a row and the event's header line has none; otherwise it gives exactly `ProcessEvent`'s fields |
| `HeaderFinding.NoRowHeaderAutoNames` | data-prepper-plugins/csv-processor/src/main/java/com/amazon/dataprepper/plugins/processor/csv/CSVProcessor.java:123 | as intended, a header line without a row gives the empty header, and every value lands under its synthesized name unless that name is the deleted header key |

## Findings

| source | as written | input that shows it | evidently intended | confidence | as-written member | corrected member |
|---|---|---|---|---|---|---|
| data-prepper-plugins/csv-processor/src/main/java/com/amazon/dataprepper/plugins/processor/csv/CSVProcessor.java:121-124 | `nextValue()` is called without `hasNextValue()`; on a header line with no row Jackson throws `NoSuchElementException`, which neither `catch (IOException)` handles, so the batch is abandoned | column names source key `hdr` with delete on, event `message` = `1,2,3`, `hdr` = empty string | an empty header, so the values become `column1`, `column2`, `column3` (the comment at line 123) | medium: not executed; rests on Jackson's documented `MappingIterator.nextValue` behaviour | `HeaderFinding.ProcessEventAsWritten` (exhibited by `Scenarios.EmptyHeaderLineScenario`) | `CsvProcessor.ParseHeaderFromEventSourceKey` (property `HeaderFinding.NoRowHeaderAutoNames`) |

## Left out

- Jackson's `CsvMapper` and `CsvSchema` (lines 57, 91-101, 121-124) are foreign code. The tokenizer is the `readRow` parameter. Nothing is claimed about Jackson's own quoting, escaping or `WRAP_AS_ARRAY` behaviour. `Rfc4180` is a reference that follows RFC 4180. It accepts a quote character inside an unquoted field as an ordinary character. It treats a line break as an ordinary character.
- A line that holds several rows: only the first row is used (line 61). `readRow` stands for "the first row".
- ParseHeaderFromEventSourceKey: models the intended empty header for a header line without a row (see Findings). The as-written variant in `HeaderFinding` shows that the exception escapes. What a partly processed batch looks like once it is abandoned is not modelled.
- DoExecute: requires every event to carry the source field. With the field absent, line 52 yields `null`. The tokenizer's handling of `null` is foreign and would be a runtime exception, not the caught `IOException`.
- DoExecute: requires the events of a batch to be distinct objects. The same event appearing twice in one collection is not modelled.
- Runtime exceptions other than `IOException` are not modelled. Such an exception would abort the batch part-way.
- Values of another type than `String` in the source or header-source field (the `String.class` reads at lines 52 and 120) are not modelled. Every field value is a string.
- The host `Event` API is a flat map from string keys to string values. Its treatment of keys as paths into nested objects is not modelled.
- The `Record` wrapper and `getData()` (line 50) are left out: the batch is a sequence of events.
- A `null` delete flag is left out: `Boolean.TRUE.equals` at line 66 treats it as false, and `deleteHeader` is a plain `bool`.
- The delimiter and quote character are single `char`s. Taking the first character of the configured strings (lines 98-99) and validating those strings are the configuration class's work, which is not part of this model.
- Logging (lines 70, 128), plugin metrics, plugin annotations, the constructor (lines 37-41) and the shutdown hooks (lines 76-89) contain no logic and are left out.
- Integer width: `colNumber + 1` at line 145 cannot overflow. `colNumber` is below the row's size, which is at most the largest Java `int`, so unbounded naturals model it exactly.
