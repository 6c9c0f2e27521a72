/**
 * End-to-end behaviour of the processor with the reference tokenizer, on
 * concrete events: static column names, a header carried by the event and
 * deleted afterwards, an empty header line, and a batch in which one event's
 * line is malformed.
 */
module Scenarios {
  import opened Wrappers
  import opened FieldMapper
  import opened CsvProcessor
  import opened Events
  import Rfc4180
  import opened ProcessorProperties
  import HeaderFinding

  const CommaSchema := Schema(',', '"')

  lemma ReadOneTwoThree()
    ensures Rfc4180.ReadRow(CommaSchema, "1,2,3") == Row(["1", "2", "3"])
  {
    Rfc4180.TokenizeOfJoin(["1", "2", "3"], ',', '"');
    assert ["1", "2", "3"][1..][1..] == ["3"];
    assert Rfc4180.Join(["1", "2", "3"], ',') == "1,2,3";
  }

  lemma ReadXY()
    ensures Rfc4180.ReadRow(CommaSchema, "x,y") == Row(["x", "y"])
  {
    Rfc4180.TokenizeOfJoin(["x", "y"], ',', '"');
    assert ["x", "y"][1..] == ["y"];
    assert Rfc4180.Join(["x", "y"], ',') == "x,y";
  }

  /** Writing a three-value row under a two-name header. */
  lemma MergeShortHeader(fields: map<string, string>, first: string, second: string)
    ensures ApplyPuts(fields, FieldPuts([first, second], ["1", "2", "3"])) ==
            fields[first := "1"][second := "2"]["column3" := "3"]
  {
    var puts := FieldPuts([first, second], ["1", "2", "3"]);
    FieldPutsAt([first, second], ["1", "2", "3"]);
    GenerateColumnHeaderExamples();
    assert puts == [Put(first, "1"), Put(second, "2"), Put("column3", "3")];
    assert puts[..2] == [Put(first, "1"), Put(second, "2")];
    assert puts[..2][..1] == [Put(first, "1")];
    assert puts[..2][..1][..0] == [];
    assert ApplyPuts(fields, puts[..2][..1]) == fields[first := "1"];
    assert ApplyPuts(fields, puts[..2]) == fields[first := "1"][second := "2"];
  }

  /** Static column names `a`, `b` on the line `1,2,3`: the third value is `column3`. */
  lemma StaticColumnNamesScenario()
    ensures
      var config := Config("message", ',', '"', Some(["a", "b"]), None, false);
      ProcessEvent(config, Rfc4180.ReadRow, map["message" := "1,2,3"]) ==
        map["message" := "1,2,3", "a" := "1", "b" := "2", "column3" := "3"]
  {
    ReadOneTwoThree();
    MergeShortHeader(map["message" := "1,2,3"], "a", "b");
  }

  /** The event-header scenario for any tokenizer that reads the two lines as the reference does. */
  lemma EventHeaderScenarioFor(readRow: RowReader)
    requires readRow(CommaSchema, "1,2,3") == Row(["1", "2", "3"])
    requires readRow(CommaSchema, "x,y") == Row(["x", "y"])
    ensures
      var config := Config("message", ',', '"', None, Some("hdr"), true);
      ProcessEvent(config, readRow, map["message" := "1,2,3", "hdr" := "x,y"]) ==
        map["message" := "1,2,3", "x" := "1", "y" := "2", "column3" := "3"]
  {
    var config := Config("message", ',', '"', None, Some("hdr"), true);
    var fields := map["message" := "1,2,3", "hdr" := "x,y"];
    assert ResolvedHeader(config, readRow, fields) == ["x", "y"];
    MergeShortHeader(fields, "x", "y");
  }

  /** The header `x,y` comes from the event's `hdr` field, which is then deleted. */
  lemma EventHeaderScenario()
    ensures
      var config := Config("message", ',', '"', None, Some("hdr"), true);
      ProcessEvent(config, Rfc4180.ReadRow, map["message" := "1,2,3", "hdr" := "x,y"]) ==
        map["message" := "1,2,3", "x" := "1", "y" := "2", "column3" := "3"]
  {
    ReadOneTwoThree();
    ReadXY();
    EventHeaderScenarioFor(Rfc4180.ReadRow);
  }

  /** Writing a three-value row without a header. */
  lemma MergeNoHeader(fields: map<string, string>)
    ensures ApplyPuts(fields, FieldPuts([], ["1", "2", "3"])) ==
            fields["column1" := "1"]["column2" := "2"]["column3" := "3"]
  {
    var puts := FieldPuts([], ["1", "2", "3"]);
    FieldPutsAt([], ["1", "2", "3"]);
    GenerateColumnHeaderExamples();
    assert GenerateColumnHeader(1) == "column2";
    assert puts == [Put("column1", "1"), Put("column2", "2"), Put("column3", "3")];
    assert puts[..2] == [Put("column1", "1"), Put("column2", "2")];
    assert puts[..2][..1] == [Put("column1", "1")];
    assert puts[..2][..1][..0] == [];
    assert ApplyPuts(fields, puts[..2][..1]) == fields["column1" := "1"];
    assert ApplyPuts(fields, puts[..2]) == fields["column1" := "1"]["column2" := "2"];
  }

  /** The empty-header-line scenario for any tokenizer that finds no row in an empty line
      and reads `1,2,3` as the reference does. */
  lemma EmptyHeaderLineScenarioFor(readRow: RowReader)
    requires readRow(CommaSchema, "1,2,3") == Row(["1", "2", "3"])
    requires readRow(CommaSchema, "") == NoRow
    ensures
      var config := Config("message", ',', '"', None, Some("hdr"), true);
      var fields := map["message" := "1,2,3", "hdr" := ""];
      HeaderFinding.ProcessEventAsWritten(config, readRow, fields) == None &&
      ProcessEvent(config, readRow, fields) ==
        map["message" := "1,2,3", "column1" := "1", "column2" := "2", "column3" := "3"]
  {
    var config := Config("message", ',', '"', None, Some("hdr"), true);
    var fields := map["message" := "1,2,3", "hdr" := ""];
    assert ResolvedHeader(config, readRow, fields) == [];
    MergeNoHeader(fields);
  }

  /** An empty header line: as written, the header read throws and the batch is abandoned;
      as intended, every value gets its synthesized name and `hdr` is deleted. */
  lemma EmptyHeaderLineScenario()
    ensures
      var config := Config("message", ',', '"', None, Some("hdr"), true);
      var fields := map["message" := "1,2,3", "hdr" := ""];
      HeaderFinding.ProcessEventAsWritten(config, Rfc4180.ReadRow, fields) == None &&
      ProcessEvent(config, Rfc4180.ReadRow, fields) ==
        map["message" := "1,2,3", "column1" := "1", "column2" := "2", "column3" := "3"]
  {
    ReadOneTwoThree();
    assert Rfc4180.ReadRow(CommaSchema, "") == NoRow;
    EmptyHeaderLineScenarioFor(Rfc4180.ReadRow);
  }

  /** A batch of two events whose first line has an unclosed quote: that event comes back
      exactly as it was, header-source field included, while the second is processed. */
  method MalformedEventIsolated() returns (first: map<string, string>, second: map<string, string>)
    ensures first == map["message" := "\"1,2", "hdr" := "x,y"]
    ensures second == map["message" := "1,2,3", "x" := "1", "y" := "2", "column3" := "3"]
  {
    var config := Config("message", ',', '"', None, Some("hdr"), true);
    var brokenFields := map["message" := "\"1,2", "hdr" := "x,y"];
    var eventFields := map["message" := "1,2,3", "hdr" := "x,y"];
    var broken := new Event(brokenFields);
    var event := new Event(eventFields);
    var records := [broken, event];
    assert records[0] == broken && records[1] == event;
    var batch := DoExecute(config, Rfc4180.ReadRow, records);
    assert records[0].fields == ProcessEvent(config, Rfc4180.ReadRow, brokenFields);
    assert records[1].fields == ProcessEvent(config, Rfc4180.ReadRow, eventFields);
    Rfc4180.TokenizeEdgeCases("", "1,2", ',', '"');
    assert Rfc4180.Escape("", '"') == "";
    assert ['"'] + Rfc4180.Escape("", '"') + "1,2" == "\"1,2";
    MalformedSourceLeavesEventUnchanged(config, Rfc4180.ReadRow, brokenFields);
    EventHeaderScenario();
    first, second := broken.fields, event.fields;
  }
}
