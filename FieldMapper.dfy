/**
 * The field mapper of the CSV processor: which (name, value) writes one
 * parsed row produces, given a header, and what those writes do to an
 * event's fields.
 */
module FieldMapper {
  import opened Decimal

  /** One `event.put(name, value)`. */
  datatype Put = Put(name: string, value: string)

  /** The synthesized name of the value at 0-based position `colNumber` of a row:
      "column" followed by the 1-based position. */
  function GenerateColumnHeader(colNumber: nat): string
  {
    "column" + DecimalString(colNumber + 1)
  }

  /** Distinct positions get distinct synthesized names. */
  lemma GenerateColumnHeaderInjective(i: nat, j: nat)
    ensures GenerateColumnHeader(i) == GenerateColumnHeader(j) <==> i == j
  {
    if GenerateColumnHeader(i) == GenerateColumnHeader(j) {
      assert GenerateColumnHeader(i)[6..] == DecimalString(i + 1);
      assert GenerateColumnHeader(j)[6..] == DecimalString(j + 1);
      DecimalStringInjective(i + 1, j + 1);
    }
  }

  /** Numbering is 1-based: positions 0, 2 and 9 are named column1, column3 and column10. */
  lemma GenerateColumnHeaderExamples()
    ensures GenerateColumnHeader(0) == "column1"
    ensures GenerateColumnHeader(2) == "column3"
    ensures GenerateColumnHeader(9) == "column10"
  {
    assert DecimalString(10) == DecimalString(1) + [DigitChar(0)];
  }

  /** The writes of the first loop: header names paired with row values while both last. */
  function Zip(header: seq<string>, row: seq<string>): seq<Put>
  {
    if header == [] || row == [] then []
    else [Put(header[0], row[0])] + Zip(header[1..], row[1..])
  }

  /** The writes of the second loop: values named by their absolute position, starting at `start`. */
  function AutoNamed(start: nat, values: seq<string>): seq<Put>
    decreases |values|
  {
    if values == [] then []
    else [Put(GenerateColumnHeader(start), values[0])] + AutoNamed(start + 1, values[1..])
  }

  /** All writes that mapping `row` against `header` performs, in order. */
  function FieldPuts(header: seq<string>, row: seq<string>): seq<Put>
  {
    Zip(header, row) + (if |header| < |row| then AutoNamed(|header|, row[|header|..]) else [])
  }

  function Min(a: nat, b: nat): nat
  {
    if a < b then a else b
  }

  lemma {:induction false} ZipAt(header: seq<string>, row: seq<string>)
    ensures |Zip(header, row)| == Min(|header|, |row|)
    ensures forall i :: 0 <= i < |Zip(header, row)| ==> Zip(header, row)[i] == Put(header[i], row[i])
  {
    if header != [] && row != [] {
      ZipAt(header[1..], row[1..]);
    }
  }

  lemma {:induction false} AutoNamedAt(start: nat, values: seq<string>)
    ensures |AutoNamed(start, values)| == |values|
    ensures forall k :: 0 <= k < |values| ==>
      AutoNamed(start, values)[k] == Put(GenerateColumnHeader(start + k), values[k])
    decreases |values|
  {
    if values != [] {
      AutoNamedAt(start + 1, values[1..]);
      var named := AutoNamed(start, values);
      forall k | 0 < k < |values| ensures named[k] == Put(GenerateColumnHeader(start + k), values[k]) {
        assert named[k] == AutoNamed(start + 1, values[1..])[k - 1];
      }
    }
  }

  /** The name of the value at position `i`: the header's entry if there is one, else the synthesized name. */
  function NameAt(header: seq<string>, i: nat): string
  {
    if i < |header| then header[i] else GenerateColumnHeader(i)
  }

  /** The write at position `i` of the row: named by the header where it reaches, by the
      synthesized name of the absolute position after that. */
  lemma FieldPutAt(header: seq<string>, row: seq<string>, i: nat)
    requires i < |row|
    ensures |FieldPuts(header, row)| == |row|
    ensures FieldPuts(header, row)[i] == Put(NameAt(header, i), row[i])
  {
    ZipAt(header, row);
    if |header| < |row| {
      AutoNamedAt(|header|, row[|header|..]);
      if |header| <= i {
        assert FieldPuts(header, row)[i] == AutoNamed(|header|, row[|header|..])[i - |header|];
      }
    }
  }

  /** Mapping performs exactly one write per row value; the i-th write carries `row[i]`
      and is named `header[i]` when the header reaches that far and the synthesized
      name of absolute position i otherwise. */
  lemma FieldPutsAt(header: seq<string>, row: seq<string>)
    ensures |FieldPuts(header, row)| == |row|
    ensures forall i :: 0 <= i < |row| ==> FieldPuts(header, row)[i] == Put(NameAt(header, i), row[i])
  {
    ZipAt(header, row);
    if |header| < |row| {
      AutoNamedAt(|header|, row[|header|..]);
    }
    forall i | 0 <= i < |row| ensures FieldPuts(header, row)[i] == Put(NameAt(header, i), row[i]) {
      FieldPutAt(header, row, i);
    }
  }

  function Values(puts: seq<Put>): seq<string>
  {
    seq(|puts|, i requires 0 <= i < |puts| => puts[i].value)
  }

  /** Every row value is written exactly once, and in row order. */
  lemma FieldPutsValues(header: seq<string>, row: seq<string>)
    ensures Values(FieldPuts(header, row)) == row
  {
    FieldPutsAt(header, row);
  }

  /** The names the writes use. */
  function Names(puts: seq<Put>): set<string>
  {
    set i | 0 <= i < |puts| :: puts[i].name
  }

  /** The names used are exactly the header entries that have a value and the
      synthesized names of the positions past the header; header entries past the
      end of the row are never written. */
  lemma FieldPutsNames(header: seq<string>, row: seq<string>, name: string)
    ensures name in Names(FieldPuts(header, row)) <==>
      (exists i :: 0 <= i < Min(|header|, |row|) && header[i] == name) ||
      (exists i :: |header| <= i < |row| && GenerateColumnHeader(i) == name)
  {
    var puts := FieldPuts(header, row);
    FieldPutsAt(header, row);
    if name in Names(puts) {
      var i :| 0 <= i < |puts| && puts[i].name == name;
      if i < |header| {
        assert header[i] == name;
      } else {
        assert GenerateColumnHeader(i) == name;
      }
    }
    if exists i :: 0 <= i < Min(|header|, |row|) && header[i] == name {
      var i :| 0 <= i < Min(|header|, |row|) && header[i] == name;
      assert puts[i].name == name;
    }
    if exists i :: |header| <= i < |row| && GenerateColumnHeader(i) == name {
      var i :| |header| <= i < |row| && GenerateColumnHeader(i) == name;
      assert puts[i].name == name;
    }
  }

  /** The fields of an event after performing `puts` on it, one after another. */
  function ApplyPuts(fields: map<string, string>, puts: seq<Put>): map<string, string>
  {
    if puts == [] then fields
    else
      var last := puts[|puts| - 1];
      ApplyPuts(fields, puts[..|puts| - 1])[last.name := last.value]
  }

  /** Performing one more write of a sequence updates that one field. */
  lemma ApplyPutsPrefix(fields: map<string, string>, puts: seq<Put>, k: nat)
    requires k < |puts|
    ensures ApplyPuts(fields, puts[..k + 1]) == ApplyPuts(fields, puts[..k])[puts[k].name := puts[k].value]
  {
    assert puts[..k + 1][..k] == puts[..k];
  }

  /** The fields after the first `k` writes of mapping `row` against `header`. */
  function FirstPuts(fields: map<string, string>, header: seq<string>, row: seq<string>, k: nat): map<string, string>
    requires k <= |row|
  {
    if k == 0 then fields else FirstPuts(fields, header, row, k - 1)[NameAt(header, k - 1) := row[k - 1]]
  }

  /** Writing position by position performs, in order, any writes that match the row
      position for position. */
  lemma {:induction false} FirstPutsArePrefix(fields: map<string, string>, header: seq<string>, row: seq<string>,
                                              puts: seq<Put>, k: nat)
    requires k <= |row| == |puts|
    requires forall i :: 0 <= i < |row| ==> puts[i] == Put(NameAt(header, i), row[i])
    ensures FirstPuts(fields, header, row, k) == ApplyPuts(fields, puts[..k])
  {
    if k > 0 {
      FirstPutsArePrefix(fields, header, row, puts, k - 1);
      ApplyPutsPrefix(fields, puts, k - 1);
    }
  }

  /** After all `|row|` writes the fields are those of performing `FieldPuts(header, row)`. */
  lemma FirstPutsComplete(fields: map<string, string>, header: seq<string>, row: seq<string>)
    ensures FirstPuts(fields, header, row, |row|) == ApplyPuts(fields, FieldPuts(header, row))
  {
    var puts := FieldPuts(header, row);
    FieldPutsAt(header, row);
    FirstPutsArePrefix(fields, header, row, puts, |row|);
    assert puts[..|row|] == puts;
  }

  /** Writing adds exactly the written names to the event's keys. */
  lemma {:induction false} ApplyPutsKeys(fields: map<string, string>, puts: seq<Put>)
    ensures ApplyPuts(fields, puts).Keys == fields.Keys + Names(puts)
  {
    if puts != [] {
      var front := puts[..|puts| - 1];
      ApplyPutsKeys(fields, front);
      assert Names(puts) == Names(front) + {puts[|puts| - 1].name} by {
        forall n | n in Names(puts) ensures n in Names(front) + {puts[|puts| - 1].name} {
          var i :| 0 <= i < |puts| && puts[i].name == n;
          if i < |puts| - 1 {
            assert front[i].name == n;
          }
        }
        forall n | n in Names(front) ensures n in Names(puts) {
          var i :| 0 <= i < |front| && front[i].name == n;
          assert puts[i].name == n;
        }
      }
    }
  }

  /** A field that is never written keeps its value. */
  lemma {:induction false} ApplyPutsUntouched(fields: map<string, string>, puts: seq<Put>, key: string)
    requires key in fields
    requires forall i :: 0 <= i < |puts| ==> puts[i].name != key
    ensures key in ApplyPuts(fields, puts) && ApplyPuts(fields, puts)[key] == fields[key]
  {
    if puts != [] {
      ApplyPutsUntouched(fields, puts[..|puts| - 1], key);
    }
  }

  /** A write that no later write of the same name follows determines the field's final value. */
  lemma {:induction false} ApplyPutsLastWins(fields: map<string, string>, puts: seq<Put>, i: nat)
    requires i < |puts|
    requires forall j :: i < j < |puts| ==> puts[j].name != puts[i].name
    ensures puts[i].name in ApplyPuts(fields, puts)
    ensures ApplyPuts(fields, puts)[puts[i].name] == puts[i].value
  {
    if i < |puts| - 1 {
      var front := puts[..|puts| - 1];
      ApplyPutsLastWins(fields, front, i);
    }
  }

  /** The final value of a written field does not depend on the fields the event started with. */
  lemma {:induction false} ApplyPutsWrittenIndependent(f1: map<string, string>, f2: map<string, string>, puts: seq<Put>, key: string)
    requires exists i :: 0 <= i < |puts| && puts[i].name == key
    ensures key in ApplyPuts(f1, puts) && key in ApplyPuts(f2, puts)
    ensures ApplyPuts(f1, puts)[key] == ApplyPuts(f2, puts)[key]
  {
    var last := puts[|puts| - 1];
    if last.name != key {
      var front := puts[..|puts| - 1];
      var i :| 0 <= i < |puts| && puts[i].name == key;
      assert front[i].name == key;
      ApplyPutsWrittenIndependent(f1, f2, front, key);
    }
  }

  /** Performing the same writes a second time changes nothing. */
  lemma ApplyPutsIdempotent(fields: map<string, string>, puts: seq<Put>)
    ensures ApplyPuts(ApplyPuts(fields, puts), puts) == ApplyPuts(fields, puts)
  {
    var once := ApplyPuts(fields, puts);
    var twice := ApplyPuts(once, puts);
    ApplyPutsKeys(fields, puts);
    ApplyPutsKeys(once, puts);
    forall key | key in twice ensures twice[key] == once[key] {
      if exists i :: 0 <= i < |puts| && puts[i].name == key {
        ApplyPutsWrittenIndependent(once, fields, puts, key);
      } else {
        ApplyPutsUntouched(once, puts, key);
      }
    }
  }

  /** Every value past the header ends up under its synthesized name. */
  lemma AutoNamedValuesLand(fields: map<string, string>, header: seq<string>, row: seq<string>, i: nat)
    requires |header| <= i < |row|
    ensures GenerateColumnHeader(i) in ApplyPuts(fields, FieldPuts(header, row))
    ensures ApplyPuts(fields, FieldPuts(header, row))[GenerateColumnHeader(i)] == row[i]
  {
    var puts := FieldPuts(header, row);
    FieldPutsAt(header, row);
    forall j | i < j < |puts| ensures puts[j].name != puts[i].name {
      GenerateColumnHeaderInjective(i, j);
    }
    ApplyPutsLastWins(fields, puts, i);
  }

  /** A header name that no later write reuses ends up holding the value at its position. */
  lemma HeaderNamedValueLands(fields: map<string, string>, header: seq<string>, row: seq<string>, i: nat)
    requires i < |header| && i < |row|
    requires forall j :: i < j < |header| && j < |row| ==> header[j] != header[i]
    requires forall j :: |header| <= j < |row| ==> GenerateColumnHeader(j) != header[i]
    ensures header[i] in ApplyPuts(fields, FieldPuts(header, row))
    ensures ApplyPuts(fields, FieldPuts(header, row))[header[i]] == row[i]
  {
    FieldPutsAt(header, row);
    ApplyPutsLastWins(fields, FieldPuts(header, row), i);
  }
}
