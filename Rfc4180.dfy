/**
 * A reference tokenizer for one line, following rules 5 to 7 of section 2 of
 * RFC 4180 with a configurable delimiter and quote character: fields are
 * separated by the delimiter; a field that starts with the quote character
 * runs to the next single quote character, may hold delimiters, and writes a
 * quote character inside it as two; an empty line holds no row.
 *
 * It is one instance of the processor's `RowReader`, used to state concrete
 * end-to-end behaviour. Unlike rule 5 it accepts a quote character inside an
 * unquoted field as an ordinary character.
 */
module Rfc4180 {
  import opened Wrappers
  import opened CsvProcessor

  /** Reads the rest of a quoted field, after its opening quote: the field's content and
      what follows the closing quote, or `None` if the closing quote is missing. */
  function QuotedField(s: string, quote: char): (r: Option<(string, string)>)
    ensures r.Some? ==> |r.value.1| < |s|
    decreases |s|
  {
    if s == [] then None
    else if s[0] == quote then
      if |s| > 1 && s[1] == quote then
        match QuotedField(s[2..], quote)
        case None => None
        case Some((content, rest)) => Some(([quote] + content, rest))
      else Some(([], s[1..]))
    else
      match QuotedField(s[1..], quote)
      case None => None
      case Some((content, rest)) => Some(([s[0]] + content, rest))
  }

  /** Splits off an unquoted field: everything up to the first delimiter. */
  function UnquotedField(s: string, delimiter: char): (r: (string, string))
    ensures r.0 + r.1 == s
    ensures delimiter !in r.0
    ensures r.1 == [] || r.1[0] == delimiter
  {
    if s == [] || s[0] == delimiter then ([], s)
    else
      var (field, rest) := UnquotedField(s[1..], delimiter);
      ([s[0]] + field, rest)
  }

  /** Reads the field at the start of `s`: its content and the rest of the line, which is
      empty or starts with the delimiter; `None` if a quoted field is not closed or is
      followed by something other than the delimiter. */
  function FirstField(s: string, delimiter: char, quote: char): (r: Option<(string, string)>)
    ensures r.Some? ==> |r.value.1| <= |s|
    ensures r.Some? ==> r.value.1 == [] || r.value.1[0] == delimiter
  {
    if s != [] && s[0] == quote then
      match QuotedField(s[1..], quote)
      case None => None
      case Some((field, rest)) =>
        if rest == [] || rest[0] == delimiter then Some((field, rest)) else None
    else Some(UnquotedField(s, delimiter))
  }

  /** Reads one or more delimiter-separated fields filling all of `s`. */
  function Fields(s: string, delimiter: char, quote: char): Option<seq<string>>
    decreases |s|
  {
    match FirstField(s, delimiter, quote)
    case None => None
    case Some((field, rest)) =>
      if rest == [] then Some([field])
      else
        match Fields(rest[1..], delimiter, quote)
        case None => None
        case Some(more) => Some([field] + more)
  }

  function Tokenize(line: string, delimiter: char, quote: char): Tokens
  {
    if line == [] then NoRow
    else
      match Fields(line, delimiter, quote)
      case None => Malformed
      case Some(values) => Row(values)
  }

  /** The reference tokenizer as a `RowReader`. */
  function ReadRow(schema: Schema, line: string): Tokens
  {
    Tokenize(line, schema.columnSeparator, schema.quoteChar)
  }

  /** Plain splitting at every delimiter, one character at a time; empty fields are kept. */
  function Split(s: string, delimiter: char): (r: seq<string>)
    ensures |r| > 0
  {
    if s == [] then [[]]
    else
      var tail := Split(s[1..], delimiter);
      if s[0] == delimiter then [[]] + tail else [[s[0]] + tail[0]] + tail[1..]
  }

  /** A piece without delimiters splits into itself. */
  lemma {:induction false} SplitPiece(piece: string, delimiter: char)
    requires delimiter !in piece
    ensures Split(piece, delimiter) == [piece]
  {
    if piece != [] {
      SplitPiece(piece[1..], delimiter);
      assert [piece[0]] + piece[1..] == piece;
    }
  }

  /** Splitting at the first delimiter: the piece before it, then the pieces of the rest. */
  lemma {:induction false} SplitAtDelimiter(piece: string, rest: string, delimiter: char)
    requires delimiter !in piece
    ensures Split(piece + [delimiter] + rest, delimiter) == [piece] + Split(rest, delimiter)
  {
    var s := piece + [delimiter] + rest;
    if piece == [] {
      assert s[1..] == rest;
    } else {
      SplitAtDelimiter(piece[1..], rest, delimiter);
      assert s[1..] == piece[1..] + [delimiter] + rest;
      assert [piece[0]] + piece[1..] == piece;
    }
  }

  /** Without quote characters, a line's fields are exactly the pieces between delimiters. */
  lemma {:induction false} FieldsWithoutQuotes(s: string, delimiter: char, quote: char)
    requires quote !in s
    ensures Fields(s, delimiter, quote) == Some(Split(s, delimiter))
    decreases |s|
  {
    if s != [] {
      FieldsWithoutQuotes(s[1..], delimiter, quote);
      if s[0] != delimiter {
        var (field, rest) := UnquotedField(s[1..], delimiter);
        assert UnquotedField(s, delimiter) == ([s[0]] + field, rest);
        assert s[1..] == [] || s[1..][0] != quote;
        if rest != [] {
          FieldsWithoutQuotes(rest[1..], delimiter, quote);
          var more := Split(rest[1..], delimiter);
          assert Fields(s[1..], delimiter, quote) == Some([field] + more);
          assert Fields(s, delimiter, quote) == Some([[s[0]] + field] + more);
        } else {
          assert Fields(s[1..], delimiter, quote) == Some([field]);
          assert Split(s, delimiter) == [[s[0]] + field];
        }
      }
    }
  }

  /** A line without quote characters tokenizes to its delimiter-separated pieces. */
  lemma TokenizeWithoutQuotes(line: string, delimiter: char, quote: char)
    requires line != [] && quote !in line
    ensures Tokenize(line, delimiter, quote) == Row(Split(line, delimiter))
  {
    FieldsWithoutQuotes(line, delimiter, quote);
  }

  /** Joins fields with the delimiter, quoting none of them. */
  function Join(values: seq<string>, delimiter: char): string
    requires values != []
  {
    if |values| == 1 then values[0] else values[0] + [delimiter] + Join(values[1..], delimiter)
  }

  lemma {:induction false} SplitOfJoin(values: seq<string>, delimiter: char)
    requires values != []
    requires forall i :: 0 <= i < |values| ==> delimiter !in values[i]
    ensures Split(Join(values, delimiter), delimiter) == values
  {
    if |values| == 1 {
      SplitPiece(values[0], delimiter);
    } else {
      SplitOfJoin(values[1..], delimiter);
      SplitAtDelimiter(values[0], Join(values[1..], delimiter), delimiter);
      assert [values[0]] + values[1..] == values;
    }
  }

  lemma {:induction false} QuoteNotInJoin(values: seq<string>, delimiter: char, quote: char)
    requires values != [] && delimiter != quote
    requires forall i :: 0 <= i < |values| ==> quote !in values[i]
    ensures quote !in Join(values, delimiter)
  {
    if |values| > 1 {
      QuoteNotInJoin(values[1..], delimiter, quote);
    }
  }

  /** Fields free of delimiters and quote characters, joined with the delimiter,
      tokenize back to the same fields (unless the line is empty). */
  lemma TokenizeOfJoin(values: seq<string>, delimiter: char, quote: char)
    requires values != [] && delimiter != quote
    requires forall i :: 0 <= i < |values| ==> delimiter !in values[i] && quote !in values[i]
    requires Join(values, delimiter) != []
    ensures Tokenize(Join(values, delimiter), delimiter, quote) == Row(values)
  {
    QuoteNotInJoin(values, delimiter, quote);
    TokenizeWithoutQuotes(Join(values, delimiter), delimiter, quote);
    SplitOfJoin(values, delimiter);
  }

  /** Writes a field's content with every quote character doubled. */
  function Escape(field: string, quote: char): string
  {
    if field == [] then []
    else (if field[0] == quote then [quote, quote] else [field[0]]) + Escape(field[1..], quote)
  }

  /** Writes fields as one line, each field quoted and separated by the delimiter. */
  function Encode(values: seq<string>, delimiter: char, quote: char): string
    requires values != []
  {
    var field := [quote] + Escape(values[0], quote) + [quote];
    if |values| == 1 then field else field + ([delimiter] + Encode(values[1..], delimiter, quote))
  }

  /** Content without quote characters is written as it is. */
  lemma {:induction false} EscapeWithoutQuotes(field: string, quote: char)
    requires quote !in field
    ensures Escape(field, quote) == field
  {
    if field != [] {
      EscapeWithoutQuotes(field[1..], quote);
      assert [field[0]] + field[1..] == field;
    }
  }

  lemma {:induction false} QuotedFieldOfEscape(field: string, rest: string, quote: char)
    requires rest == [] || rest[0] != quote
    ensures QuotedField(Escape(field, quote) + [quote] + rest, quote) == Some((field, rest))
  {
    if field != [] {
      QuotedFieldOfEscape(field[1..], rest, quote);
      var head := if field[0] == quote then [quote, quote] else [field[0]];
      var tail := Escape(field[1..], quote) + [quote] + rest;
      var s := Escape(field, quote) + [quote] + rest;
      assert s == head + tail;
      assert s[|head|..] == tail;
      assert [field[0]] + field[1..] == field;
    }
  }

  /** A quoted, escaped field is read as the original content. */
  lemma FirstFieldOfQuoted(field: string, rest: string, delimiter: char, quote: char)
    requires delimiter != quote
    requires rest == [] || rest[0] == delimiter
    ensures FirstField([quote] + Escape(field, quote) + [quote] + rest, delimiter, quote) == Some((field, rest))
  {
    var s := [quote] + Escape(field, quote) + [quote] + rest;
    assert s[1..] == Escape(field, quote) + [quote] + rest;
    QuotedFieldOfEscape(field, rest, quote);
  }

  /** A quoted field followed by a delimiter is read before whatever fields follow. */
  lemma FieldsAfterQuoted(field: string, rest: string, delimiter: char, quote: char)
    requires delimiter != quote
    requires Fields(rest, delimiter, quote).Some?
    ensures Fields([quote] + Escape(field, quote) + [quote] + ([delimiter] + rest), delimiter, quote) ==
            Some([field] + Fields(rest, delimiter, quote).value)
  {
    FirstFieldOfQuoted(field, [delimiter] + rest, delimiter, quote);
    assert ([delimiter] + rest)[1..] == rest;
  }

  /** Quoting every field and joining with the delimiter tokenizes back to the same fields,
      whatever delimiters and quote characters they hold. */
  lemma {:induction false} FieldsOfEncode(values: seq<string>, delimiter: char, quote: char)
    requires values != [] && delimiter != quote
    ensures Fields(Encode(values, delimiter, quote), delimiter, quote) == Some(values)
    decreases |values|
  {
    if |values| == 1 {
      FirstFieldOfQuoted(values[0], [], delimiter, quote);
      assert Encode(values, delimiter, quote) == [quote] + Escape(values[0], quote) + [quote] + [];
      assert values == [values[0]];
    } else {
      FieldsOfEncode(values[1..], delimiter, quote);
      FieldsAfterQuoted(values[0], Encode(values[1..], delimiter, quote), delimiter, quote);
      assert [values[0]] + values[1..] == values;
    }
  }

  lemma TokenizeOfEncode(values: seq<string>, delimiter: char, quote: char)
    requires values != [] && delimiter != quote
    ensures Tokenize(Encode(values, delimiter, quote), delimiter, quote) == Row(values)
  {
    FieldsOfEncode(values, delimiter, quote);
  }

  lemma {:induction false} QuotedFieldUnclosed(s: string, quote: char)
    requires quote !in s
    ensures QuotedField(s, quote) == None
    decreases |s|
  {
    if s != [] {
      QuotedFieldUnclosed(s[1..], quote);
    }
  }

  /** A quoted field's content with doubled quotes, then text without any quote
      character: the closing quote is missing, whatever the content held. */
  lemma {:induction false} QuotedFieldUnclosedAfterEscape(field: string, content: string, quote: char)
    requires quote !in content
    ensures QuotedField(Escape(field, quote) + content, quote) == None
    decreases |field|
  {
    if field == [] {
      assert Escape(field, quote) + content == content;
      QuotedFieldUnclosed(content, quote);
    } else {
      QuotedFieldUnclosedAfterEscape(field[1..], content, quote);
      var s := Escape(field, quote) + content;
      var tail := Escape(field[1..], quote) + content;
      if field[0] == quote {
        assert s == [quote, quote] + tail;
        assert s[2..] == tail;
      } else {
        assert s == [field[0]] + tail;
        assert s[1..] == tail;
      }
    }
  }

  /** A line whose first field opens a quote that is never closed has no fields. */
  lemma UnclosedFirstField(field: string, content: string, delimiter: char, quote: char)
    requires quote !in content
    ensures Fields([quote] + Escape(field, quote) + content, delimiter, quote) == None
  {
    var s := [quote] + Escape(field, quote) + content;
    assert s != [] && s[0] == quote;
    assert s[1..] == Escape(field, quote) + content;
    QuotedFieldUnclosedAfterEscape(field, content, quote);
    assert FirstField(s, delimiter, quote) == None;
  }

  /** An empty line holds no row; a first field that opens a quote and never closes it,
      whatever doubled quotes it holds before the end, is malformed. */
  lemma TokenizeEdgeCases(field: string, content: string, delimiter: char, quote: char)
    requires quote !in content
    ensures Tokenize("", delimiter, quote) == NoRow
    ensures Tokenize([quote] + Escape(field, quote) + content, delimiter, quote) == Malformed
  {
    UnclosedFirstField(field, content, delimiter, quote);
  }

  /** Quoted fields before a malformed remainder do not make the line well formed. */
  lemma {:induction false} FieldsAfterEncodeMalformed(values: seq<string>, rest: string, delimiter: char, quote: char)
    requires values != [] && delimiter != quote
    requires Fields(rest, delimiter, quote) == None
    ensures Fields(Encode(values, delimiter, quote) + ([delimiter] + rest), delimiter, quote) == None
    decreases |values|
  {
    var field := [quote] + Escape(values[0], quote) + [quote];
    if |values| == 1 {
      assert Encode(values, delimiter, quote) + ([delimiter] + rest) == field + ([delimiter] + rest);
      FirstFieldOfQuoted(values[0], [delimiter] + rest, delimiter, quote);
      assert ([delimiter] + rest)[1..] == rest;
    } else {
      var more := Encode(values[1..], delimiter, quote) + ([delimiter] + rest);
      FieldsAfterEncodeMalformed(values[1..], rest, delimiter, quote);
      assert Encode(values, delimiter, quote) + ([delimiter] + rest) == field + ([delimiter] + more);
      FirstFieldOfQuoted(values[0], [delimiter] + more, delimiter, quote);
      assert ([delimiter] + more)[1..] == more;
    }
  }

  /** An unclosed quote in a later field, after any number of quoted fields, is malformed. */
  lemma UnclosedQuoteAfterQuotedFields(values: seq<string>, field: string, content: string, delimiter: char, quote: char)
    requires values != [] && delimiter != quote
    requires quote !in content
    ensures Tokenize(Encode(values, delimiter, quote) + ([delimiter] + ([quote] + Escape(field, quote) + content)),
                     delimiter, quote) == Malformed
  {
    UnclosedFirstField(field, content, delimiter, quote);
    FieldsAfterEncodeMalformed(values, [quote] + Escape(field, quote) + content, delimiter, quote);
  }

  /** A plain field is read up to the delimiter that ends it. */
  lemma {:induction false} UnquotedFieldOfPiece(piece: string, rest: string, delimiter: char)
    requires delimiter !in piece
    ensures UnquotedField(piece + ([delimiter] + rest), delimiter) == (piece, [delimiter] + rest)
  {
    var s := piece + ([delimiter] + rest);
    if piece == [] {
      assert s == [delimiter] + rest;
    } else {
      UnquotedFieldOfPiece(piece[1..], rest, delimiter);
      assert s[0] == piece[0] && s[0] != delimiter;
      assert s[1..] == piece[1..] + ([delimiter] + rest);
      assert [piece[0]] + piece[1..] == piece;
    }
  }

  /** A plain field before a malformed remainder does not make the line well formed. */
  lemma FieldsAfterPlainMalformed(piece: string, rest: string, delimiter: char, quote: char)
    requires delimiter != quote && delimiter !in piece && quote !in piece
    requires Fields(rest, delimiter, quote) == None
    ensures Fields(piece + ([delimiter] + rest), delimiter, quote) == None
  {
    var s := piece + ([delimiter] + rest);
    UnquotedFieldOfPiece(piece, rest, delimiter);
    assert s[0] != quote by {
      if piece == [] { assert s[0] == delimiter; } else { assert s[0] == piece[0]; }
    }
    assert FirstField(s, delimiter, quote) == Some((piece, [delimiter] + rest));
    assert ([delimiter] + rest)[1..] == rest;
  }

  /** Plain fields before a malformed remainder do not make the line well formed. */
  lemma {:induction false} FieldsAfterJoinMalformed(values: seq<string>, rest: string, delimiter: char, quote: char)
    requires values != [] && delimiter != quote
    requires forall i :: 0 <= i < |values| ==> delimiter !in values[i] && quote !in values[i]
    requires Fields(rest, delimiter, quote) == None
    ensures Fields(Join(values, delimiter) + ([delimiter] + rest), delimiter, quote) == None
    decreases |values|
  {
    if |values| == 1 {
      FieldsAfterPlainMalformed(values[0], rest, delimiter, quote);
    } else {
      var more := Join(values[1..], delimiter) + ([delimiter] + rest);
      FieldsAfterJoinMalformed(values[1..], rest, delimiter, quote);
      FieldsAfterPlainMalformed(values[0], more, delimiter, quote);
      assert Join(values, delimiter) + ([delimiter] + rest) == values[0] + ([delimiter] + more);
    }
  }

  /** An unclosed quote in a later field, after any number of plain fields (as in `a,"b`),
      is malformed. */
  lemma UnclosedQuoteAfterPlainFields(values: seq<string>, field: string, content: string, delimiter: char, quote: char)
    requires values != [] && delimiter != quote
    requires forall i :: 0 <= i < |values| ==> delimiter !in values[i] && quote !in values[i]
    requires quote !in content
    ensures Tokenize(Join(values, delimiter) + ([delimiter] + ([quote] + Escape(field, quote) + content)),
                     delimiter, quote) == Malformed
  {
    UnclosedFirstField(field, content, delimiter, quote);
    FieldsAfterJoinMalformed(values, [quote] + Escape(field, quote) + content, delimiter, quote);
  }

  /** Delimiters inside a quoted field are not field boundaries: a quoted field (which may
      hold any number of delimiters) followed by a plain one reads as exactly two fields. */
  lemma QuotedFieldKeepsDelimiters(field: string, plain: string, delimiter: char, quote: char)
    requires delimiter != quote
    requires quote !in field
    requires delimiter !in plain && quote !in plain
    ensures Tokenize([quote] + field + [quote] + ([delimiter] + plain), delimiter, quote) == Row([field, plain])
  {
    EscapeWithoutQuotes(field, quote);
    FieldsWithoutQuotes(plain, delimiter, quote);
    SplitPiece(plain, delimiter);
    FieldsAfterQuoted(field, plain, delimiter, quote);
  }

  /** Empty fields are kept: `a,,b` reads as `a`, the empty field and `b`. */
  lemma EmptyFieldExample()
    ensures Tokenize("a,,b", ',', '"') == Row(["a", "", "b"])
  {
    TokenizeOfJoin(["a", "", "b"], ',', '"');
    assert ["a", "", "b"][1..][1..] == ["b"];
    assert Join(["a", "", "b"], ',') == "a,,b";
  }

  /** A doubled quote inside a quoted field stands for one quote: `"x""y"` reads as `x"y`. */
  lemma DoubledQuoteExample()
    ensures Tokenize("\"x\"\"y\"", ',', '"') == Row(["x\"y"])
  {
    TokenizeOfEncode(["x\"y"], ',', '"');
    assert Escape("y", '"') == "y";
    assert Escape("\"y", '"') == "\"\"y";
    assert Escape("x\"y", '"') == "x\"\"y";
    assert Encode(["x\"y"], ',', '"') == "\"x\"\"y\"";
  }
}
