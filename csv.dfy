/** The text "Download CSV" saves: a header line of column names, then one
    line per record with its fields in column order. Fields are written as
    they are: nothing is quoted or escaped. */
module Csv {
  import opened Strings
  import opened Schema
  import opened Parser

  /** The header line: the column names joined by commas. */
  function Header(columns: seq<Column>): string {
    Join(seq(|columns|, i requires 0 <= i < |columns| => columns[i].name), ',')
  }

  /** A record's fields in column order (a missing key gives the empty
      text). */
  function RowFields(columns: seq<Column>, rec: Record): seq<string> {
    seq(|columns|, i requires 0 <= i < |columns| => Field(rec, columns[i].id))
  }

  /** A record's line: its fields joined by commas. */
  function RowLine(columns: seq<Column>, rec: Record): string {
    Join(RowFields(columns, rec), ',')
  }

  /** The record lines, in record order. */
  function RowLines(columns: seq<Column>, records: seq<Record>): seq<string> {
    seq(|records|, k requires 0 <= k < |records| => RowLine(columns, records[k]))
  }

  /** The whole file: the header, a line break, then the record lines joined
      by line breaks. */
  function CsvText(columns: seq<Column>, records: seq<Record>): string {
    Header(columns) + "\n" + Join(RowLines(columns, records), '\n')
  }

  /** Pieces without a line break joined by commas hold no line break. */
  lemma {:induction false} JoinOneLine(parts: seq<string>)
    requires forall i :: 0 <= i < |parts| ==> '\n' !in parts[i]
    ensures '\n' !in Join(parts, ',')
    decreases |parts|
  {
    if |parts| > 1 { JoinOneLine(parts[1..]); }
  }

  /** No column name and no field holds a line break. */
  predicate OneLineEach(columns: seq<Column>, records: seq<Record>) {
    && (forall i :: 0 <= i < |columns| ==> '\n' !in columns[i].name)
    && (forall k, i :: 0 <= k < |records| && 0 <= i < |columns| ==> '\n' !in Field(records[k], columns[i].id))
  }

  /** Split back on line breaks, the file is the header followed by one line
      per record: 1 + |records| lines when there are records, and the header
      with an empty last line when there are none. */
  lemma CsvLines(columns: seq<Column>, records: seq<Record>)
    requires OneLineEach(columns, records)
    ensures |records| > 0 ==> Split(CsvText(columns, records), '\n') == [Header(columns)] + RowLines(columns, records)
    ensures |records| > 0 ==> |Split(CsvText(columns, records), '\n')| == 1 + |records|
    ensures |records| == 0 ==> Split(CsvText(columns, records), '\n') == [Header(columns), ""]
  {
    var lines := [Header(columns)] + RowLines(columns, records);
    JoinOneLine(seq(|columns|, i requires 0 <= i < |columns| => columns[i].name));
    forall k | 0 <= k < |records| ensures '\n' !in RowLine(columns, records[k]) {
      JoinOneLine(RowFields(columns, records[k]));
    }
    if |records| > 0 {
      assert lines[1..] == RowLines(columns, records);
      assert Join(lines, '\n') == CsvText(columns, records);
      forall i, c | 0 <= i < |lines| && 0 <= c < |lines[i]| ensures lines[i][c] != '\n' {
        if i > 0 { assert lines[i] == RowLine(columns, records[i - 1]); }
      }
      SplitJoin(lines, '\n');
    } else {
      assert CsvText(columns, records) == Header(columns) + ['\n'] + [];
      SplitAfterPiece(Header(columns), '\n', []);
    }
  }

  /** The record lines of parsed text always meet the one-line condition,
      so only the column names need checking. */
  lemma ParsedOneLine(raw: string, columns: seq<Column>)
    requires forall i :: 0 <= i < |columns| ==> '\n' !in columns[i].name
    ensures OneLineEach(columns, ParseRows(raw, columns))
  {
    var rows := ParseRows(raw, columns);
    forall k, i | 0 <= k < |rows| && 0 <= i < |columns| ensures '\n' !in Field(rows[k], columns[i].id) {
      if columns[i].id in rows[k] { ParsedValueOneLine(raw, columns, k, columns[i].id); }
    }
  }

  /** A line with one comma-free token per column survives the trip
      through the parser and the CSV writer: splitting its CSV line on
      commas gives back the line's tokens. */
  lemma RowRoundTrip(columns: seq<Column>, line: string)
    requires |columns| >= 1 && UniqueIds(columns)
    requires |Tokens(line)| == |columns|
    requires ',' !in line
    ensures Split(RowLine(columns, RecordOf(columns, Tokens(line))), ',') == Tokens(line)
  {
    var toks := Tokens(line);
    var rec := RecordOf(columns, toks);
    forall i | 0 <= i < |columns| ensures RowFields(columns, rec)[i] == toks[i] {
      RecordField(columns, toks, i);
    }
    assert RowFields(columns, rec) == toks;
    forall i, c | 0 <= i < |toks| && 0 <= c < |toks[i]| ensures toks[i][c] != ',' {
      TokenCharsFromLine(line, i, c);
    }
    SplitJoin(toks, ',');
  }
}
