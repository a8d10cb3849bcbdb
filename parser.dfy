/** The "Parse Data" computation: the pasted text becomes one record per
    line, each record mapping every column key to the line's token at that
    column's position, or to the empty text when the line is short. */
module Parser {
  import opened Strings
  import opened Schema

  /** A parsed line: column key to raw text. Grades stay text until they
      are ranked. */
  type Record = map<string, string>

  /** `data[key]` where a missing key reads as the empty text, as
      JavaScript's `undefined` does under `|| 0` and under `join`. */
  function Field(rec: Record, key: string): string {
    if key in rec then rec[key] else ""
  }

  /** The keys of a schema's columns. */
  function Ids(columns: seq<Column>): set<string> {
    set i | 0 <= i < |columns| :: columns[i].id
  }

  /** The pieces that are not blank after trimming, in their order. */
  function NonBlank(parts: seq<string>): (r: seq<string>)
    ensures |r| <= |parts|
    ensures forall k :: 0 <= k < |r| ==> Trim(r[k]) != []
    decreases |parts|
  {
    if |parts| == 0 then []
    else (if Trim(parts[0]) != [] then [parts[0]] else []) + NonBlank(parts[1..])
  }

  /** The filter distributes over concatenation, so it keeps the
      non-blank pieces in their order and with their repetitions. */
  lemma {:induction false} NonBlankAppend(a: seq<string>, b: seq<string>)
    ensures NonBlank(a + b) == NonBlank(a) + NonBlank(b)
    decreases |a|
  {
    if |a| == 0 {
      assert a + b == b;
    } else {
      var head := if Trim(a[0]) != [] then [a[0]] else [];
      NonBlankAppend(a[1..], b);
      calc {
        NonBlank(a + b);
      == { assert (a + b)[0] == a[0] && (a + b)[1..] == a[1..] + b; }
        head + NonBlank(a[1..] + b);
      ==
        head + (NonBlank(a[1..]) + NonBlank(b));
      ==
        NonBlank(a) + NonBlank(b);
      }
    }
  }

  /** A single piece passes the filter exactly when it is not blank. */
  lemma NonBlankOfOne(p: string)
    ensures NonBlank([p]) == (if Trim(p) != [] then [p] else [])
  {
    assert [p][1..] == [];
  }

  /** Every piece the filter keeps comes from its input. */
  lemma {:induction false} NonBlankFromParts(parts: seq<string>, k: nat)
    requires k < |NonBlank(parts)|
    ensures NonBlank(parts)[k] in parts
    decreases |parts|
  {
    if Trim(parts[0]) != [] {
      if k > 0 { NonBlankFromParts(parts[1..], k - 1); }
    } else {
      NonBlankFromParts(parts[1..], k);
    }
  }

  /** Every non-blank piece survives the filter. */
  lemma {:induction false} NonBlankKeeps(parts: seq<string>, p: string)
    requires p in parts && Trim(p) != []
    ensures p in NonBlank(parts)
    decreases |parts|
  {
    if parts[0] != p {
      NonBlankKeeps(parts[1..], p);
    }
  }

  /** Only blank pieces: nothing survives. */
  lemma {:induction false} NonBlankOfBlanks(parts: seq<string>)
    requires forall k :: 0 <= k < |parts| ==> Trim(parts[k]) == []
    ensures NonBlank(parts) == []
    decreases |parts|
  {
    if |parts| > 0 { NonBlankOfBlanks(parts[1..]); }
  }

  /** The tokens of a line: split on single spaces, blank pieces dropped.
      Tokens are never empty and never hold a space. */
  function Tokens(line: string): (r: seq<string>)
    ensures forall k :: 0 <= k < |r| ==> r[k] != [] && ' ' !in r[k]
  {
    var r := NonBlank(Split(line, ' '));
    assert forall k :: 0 <= k < |r| ==> ' ' !in r[k] by {
      forall k | 0 <= k < |r| ensures ' ' !in r[k] {
        NonBlankFromParts(Split(line, ' '), k);
        var i :| 0 <= i < |Split(line, ' ')| && Split(line, ' ')[i] == r[k];
      }
    }
    r
  }

  /** Every character of a token comes from its line. */
  lemma TokenCharsFromLine(line: string, k: nat, c: nat)
    requires k < |Tokens(line)| && c < |Tokens(line)[k]|
    ensures Tokens(line)[k][c] in line
  {
    var parts := Split(line, ' ');
    NonBlankFromParts(parts, k);
    var i :| 0 <= i < |parts| && parts[i] == Tokens(line)[k];
    SplitPiecesFromText(line, ' ', i, c);
  }

  /** A line of whitespace has no tokens. */
  lemma BlankLineTokens(line: string)
    requires AllWhitespace(line)
    ensures Tokens(line) == []
  {
    var parts := Split(line, ' ');
    forall i | 0 <= i < |parts| ensures Trim(parts[i]) == [] {
      forall k | 0 <= k < |parts[i]| ensures IsWhitespace(parts[i][k]) {
        SplitPiecesFromText(line, ' ', i, k);
      }
      TrimEmptyIff(parts[i]);
    }
    NonBlankOfBlanks(parts);
  }

  /** Words without spaces, joined by single spaces, tokenise back to the
      same words. */
  lemma TokensOfWords(words: seq<string>)
    requires |words| >= 1
    requires forall i :: 0 <= i < |words| ==> ' ' !in words[i] && Trim(words[i]) != []
    ensures Tokens(Join(words, ' ')) == words
  {
    SplitJoin(words, ' ');
    NonBlankOfNonBlanks(words);
  }

  lemma {:induction false} NonBlankOfNonBlanks(parts: seq<string>)
    requires forall k :: 0 <= k < |parts| ==> Trim(parts[k]) != []
    ensures NonBlank(parts) == parts
    decreases |parts|
  {
    if |parts| > 0 {
      NonBlankOfNonBlanks(parts[1..]);
      assert [parts[0]] + parts[1..] == parts;
    }
  }

  /** `values[index] || ''`: the token at a position, or the empty text
      past the last token. */
  function Cell(values: seq<string>, i: nat): string {
    if i < |values| then values[i] else ""
  }

  /** The record the per-column loop builds: every column in schema order
      writes its position's cell under its key (a later column with the
      same key overwrites an earlier one). */
  function RecordOf(columns: seq<Column>, values: seq<string>): Record
    decreases |columns|
  {
    if |columns| == 0 then map[]
    else
      var n := |columns| - 1;
      RecordOf(columns[..n], values)[columns[n].id := Cell(values, n)]
  }

  /** A record's keys are exactly the column keys. */
  lemma {:induction false} RecordKeys(columns: seq<Column>, values: seq<string>)
    ensures RecordOf(columns, values).Keys == Ids(columns)
    decreases |columns|
  {
    if |columns| > 0 {
      var n := |columns| - 1;
      RecordKeys(columns[..n], values);
      assert Ids(columns) == Ids(columns[..n]) + {columns[n].id} by {
        forall x | x in Ids(columns) ensures x in Ids(columns[..n]) + {columns[n].id} {
          var i :| 0 <= i < |columns| && columns[i].id == x;
          if i < n { assert columns[..n][i] == columns[i]; }
        }
        forall x | x in Ids(columns[..n]) ensures x in Ids(columns) {
          var i :| 0 <= i < n && columns[..n][i].id == x;
          assert columns[i].id == x;
        }
      }
    }
  }

  /** A column's key holds its position's cell, unless a later column
      shares the key. */
  lemma {:induction false} RecordField(columns: seq<Column>, values: seq<string>, i: nat)
    requires i < |columns|
    requires forall j :: i < j < |columns| ==> columns[j].id != columns[i].id
    ensures columns[i].id in RecordOf(columns, values)
    ensures RecordOf(columns, values)[columns[i].id] == Cell(values, i)
    decreases |columns|
  {
    var n := |columns| - 1;
    if i < n {
      RecordField(columns[..n], values, i);
    }
  }

  /** Every value of a record is the cell of some column position. */
  lemma {:induction false} RecordValues(columns: seq<Column>, values: seq<string>, key: string)
    requires key in RecordOf(columns, values)
    ensures exists i :: 0 <= i < |columns| && RecordOf(columns, values)[key] == Cell(values, i)
    decreases |columns|
  {
    var n := |columns| - 1;
    if key != columns[n].id {
      RecordValues(columns[..n], values, key);
      var i :| 0 <= i < n && RecordOf(columns[..n], values)[key] == Cell(values, i);
    }
  }

  /** With no tokens, every field of the record is empty. */
  lemma {:induction false} EmptyRecord(columns: seq<Column>)
    ensures forall k :: k in RecordOf(columns, []) ==> RecordOf(columns, [])[k] == ""
    decreases |columns|
  {
    if |columns| > 0 { EmptyRecord(columns[..|columns| - 1]); }
  }

  /** The per-column loop of the parser: fills a fresh record column by
      column. */
  method BuildRecord(columns: seq<Column>, values: seq<string>) returns (data: Record)
    ensures data == RecordOf(columns, values)
    ensures data.Keys == Ids(columns)
    ensures UniqueIds(columns) ==>
              forall i :: 0 <= i < |columns| ==> data[columns[i].id] == Cell(values, i)
  {
    data := map[];
    for i := 0 to |columns|
      invariant data == RecordOf(columns[..i], values)
    {
      assert columns[..i + 1][..i] == columns[..i];
      data := data[columns[i].id := Cell(values, i)];
    }
    assert columns[..|columns|] == columns;
    RecordKeys(columns, values);
    if UniqueIds(columns) {
      forall i | 0 <= i < |columns| ensures data[columns[i].id] == Cell(values, i) {
        RecordField(columns, values, i);
      }
    }
  }

  /** `rawData.trim().split('\n')`: the lines of the pasted text. There is
      always at least one, even for empty text. */
  function Lines(raw: string): (lines: seq<string>)
    ensures |lines| >= 1
    ensures forall r, c :: 0 <= r < |lines| && 0 <= c < |lines[r]| ==> lines[r][c] != '\n'
  {
    Split(Trim(raw), '\n')
  }

  /** The records "Parse Data" produces: one per line, in line order. */
  function ParseRows(raw: string, columns: seq<Column>): (rows: seq<Record>)
    ensures |rows| == |Lines(raw)|
  {
    var lines := Lines(raw);
    seq(|lines|, i requires 0 <= i < |lines| => RecordOf(columns, Tokens(lines[i])))
  }

  /** The shape guarantee: one record per line, each record keyed by
      exactly the column keys, field i the line's i-th token or empty. */
  lemma ParseShape(raw: string, columns: seq<Column>, r: nat, i: nat)
    requires UniqueIds(columns)
    requires r < |Lines(raw)| && i < |columns|
    ensures ParseRows(raw, columns)[r].Keys == Ids(columns)
    ensures ParseRows(raw, columns)[r][columns[i].id] == Cell(Tokens(Lines(raw)[r]), i)
  {
    RecordKeys(columns, Tokens(Lines(raw)[r]));
    RecordField(columns, Tokens(Lines(raw)[r]), i);
  }

  /** There is one record more than there are line breaks inside the
      trimmed text. */
  lemma ParseRowCount(raw: string, columns: seq<Column>)
    ensures |ParseRows(raw, columns)| == Occurrences(Trim(raw), '\n') + 1
  {
    SplitCount(Trim(raw), '\n');
  }

  /** Empty or all-whitespace text gives exactly one record, and all its
      fields are empty. */
  lemma ParseBlankText(raw: string, columns: seq<Column>)
    requires AllWhitespace(raw)
    ensures |ParseRows(raw, columns)| == 1
    ensures ParseRows(raw, columns)[0].Keys == Ids(columns)
    ensures forall k :: k in ParseRows(raw, columns)[0] ==> ParseRows(raw, columns)[0][k] == ""
  {
    TrimEmptyIff(raw);
    assert Lines(raw) == [[]];
    BlankLineTokens([]);
    RecordKeys(columns, []);
    EmptyRecord(columns);
  }

  /** A blank line inside the text is kept as a record whose fields are
      all empty. */
  lemma ParseBlankLine(raw: string, columns: seq<Column>, r: nat)
    requires r < |Lines(raw)| && AllWhitespace(Lines(raw)[r])
    ensures ParseRows(raw, columns)[r].Keys == Ids(columns)
    ensures forall k :: k in ParseRows(raw, columns)[r] ==> ParseRows(raw, columns)[r][k] == ""
  {
    BlankLineTokens(Lines(raw)[r]);
    RecordKeys(columns, []);
    EmptyRecord(columns);
  }

  /** No parsed value holds a line break, whatever the pasted text. */
  lemma ParsedValueOneLine(raw: string, columns: seq<Column>, r: nat, key: string)
    requires r < |ParseRows(raw, columns)| && key in ParseRows(raw, columns)[r]
    ensures '\n' !in ParseRows(raw, columns)[r][key]
  {
    var line := Lines(raw)[r];
    var toks := Tokens(line);
    RecordValues(columns, toks, key);
    var i :| 0 <= i < |columns| && RecordOf(columns, toks)[key] == Cell(toks, i);
    if i < |toks| {
      forall c | 0 <= c < |toks[i]| ensures toks[i][c] != '\n' {
        TokenCharsFromLine(line, i, c);
      }
    }
  }
}
