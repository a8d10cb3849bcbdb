/** The page's state and the handlers that change it. Each handler replaces
    one field, as the component's setters do; the rest of the state stays
    as it was. */
module App {
  import opened Strings
  import opened Schema
  import opened Parser
  import opened Ranking
  import opened Csv

  /** Adding a column adds its key to the schema's keys. */
  lemma AddColumnIds(columns: seq<Column>)
    ensures Ids(AddColumn(columns)) == Ids(columns) + {ColumnId(|columns| + 1)}
  {
    var r := AddColumn(columns);
    forall x | x in Ids(r) ensures x in Ids(columns) + {ColumnId(|columns| + 1)} {
      var i :| 0 <= i < |r| && r[i].id == x;
      if i < |columns| { assert r[..|columns|][i] == columns[i]; }
    }
    forall x | x in Ids(columns) ensures x in Ids(r) {
      var i :| 0 <= i < |columns| && columns[i].id == x;
      assert r[..|columns|][i] == r[i];
    }
    assert r[|columns|].id in Ids(r);
  }

  /** Renaming keeps the schema's keys. */
  lemma RenameColumnIds(columns: seq<Column>, id: string, name: string)
    ensures Ids(RenameColumn(columns, id, name)) == Ids(columns)
  {
    var r := RenameColumn(columns, id, name);
    forall x | x in Ids(r) ensures x in Ids(columns) {
      var i :| 0 <= i < |r| && r[i].id == x;
    }
    forall x | x in Ids(columns) ensures x in Ids(r) {
      var i :| 0 <= i < |columns| && columns[i].id == x;
      assert r[i].id == x;
    }
  }

  /** Parsed records carry exactly the schema's keys and no line breaks. */
  lemma ParsedRecordsFit(raw: string, columns: seq<Column>)
    ensures forall k :: 0 <= k < |ParseRows(raw, columns)| ==> ParseRows(raw, columns)[k].Keys == Ids(columns)
    ensures forall k, key :: 0 <= k < |ParseRows(raw, columns)| && key in ParseRows(raw, columns)[k]
              ==> '\n' !in ParseRows(raw, columns)[k][key]
  {
    var rows := ParseRows(raw, columns);
    forall k | 0 <= k < |rows| ensures rows[k].Keys == Ids(columns) {
      RecordKeys(columns, Tokens(Lines(raw)[k]));
    }
    forall k, key | 0 <= k < |rows| && key in rows[k] ensures '\n' !in rows[k][key] {
      ParsedValueOneLine(raw, columns, k, key);
    }
  }

  /** The grade calculator component. */
  class GradeCalculator {
    var columns: seq<Column>
    var rawData: string
    var parsedData: seq<Record>
    var searchId: string
    var result: RankResult

    /** The state invariant: the schema is well formed; every parsed record
        holds the identifier column's key, only keys of the schema, and no
        value with a line break. */
    ghost predicate Valid()
      reads this
    {
      && WellFormed(columns)
      && (forall k :: 0 <= k < |parsedData| ==>
            columns[0].id in parsedData[k] && parsedData[k].Keys <= Ids(columns))
      && (forall k, key :: 0 <= k < |parsedData| && key in parsedData[k] ==> '\n' !in parsedData[k][key])
    }

    /** The initial state: the two default columns, no text, no records,
        no search and no result. */
    constructor ()
      ensures Valid()
      ensures columns == InitialColumns() && rawData == "" && parsedData == []
      ensures searchId == "" && result == NoResult
    {
      columns := InitialColumns();
      rawData := "";
      parsedData := [];
      searchId := "";
      result := NoResult;
    }

    /** Typing in the data text area. */
    method SetRawData(text: string)
      requires Valid()
      modifies this
      ensures Valid() && rawData == text
      ensures columns == old(columns) && parsedData == old(parsedData)
      ensures searchId == old(searchId) && result == old(result)
    {
      rawData := text;
    }

    /** Typing in the search box. */
    method SetSearchId(text: string)
      requires Valid()
      modifies this
      ensures Valid() && searchId == text
      ensures columns == old(columns) && rawData == old(rawData)
      ensures parsedData == old(parsedData) && result == old(result)
    {
      searchId := text;
    }

    /** "Add Column": appends the next grade column. The invariant still
        holds, the schema has one more grade column, and the new column is
        named "Grade n" for the old column count n. */
    method AddGradeColumn()
      requires Valid()
      modifies this
      ensures Valid() && columns == AddColumn(old(columns))
      ensures |GradeColumns(columns)| == |GradeColumns(old(columns))| + 1
      ensures columns[|columns| - 1].name == GradeName(|old(columns)|)
      ensures rawData == old(rawData) && parsedData == old(parsedData)
      ensures searchId == old(searchId) && result == old(result)
    {
      AddColumnWellFormed(columns);
      AddColumnGradeCount(columns);
      AddColumnIds(columns);
      columns := AddColumn(columns);
    }

    /** Editing a column name: the columns keyed `id` take the new name. */
    method UpdateColumnName(id: string, name: string)
      requires Valid()
      modifies this
      ensures Valid() && columns == RenameColumn(old(columns), id, name)
      ensures rawData == old(rawData) && parsedData == old(parsedData)
      ensures searchId == old(searchId) && result == old(result)
    {
      RenameWellFormed(columns, id, name);
      RenameColumnIds(columns, id, name);
      columns := RenameColumn(columns, id, name);
    }

    /** "Parse Data": replaces the records with one record per line of the
        trimmed text, filled column by column. */
    method ParseData()
      requires Valid()
      modifies this
      ensures Valid() && parsedData == ParseRows(rawData, columns)
      ensures forall k :: 0 <= k < |parsedData| ==> parsedData[k].Keys == Ids(columns)
      ensures columns == old(columns) && rawData == old(rawData)
      ensures searchId == old(searchId) && result == old(result)
    {
      ParsedRecordsFit(rawData, columns);
      assert columns[0].id in Ids(columns);
      parsedData := ParseRows(rawData, columns);
    }

    /** "Calculate": with an empty search nothing changes; otherwise the
        result becomes the searched record's rank, or no result when no
        record carries that id. */
    method CalculateResults()
      requires Valid()
      modifies this
      ensures Valid()
      ensures searchId == "" ==> result == old(result)
      ensures searchId != "" ==> result == RankFor(parsedData, columns, searchId)
      ensures searchId != "" && result.Ranked? ==> 1 <= result.rank <= result.total == |parsedData|
      ensures columns == old(columns) && rawData == old(rawData)
      ensures parsedData == old(parsedData) && searchId == old(searchId)
    {
      if searchId == "" {
        return;
      }
      result := RankFor(parsedData, columns, searchId);
    }

    /** The text "Download CSV" saves. When no column name holds a line
        break, it splits into the header and one line per record. */
    method DownloadCsv() returns (csv: string)
      requires Valid()
      ensures csv == CsvText(columns, parsedData)
      ensures (forall i :: 0 <= i < |columns| ==> '\n' !in columns[i].name) && |parsedData| > 0 ==>
                Split(csv, '\n') == [Header(columns)] + RowLines(columns, parsedData)
    {
      var headers := Header(columns);
      var rows := Join(RowLines(columns, parsedData), '\n');
      csv := headers + "\n" + rows;
      if forall i :: 0 <= i < |columns| ==> '\n' !in columns[i].name {
        forall k, i | 0 <= k < |parsedData| && 0 <= i < |columns|
          ensures '\n' !in Field(parsedData[k], columns[i].id) { }
        CsvLines(columns, parsedData);
      }
    }
  }
}
