/** The column schema the user edits: its initial value, the two edits the
    page offers (append a grade column, rename a column), and the invariant
    these keep. */
module Schema {
  import opened Strings

  datatype ColumnType = IdColumn | GradeColumn

  /** A column of the table: a generated key, a display name and a type. */
  datatype Column = Column(id: string, name: string, kind: ColumnType)

  /** The generated key of the n-th column (counting from 1): "col" + n. */
  function ColumnId(n: nat): string {
    "col" + NatToString(n)
  }

  /** The generated display name of the n-th grade column: "Grade " + n. */
  function GradeName(n: nat): string {
    "Grade " + NatToString(n)
  }

  /** The grade columns of a schema, in schema order: only grade columns
      are kept (and, by GradeColumnsKeeps, every grade column is). */
  function GradeColumns(columns: seq<Column>): (g: seq<Column>)
    ensures |g| <= |columns|
    ensures forall k :: 0 <= k < |g| ==> g[k].kind == GradeColumn
    decreases |columns|
  {
    if |columns| == 0 then []
    else
      var last := columns[|columns| - 1];
      GradeColumns(columns[..|columns| - 1]) + (if last.kind == GradeColumn then [last] else [])
  }

  /** The filter distributes over concatenation, so it keeps the grade
      columns in their order and with their repetitions. */
  lemma {:induction false} GradeColumnsAppend(a: seq<Column>, b: seq<Column>)
    ensures GradeColumns(a + b) == GradeColumns(a) + GradeColumns(b)
    decreases |b|
  {
    if |b| > 0 {
      var n := |b| - 1;
      GradeColumnsAppend(a, b[..n]);
      assert (a + b)[..|a + b| - 1] == a + b[..n];
    } else {
      assert a + b == a;
    }
  }

  /** A single column passes the filter exactly when it is a grade column. */
  lemma GradeColumnsOfOne(c: Column)
    ensures GradeColumns([c]) == (if c.kind == GradeColumn then [c] else [])
  {
    assert [c][..0] == [];
  }

  /** A grade column between two stretches of columns passes the filter,
      between their filtered stretches. */
  lemma GradeColumnsAround(columns: seq<Column>, before: seq<Column>, c: Column, after: seq<Column>)
    requires columns == before + [c] + after && c.kind == GradeColumn
    ensures GradeColumns(columns) == GradeColumns(before) + [c] + GradeColumns(after)
    ensures c in GradeColumns(columns)
  {
    GradeColumnsAppend(before + [c], after);
    GradeColumnsAppend(before, [c]);
    GradeColumnsOfOne(c);
    assert GradeColumns(columns)[|GradeColumns(before)|] == c;
  }

  /** A sequence is its prefix, the element at k and its suffix. */
  lemma SplitAt<T>(s: seq<T>, k: nat)
    requires k < |s|
    ensures s == s[..k] + [s[k]] + s[k + 1..]
  {
  }

  /** Every grade column of a schema survives the filter, and the ones
      before it come before it in the result. */
  lemma GradeColumnsKeeps(columns: seq<Column>, k: nat)
    requires k < |columns| && columns[k].kind == GradeColumn
    ensures GradeColumns(columns)
              == GradeColumns(columns[..k]) + [columns[k]] + GradeColumns(columns[k + 1..])
    ensures columns[k] in GradeColumns(columns)
  {
    SplitAt(columns, k);
    GradeColumnsAround(columns, columns[..k], columns[k], columns[k + 1..]);
  }

  /** The schema invariant: column i (from 0) has key "col{i+1}", column 0
      is the identifier column, every other column is a grade column, and
      there is at least one grade column. */
  predicate WellFormed(columns: seq<Column>) {
    && |columns| >= 2
    && forall i :: 0 <= i < |columns| ==>
         columns[i].id == ColumnId(i + 1)
         && columns[i].kind == (if i == 0 then IdColumn else GradeColumn)
  }

  /** The schema the page starts with. */
  function InitialColumns(): (columns: seq<Column>)
    ensures WellFormed(columns)
  {
    assert NatToString(1) == "1" && NatToString(2) == "2";
    [Column("col1", "ID", IdColumn), Column("col2", "Grade 1", GradeColumn)]
  }

  /** The "Add Column" edit: appends a grade column whose key counts the
      columns and whose name counts the grade columns. */
  function AddColumn(columns: seq<Column>): (r: seq<Column>)
    ensures |r| == |columns| + 1 && r[..|columns|] == columns
    ensures r[|columns|].kind == GradeColumn
    ensures r[|columns|].id == ColumnId(|columns| + 1)
    ensures r[|columns|].name == GradeName(|GradeColumns(columns)| + 1)
  {
    columns + [Column(ColumnId(|columns| + 1), GradeName(|GradeColumns(columns)| + 1), GradeColumn)]
  }

  /** The rename edit: every column whose key is `id` takes the new name;
      keys, types and the other names stay. */
  function RenameColumn(columns: seq<Column>, id: string, name: string): (r: seq<Column>)
    ensures |r| == |columns|
    ensures forall i :: 0 <= i < |r| ==> r[i].id == columns[i].id && r[i].kind == columns[i].kind
    ensures forall i :: 0 <= i < |r| && columns[i].id == id ==> r[i].name == name
    ensures forall i :: 0 <= i < |r| && columns[i].id != id ==> r[i] == columns[i]
  {
    seq(|columns|, i requires 0 <= i < |columns| =>
      if columns[i].id == id then columns[i].(name := name) else columns[i])
  }

  /** Adding a column adds exactly one grade column. */
  lemma AddColumnGradeCount(columns: seq<Column>)
    ensures |GradeColumns(AddColumn(columns))| == |GradeColumns(columns)| + 1
  {
    var r := AddColumn(columns);
    assert r[..|r| - 1] == columns;
  }

  /** Renaming never changes the grade columns' count. */
  lemma {:induction false} RenameGradeCount(columns: seq<Column>, id: string, name: string)
    ensures |GradeColumns(RenameColumn(columns, id, name))| == |GradeColumns(columns)|
    decreases |columns|
  {
    if |columns| > 0 {
      var n := |columns| - 1;
      var r := RenameColumn(columns, id, name);
      RenameGradeCount(columns[..n], id, name);
      assert r[..n] == RenameColumn(columns[..n], id, name);
    }
  }

  /** An identifier column followed by grade columns filters to the grade
      columns. */
  lemma {:induction false} GradeColumnsAfterId(columns: seq<Column>)
    requires |columns| >= 1 && columns[0].kind == IdColumn
    requires forall i :: 1 <= i < |columns| ==> columns[i].kind == GradeColumn
    ensures GradeColumns(columns) == columns[1..]
    decreases |columns|
  {
    var n := |columns| - 1;
    if n == 0 {
      assert columns[..0] == [];
    } else {
      GradeColumnsAfterId(columns[..n]);
      assert columns[..n][1..] + [columns[n]] == columns[1..];
    }
  }

  /** In a well-formed schema the grade columns are all columns but the
      first, so their count, the divisor of every average, is positive. */
  lemma WellFormedGradeColumns(columns: seq<Column>)
    requires WellFormed(columns)
    ensures GradeColumns(columns) == columns[1..]
    ensures |GradeColumns(columns)| == |columns| - 1 >= 1
  {
    GradeColumnsAfterId(columns);
  }

  /** No two columns share a key. */
  predicate UniqueIds(columns: seq<Column>) {
    forall i, j :: 0 <= i < j < |columns| ==> columns[i].id != columns[j].id
  }

  /** In a well-formed schema no two columns share a key: the generated
      keys "col1", "col2", ... are pairwise distinct. */
  lemma WellFormedUniqueIds(columns: seq<Column>)
    requires WellFormed(columns)
    ensures UniqueIds(columns)
  {
    forall i, j | 0 <= i < j < |columns| ensures columns[i].id != columns[j].id {
      var a, b := NatToString(i + 1), NatToString(j + 1);
      if columns[i].id == columns[j].id {
        assert "col" + a == "col" + b;
        assert a == ("col" + a)[3..] == ("col" + b)[3..] == b;
        NatToStringInjective(i + 1, j + 1);
      }
    }
  }

  /** Adding a column keeps the invariant, and the new column's name is
      "Grade n" where n is the old column count. */
  lemma AddColumnWellFormed(columns: seq<Column>)
    requires WellFormed(columns)
    ensures WellFormed(AddColumn(columns))
    ensures AddColumn(columns)[|columns|].name == GradeName(|columns|)
  {
    WellFormedGradeColumns(columns);
    var r := AddColumn(columns);
    forall i | 0 <= i < |r|
      ensures r[i].id == ColumnId(i + 1)
      ensures r[i].kind == (if i == 0 then IdColumn else GradeColumn)
    {
      if i < |columns| {
        assert r[i] == r[..|columns|][i] == columns[i];
      }
    }
  }

  /** Renaming keeps the invariant. */
  lemma RenameWellFormed(columns: seq<Column>, id: string, name: string)
    requires WellFormed(columns)
    ensures WellFormed(RenameColumn(columns, id, name))
  {
  }

  /** Renaming the same column twice: the second name wins. */
  lemma RenameTwice(columns: seq<Column>, id: string, a: string, b: string)
    ensures RenameColumn(RenameColumn(columns, id, a), id, b) == RenameColumn(columns, id, b)
  {
  }

  /** In a well-formed schema a rename touches at most one column: the one
      whose key it names. */
  lemma RenameTouchesOne(columns: seq<Column>, id: string, name: string, i: nat, j: nat)
    requires WellFormed(columns)
    requires i < |columns| && j < |columns|
    requires RenameColumn(columns, id, name)[i] != columns[i]
    requires RenameColumn(columns, id, name)[j] != columns[j]
    ensures i == j
  {
    WellFormedUniqueIds(columns);
    assert columns[i].id == id == columns[j].id;
  }

  /** A schema edit the user can make from the page. */
  datatype Edit = AddGrade | Rename(id: string, name: string)

  function ApplyEdit(columns: seq<Column>, e: Edit): seq<Column> {
    match e
    case AddGrade => AddColumn(columns)
    case Rename(id, name) => RenameColumn(columns, id, name)
  }

  function ApplyEdits(columns: seq<Column>, edits: seq<Edit>): seq<Column>
    decreases |edits|
  {
    if |edits| == 0 then columns else ApplyEdits(ApplyEdit(columns, edits[0]), edits[1..])
  }

  /** Every schema reachable from the initial one by any sequence of edits
      is well formed: column 0 is the identifier column and there is at
      least one grade column. */
  lemma {:induction false} ReachableWellFormed(columns: seq<Column>, edits: seq<Edit>)
    requires WellFormed(columns)
    ensures WellFormed(ApplyEdits(columns, edits))
    ensures ApplyEdits(columns, edits)[0].kind == IdColumn
    ensures |GradeColumns(ApplyEdits(columns, edits))| >= 1
    decreases |edits|
  {
    if |edits| == 0 {
      WellFormedGradeColumns(columns);
    } else {
      match edits[0] {
        case AddGrade => AddColumnWellFormed(columns);
        case Rename(id, name) => RenameWellFormed(columns, id, name);
      }
      ReachableWellFormed(ApplyEdit(columns, edits[0]), edits[1..]);
    }
  }

  /** The same, from the schema the page starts with. */
  lemma InitialReachableWellFormed(edits: seq<Edit>)
    ensures WellFormed(ApplyEdits(InitialColumns(), edits))
    ensures |GradeColumns(ApplyEdits(InitialColumns(), edits))| >= 1
  {
    ReachableWellFormed(InitialColumns(), edits);
  }
}
