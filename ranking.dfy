/** The "Calculate" computation: find the searched student's record, average
    its grade columns, and rank it against every record by counting the
    records with a strictly higher average (competition ranking). */
module Ranking {
  import opened Strings
  import opened Schema
  import opened Parser

  datatype Option<T> = None | Some(value: T)

  /** What "Your Results" shows: nothing, or a rank out of the number of
      records, from which the "top X%" figure is derived. */
  datatype RankResult = NoResult | Ranked(rank: nat, total: nat) {

    /** The "top X%" figure: rank / total * 100, kept exact. */
    function Percentage(): (p: real)
      requires Ranked? && 1 <= rank <= total
      ensures 0.0 < p <= 100.0
      ensures rank == 1 ==> p == 100.0 / total as real
      ensures rank == total ==> p == 100.0
    {
      var q := rank as real / total as real;
      assert q * total as real == rank as real;
      q * 100.0
    }
  }

  /** `Number(x || 0)`, restricted to what the page is fed: a decimal digit
      string, possibly padded with whitespace, reads as its value, and empty
      or blank text reads as 0. Any other text also reads as 0 here. */
  function GradeValue(text: string): (v: int)
    ensures 0 <= v
    ensures AllWhitespace(text) ==> v == 0
  {
    var t := Trim(text);
    TrimEmptyIff(text);
    if IsDigits(t) then DecimalValue(t) else 0
  }

  /** Empty text counts as a zero grade, and a numeral as its number. */
  lemma GradeValueOfNumeral(n: nat)
    ensures GradeValue("") == 0
    ensures GradeValue(NatToString(n)) == n
  {
    assert Trim("") == "";
    var s := NatToString(n);
    forall k | 0 <= k < |s| ensures !IsWhitespace(s[k]) {
      assert '0' <= s[k] <= '9';
    }
    TrimNoWhitespace(s);
    DecimalValueOfNatToString(n);
  }

  /** The grade `reduce`: the sum of a record's grade values over the given
      columns, added left to right. */
  function GradeSum(rec: Record, grades: seq<Column>): (sum: int)
    ensures 0 <= sum
    decreases |grades|
  {
    if |grades| == 0 then 0
    else GradeSum(rec, grades[..|grades| - 1]) + GradeValue(Field(rec, grades[|grades| - 1].id))
  }

  /** A record's average over the grade columns. */
  function Average(rec: Record, grades: seq<Column>): real
    requires |grades| > 0
  {
    GradeSum(rec, grades) as real / |grades| as real
  }

  /** Every record's grade sum, in record order. */
  function Scores(records: seq<Record>, grades: seq<Column>): (r: seq<int>) {
    seq(|records|, j requires 0 <= j < |records| => GradeSum(records[j], grades))
  }

  /** Every record's average, in record order. */
  function Averages(records: seq<Record>, grades: seq<Column>): (r: seq<real>)
    requires |grades| > 0
  {
    seq(|records|, j requires 0 <= j < |records| => Average(records[j], grades))
  }

  /** The rank `filter(...).length` as the page writes it: how many of the
      averages are strictly greater than `avg`. */
  function CountAbove(averages: seq<real>, avg: real): (n: nat)
    ensures n <= |averages|
    decreases |averages|
  {
    if |averages| == 0 then 0
    else CountAbove(averages[..|averages| - 1], avg) + (if averages[|averages| - 1] > avg then 1 else 0)
  }

  /** The same count on grade sums: how many of the sums are strictly
      greater than `sum`. */
  function CountGreater(sums: seq<int>, sum: int): (n: nat)
    ensures n <= |sums|
    decreases |sums|
  {
    if |sums| == 0 then 0
    else CountGreater(sums[..|sums| - 1], sum) + (if sums[|sums| - 1] > sum then 1 else 0)
  }

  /** `find`: the position of the first record whose `key` field is
      `searchId`, if any. */
  function FindStudent(records: seq<Record>, key: string, searchId: string): (r: Option<nat>)
    ensures r.Some? ==> r.value < |records| && Field(records[r.value], key) == searchId
    ensures r.Some? ==> forall j :: 0 <= j < r.value ==> Field(records[j], key) != searchId
    ensures r.None? ==> forall j :: 0 <= j < |records| ==> Field(records[j], key) != searchId
    decreases |records|
  {
    if |records| == 0 then None
    else if Field(records[0], key) == searchId then Some(0)
    else
      match FindStudent(records[1..], key, searchId)
      case None => None
      case Some(i) => Some(i + 1)
  }

  /** No sum is strictly above itself, so fewer sums than there are lie
      above any one of them. */
  lemma {:induction false} CountBelowLength(sums: seq<int>, i: nat)
    requires i < |sums|
    ensures CountGreater(sums, sums[i]) < |sums|
    decreases |sums|
  {
    var n := |sums| - 1;
    if i < n {
      assert sums[..n][i] == sums[i];
      CountBelowLength(sums[..n], i);
    }
  }

  /** The ranking engine. The searched record is looked up on the schema's
      first column; its rank is one more than the number of records whose
      grade sum is strictly greater, out of all records. */
  function RankFor(records: seq<Record>, columns: seq<Column>, searchId: string): (r: RankResult)
    requires |columns| > 0
    requires forall k :: 0 <= k < |records| ==> columns[0].id in records[k]
    ensures r.Ranked? <==> exists k :: 0 <= k < |records| && records[k][columns[0].id] == searchId
    ensures r.Ranked? ==> 1 <= r.rank <= r.total == |records|
  {
    match FindStudent(records, columns[0].id, searchId)
    case None => NoResult
    case Some(i) =>
      var sums := Scores(records, GradeColumns(columns));
      var rank := CountGreater(sums, sums[i]) + 1;
      CountBelowLength(sums, i);
      Ranked(rank, |records|)
  }

  /** The result for a found record: one more than the number of grade
      sums strictly above the found record's, out of all records. */
  lemma RankOfFound(records: seq<Record>, columns: seq<Column>, searchId: string)
    requires |columns| > 0
    requires forall k :: 0 <= k < |records| ==> columns[0].id in records[k]
    requires FindStudent(records, columns[0].id, searchId).Some?
    ensures var grades := GradeColumns(columns);
            var i := FindStudent(records, columns[0].id, searchId).value;
            RankFor(records, columns, searchId)
              == Ranked(CountGreater(Scores(records, grades), GradeSum(records[i], grades)) + 1, |records|)
  {
  }

  /** Dividing by the same positive count keeps the order: comparing
      averages is comparing grade sums. */
  lemma AverageGreaterIffSumGreater(a: int, b: int, g: nat)
    requires g > 0
    ensures a as real / g as real > b as real / g as real <==> a > b
  {
    var x, y := a as real / g as real, b as real / g as real;
    assert x * g as real == a as real && y * g as real == b as real;
    assert (x - y) * g as real == (a - b) as real;
  }

  /** Counting averages above a record's average counts the same records
      as counting grade sums above its grade sum. */
  lemma {:induction false} CountAboveBySum(averages: seq<real>, sums: seq<int>, g: nat, i: nat)
    requires g > 0 && |averages| == |sums| && i < |sums|
    requires forall j :: 0 <= j < |sums| ==> averages[j] == sums[j] as real / g as real
    ensures CountAbove(averages, averages[i]) == CountGreater(sums, sums[i])
  {
    var k := 0;
    while k < |sums|
      invariant 0 <= k <= |sums|
      invariant CountAbove(averages[..k], averages[i]) == CountGreater(sums[..k], sums[i])
    {
      AverageGreaterIffSumGreater(sums[k], sums[i], g);
      assert averages[..k + 1][..k] == averages[..k] && sums[..k + 1][..k] == sums[..k];
      k := k + 1;
    }
    assert averages[..k] == averages && sums[..k] == sums;
  }

  /** The positions whose sum is strictly above `sum`. */
  ghost function PositionsAbove(sums: seq<int>, sum: int): set<nat> {
    set j: nat | j < |sums| && sums[j] > sum
  }

  /** The recursive count is the size of the set of positions above. */
  lemma {:induction false} CountIsCardinality(sums: seq<int>, sum: int)
    ensures CountGreater(sums, sum) == |PositionsAbove(sums, sum)|
    decreases |sums|
  {
    if |sums| > 0 {
      var n := |sums| - 1;
      var prefix := sums[..n];
      CountIsCardinality(prefix, sum);
      var rest := PositionsAbove(prefix, sum);
      var tail: set<nat> := if sums[n] > sum then {n} else {};
      assert PositionsAbove(sums, sum) == rest + tail by {
        forall j: nat | j < n ensures sums[j] == prefix[j] { }
      }
      assert rest !! tail;
    }
  }

  /** A higher threshold never counts more. */
  lemma {:induction false} CountAntitone(sums: seq<int>, lo: int, hi: int)
    requires lo <= hi
    ensures CountGreater(sums, hi) <= CountGreater(sums, lo)
    decreases |sums|
  {
    if |sums| > 0 { CountAntitone(sums[..|sums| - 1], lo, hi); }
  }

  /** Nothing above a threshold: the count is zero, and conversely. */
  lemma {:induction false} CountZero(sums: seq<int>, sum: int)
    ensures CountGreater(sums, sum) == 0 <==> forall j :: 0 <= j < |sums| ==> sums[j] <= sum
    decreases |sums|
  {
    if |sums| > 0 {
      var n := |sums| - 1;
      CountZero(sums[..n], sum);
      assert forall j :: 0 <= j < n ==> sums[..n][j] == sums[j];
    }
  }

  /** Counting over a concatenation adds the counts. */
  lemma {:induction false} CountAppend(a: seq<int>, b: seq<int>, sum: int)
    ensures CountGreater(a + b, sum) == CountGreater(a, sum) + CountGreater(b, sum)
    decreases |b|
  {
    if |b| == 0 {
      assert a + b == a;
    } else {
      var n := |b| - 1;
      CountAppend(a, b[..n], sum);
      assert (a + b)[..|a + b| - 1] == a + b[..n];
    }
  }

  /** The last element of s sits at some position k of a reordering t, and
      removing it from both leaves reorderings of each other. */
  lemma MatchLast<T>(s: seq<T>, t: seq<T>) returns (k: nat)
    requires multiset(s) == multiset(t) && |s| > 0
    ensures k < |t| && t[k] == s[|s| - 1]
    ensures t == t[..k] + [t[k]] + t[k + 1..]
    ensures multiset(s[..|s| - 1]) == multiset(t[..k] + t[k + 1..])
  {
    var n := |s| - 1;
    var x := s[n];
    assert s == s[..n] + [x];
    assert x in multiset(t);
    k :| 0 <= k < |t| && t[k] == x;
    assert t == t[..k] + [x] + t[k + 1..];
    assert multiset(s[..n]) == multiset(s) - multiset{x};
    assert multiset(t[..k] + t[k + 1..]) == multiset(t) - multiset{x};
  }

  /** The count depends only on the multiset of sums, not on their order. */
  lemma {:induction false} CountPermutation(s: seq<int>, t: seq<int>, sum: int)
    requires multiset(s) == multiset(t)
    ensures CountGreater(s, sum) == CountGreater(t, sum)
    decreases |s|
  {
    if |s| == 0 {
      assert |t| == |multiset(t)| == 0;
    } else {
      var k := MatchLast(s, t);
      var x, before, after := t[k], t[..k], t[k + 1..];
      CountPermutation(s[..|s| - 1], before + after, sum);
      CountAppend(before + [x], after, sum);
      CountAppend(before, [x], sum);
      CountAppend(before, after, sum);
      assert [x][..0] == [];
    }
  }

  /** The sums of a concatenation are the concatenated sums. */
  lemma ScoresAppend(a: seq<Record>, b: seq<Record>, grades: seq<Column>)
    ensures Scores(a + b, grades) == Scores(a, grades) + Scores(b, grades)
  {
    var l, r := Scores(a + b, grades), Scores(a, grades) + Scores(b, grades);
    forall j | 0 <= j < |l| ensures l[j] == r[j] {
      if j < |a| { assert (a + b)[j] == a[j]; } else { assert (a + b)[j] == b[j - |a|]; }
    }
  }

  /** Reordering the records reorders their sums. */
  lemma {:induction false} ScoresPermutation(s: seq<Record>, t: seq<Record>, grades: seq<Column>)
    requires multiset(s) == multiset(t)
    ensures multiset(Scores(s, grades)) == multiset(Scores(t, grades))
    decreases |s|
  {
    if |s| == 0 {
      assert |t| == |multiset(t)| == 0;
      assert Scores(t, grades) == [];
    } else {
      var n := |s| - 1;
      var k := MatchLast(s, t);
      var x, before, after := t[k], t[..k], t[k + 1..];
      assert s == s[..n] + [x];
      ScoresPermutation(s[..n], before + after, grades);
      ScoresAppend(s[..n], [x], grades);
      ScoresAppend(before, [x], grades);
      ScoresAppend(before + [x], after, grades);
      ScoresAppend(before, after, grades);
    }
  }

  /** The rank of a found record is one plus the number of records whose
      average is strictly greater, counted as the page's filter counts
      them: over the averages. */
  lemma RankIsFilterCount(records: seq<Record>, columns: seq<Column>, searchId: string)
    requires |columns| > 0 && |GradeColumns(columns)| > 0
    requires forall k :: 0 <= k < |records| ==> columns[0].id in records[k]
    requires FindStudent(records, columns[0].id, searchId).Some?
    ensures var i := FindStudent(records, columns[0].id, searchId).value;
            var grades := GradeColumns(columns);
            RankFor(records, columns, searchId).rank
              == 1 + CountAbove(Averages(records, grades), Average(records[i], grades))
  {
    var i := FindStudent(records, columns[0].id, searchId).value;
    var grades := GradeColumns(columns);
    CountAboveBySum(Averages(records, grades), Scores(records, grades), |grades|, i);
  }

  /** The records whose average lies strictly above record i's are the
      positions whose grade sum lies strictly above its sum. */
  lemma AboveBySum(records: seq<Record>, grades: seq<Column>, i: nat)
    requires |grades| > 0 && i < |records|
    ensures (set j: nat | j < |records| && Average(records[j], grades) > Average(records[i], grades))
              == PositionsAbove(Scores(records, grades), GradeSum(records[i], grades))
  {
    var sums := Scores(records, grades);
    var byAverage := set j: nat | j < |records| && Average(records[j], grades) > Average(records[i], grades);
    var bySum := PositionsAbove(sums, sums[i]);
    forall j | j in byAverage ensures j in bySum {
      AverageGreaterIffSumGreater(sums[j], sums[i], |grades|);
    }
    forall j | j in bySum ensures j in byAverage {
      AverageGreaterIffSumGreater(sums[j], sums[i], |grades|);
    }
  }

  /** The same rank as one plus the size of the set of records whose
      average is strictly greater. */
  lemma RankCountsGreater(records: seq<Record>, columns: seq<Column>, searchId: string)
    requires |columns| > 0 && |GradeColumns(columns)| > 0
    requires forall k :: 0 <= k < |records| ==> columns[0].id in records[k]
    requires FindStudent(records, columns[0].id, searchId).Some?
    ensures var i := FindStudent(records, columns[0].id, searchId).value;
            var grades := GradeColumns(columns);
            RankFor(records, columns, searchId).rank
              == 1 + |set j: nat | j < |records| && Average(records[j], grades) > Average(records[i], grades)|
  {
    var i := FindStudent(records, columns[0].id, searchId).value;
    var grades := GradeColumns(columns);
    RankOfFound(records, columns, searchId);
    CountIsCardinality(Scores(records, grades), GradeSum(records[i], grades));
    AboveBySum(records, grades, i);
  }

  /** A record whose average is at least another's never ranks behind it;
      equal averages share a rank. */
  lemma RankOrder(records: seq<Record>, columns: seq<Column>, a: string, b: string)
    requires |columns| > 0 && |GradeColumns(columns)| > 0
    requires forall k :: 0 <= k < |records| ==> columns[0].id in records[k]
    requires FindStudent(records, columns[0].id, a).Some?
    requires FindStudent(records, columns[0].id, b).Some?
    ensures var grades := GradeColumns(columns);
            var ra := records[FindStudent(records, columns[0].id, a).value];
            var rb := records[FindStudent(records, columns[0].id, b).value];
            && (Average(ra, grades) >= Average(rb, grades) ==>
                  RankFor(records, columns, a).rank <= RankFor(records, columns, b).rank)
            && (Average(ra, grades) == Average(rb, grades) ==>
                  RankFor(records, columns, a).rank == RankFor(records, columns, b).rank)
  {
    var grades := GradeColumns(columns);
    var sums := Scores(records, grades);
    var ia := FindStudent(records, columns[0].id, a).value;
    var ib := FindStudent(records, columns[0].id, b).value;
    AverageGreaterIffSumGreater(sums[ib], sums[ia], |grades|);
    AverageGreaterIffSumGreater(sums[ia], sums[ib], |grades|);
    if sums[ia] >= sums[ib] { CountAntitone(sums, sums[ib], sums[ia]); }
    if sums[ib] >= sums[ia] { CountAntitone(sums, sums[ia], sums[ib]); }
  }

  /** No grade sum lies above record i's exactly when no average lies
      above its average. */
  lemma TopBySum(records: seq<Record>, grades: seq<Column>, i: nat)
    requires |grades| > 0 && i < |records|
    ensures (CountGreater(Scores(records, grades), GradeSum(records[i], grades)) == 0)
              <==> (forall j :: 0 <= j < |records| ==> Average(records[j], grades) <= Average(records[i], grades))
  {
    var sums := Scores(records, grades);
    CountZero(sums, sums[i]);
    forall j | 0 <= j < |records|
      ensures Average(records[j], grades) <= Average(records[i], grades) <==> sums[j] <= sums[i]
    {
      AverageGreaterIffSumGreater(sums[j], sums[i], |grades|);
    }
  }

  /** Rank 1 exactly when no record has a strictly greater average: every
      record tied for the top gets rank 1. */
  lemma RankOneIffTop(records: seq<Record>, columns: seq<Column>, searchId: string)
    requires |columns| > 0 && |GradeColumns(columns)| > 0
    requires forall k :: 0 <= k < |records| ==> columns[0].id in records[k]
    requires FindStudent(records, columns[0].id, searchId).Some?
    ensures var grades := GradeColumns(columns);
            var target := records[FindStudent(records, columns[0].id, searchId).value];
            (RankFor(records, columns, searchId).rank == 1)
              <==> (forall j :: 0 <= j < |records| ==> Average(records[j], grades) <= Average(target, grades))
  {
    RankOfFound(records, columns, searchId);
    TopBySum(records, GradeColumns(columns), FindStudent(records, columns[0].id, searchId).value);
  }

  /** A permutation finds the searched id exactly when the original does,
      and the record it finds is one of the original's. */
  lemma FindPermutation(s: seq<Record>, t: seq<Record>, key: string, searchId: string)
    requires multiset(s) == multiset(t)
    ensures |s| == |t|
    ensures FindStudent(s, key, searchId).Some? <==> FindStudent(t, key, searchId).Some?
    ensures FindStudent(t, key, searchId).Some? ==>
              exists j :: 0 <= j < |s| && s[j] == t[FindStudent(t, key, searchId).value]
  {
    assert |s| == |multiset(s)| == |multiset(t)| == |t|;
    if FindStudent(s, key, searchId).Some? {
      var i := FindStudent(s, key, searchId).value;
      assert s[i] in multiset(t);
    }
    if FindStudent(t, key, searchId).Some? {
      var i := FindStudent(t, key, searchId).value;
      assert t[i] in multiset(s);
    }
  }

  /** A key every record holds is still held by every record after a
      reordering. */
  lemma KeyPermutation(s: seq<Record>, t: seq<Record>, key: string)
    requires multiset(s) == multiset(t)
    requires forall k :: 0 <= k < |s| ==> key in s[k]
    ensures forall k :: 0 <= k < |t| ==> key in t[k]
  {
    forall k | 0 <= k < |t| ensures key in t[k] {
      assert t[k] in multiset(s);
    }
  }

  /** Two orders of the same records, in which the searched id is found at
      records with equal grade sums, give the same result. */
  lemma RankPermutationFound(s: seq<Record>, t: seq<Record>, columns: seq<Column>, searchId: string, i: nat, i': nat)
    requires |columns| > 0
    requires multiset(s) == multiset(t)
    requires forall k :: 0 <= k < |s| ==> columns[0].id in s[k]
    requires forall k :: 0 <= k < |t| ==> columns[0].id in t[k]
    requires FindStudent(s, columns[0].id, searchId) == Some(i)
    requires FindStudent(t, columns[0].id, searchId) == Some(i')
    requires GradeSum(s[i], GradeColumns(columns)) == GradeSum(t[i'], GradeColumns(columns))
    ensures RankFor(s, columns, searchId) == RankFor(t, columns, searchId)
  {
    var grades := GradeColumns(columns);
    var ss, ts := Scores(s, grades), Scores(t, grades);
    var g := GradeSum(s[i], grades);
    assert |s| == |multiset(s)| == |multiset(t)| == |t|;
    assert ss[i] == g && ts[i'] == g;
    ScoresPermutation(s, t, grades);
    CountPermutation(ss, ts, g);
  }

  /** Reordering the records (the pasted lines) does not change the result,
      provided the records carrying the searched id agree on their grades
      (in particular when the id is unique). */
  lemma RankPermutation(s: seq<Record>, t: seq<Record>, columns: seq<Column>, searchId: string)
    requires |columns| > 0
    requires multiset(s) == multiset(t)
    requires forall k :: 0 <= k < |s| ==> columns[0].id in s[k]
    requires forall j, k :: 0 <= j < |s| && 0 <= k < |s| && s[j][columns[0].id] == searchId
               && s[k][columns[0].id] == searchId
               ==> GradeSum(s[j], GradeColumns(columns)) == GradeSum(s[k], GradeColumns(columns))
    ensures forall k :: 0 <= k < |t| ==> columns[0].id in t[k]
    ensures RankFor(s, columns, searchId) == RankFor(t, columns, searchId)
  {
    var key := columns[0].id;
    KeyPermutation(s, t, key);
    FindPermutation(s, t, key, searchId);
    if FindStudent(s, key, searchId).Some? {
      var i := FindStudent(s, key, searchId).value;
      var i' := FindStudent(t, key, searchId).value;
      var j' :| 0 <= j' < |s| && s[j'] == t[i'];
      assert s[i][key] == searchId && s[j'][key] == searchId;
      RankPermutationFound(s, t, columns, searchId, i, i');
    }
  }
}
