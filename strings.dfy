/** Text primitives the grade calculator relies on, with JavaScript's
    semantics: String.prototype.trim, String.prototype.split and
    Array.prototype.join with a one-character separator, and the decimal
    rendering of a natural number inside a template literal. */
module Strings {

  /** JavaScript's WhiteSpace and LineTerminator code points, the set that
      String.prototype.trim removes. */
  predicate IsWhitespace(c: char) {
    || c == '\t' || c == '\n' || c == '\U{B}' || c == '\U{C}' || c == '\r' || c == ' '
    || c == '\U{A0}' || c == '\U{1680}' || ('\U{2000}' <= c <= '\U{200A}')
    || c == '\U{2028}' || c == '\U{2029}' || c == '\U{202F}' || c == '\U{205F}'
    || c == '\U{3000}' || c == '\U{FEFF}'
  }

  predicate AllWhitespace(s: string) {
    forall k :: 0 <= k < |s| ==> IsWhitespace(s[k])
  }

  /** Drops the leading whitespace. */
  function TrimStart(s: string): string
    decreases |s|
  {
    if |s| > 0 && IsWhitespace(s[0]) then TrimStart(s[1..]) else s
  }

  /** Drops the trailing whitespace. */
  function TrimEnd(s: string): string
    decreases |s|
  {
    if |s| > 0 && IsWhitespace(s[|s| - 1]) then TrimEnd(s[..|s| - 1]) else s
  }

  /** TrimStart removes a whitespace prefix, and only that: what is left
      is empty or starts with a non-whitespace character. */
  lemma {:induction false} TrimStartSpec(s: string) returns (i: nat)
    ensures i <= |s| && TrimStart(s) == s[i..] && AllWhitespace(s[..i])
    ensures TrimStart(s) == [] || !IsWhitespace(TrimStart(s)[0])
    decreases |s|
  {
    if |s| > 0 && IsWhitespace(s[0]) {
      var i' := TrimStartSpec(s[1..]);
      i := i' + 1;
      assert s[1..][i'..] == s[i..] && s[..i] == [s[0]] + s[1..][..i'];
    } else {
      i := 0;
    }
  }

  /** TrimEnd removes a whitespace suffix, and only that: what is left is
      empty or ends with a non-whitespace character. */
  lemma {:induction false} TrimEndSpec(s: string) returns (j: nat)
    ensures j <= |s| && TrimEnd(s) == s[..j] && AllWhitespace(s[j..])
    ensures TrimEnd(s) == [] || !IsWhitespace(TrimEnd(s)[|TrimEnd(s)| - 1])
    decreases |s|
  {
    if |s| > 0 && IsWhitespace(s[|s| - 1]) {
      var p := s[..|s| - 1];
      j := TrimEndSpec(p);
      assert p[..j] == s[..j] && s[j..] == p[j..] + [s[|s| - 1]];
    } else {
      j := |s|;
    }
  }

  /** String.prototype.trim: the text between the leading and the trailing
      whitespace. */
  function Trim(s: string): string {
    TrimEnd(TrimStart(s))
  }

  /** Trim keeps the part of its input between positions i and j, removes
      only whitespace, and leaves neither end on whitespace. */
  lemma TrimBounds(s: string) returns (i: nat, j: nat)
    ensures i <= j <= |s| && Trim(s) == s[i..j]
    ensures AllWhitespace(s[..i]) && AllWhitespace(s[j..])
    ensures Trim(s) == [] || (!IsWhitespace(Trim(s)[0]) && !IsWhitespace(Trim(s)[|Trim(s)| - 1]))
  {
    var t := TrimStart(s);
    i := TrimStartSpec(s);
    var k := TrimEndSpec(t);
    j := i + k;
    assert s[j..] == t[k..] && t[..k] == s[i..j];
    if Trim(s) != [] {
      assert Trim(s)[0] == t[0];
    }
  }

  /** A text trims to nothing exactly when every character of it is
      whitespace. */
  lemma TrimEmptyIff(s: string)
    ensures Trim(s) == [] <==> AllWhitespace(s)
  {
    var i, j := TrimBounds(s);
    if Trim(s) == [] {
      forall k | 0 <= k < |s| ensures IsWhitespace(s[k]) {
        if k < i { assert s[k] == s[..i][k]; } else { assert s[k] == s[j..][k - j]; }
      }
    } else {
      assert s[i] == Trim(s)[0];
    }
  }

  /** A text without whitespace at either end trims to itself. */
  lemma TrimNoWhitespace(s: string)
    requires forall k :: 0 <= k < |s| ==> !IsWhitespace(s[k])
    ensures Trim(s) == s
  {
    assert TrimStart(s) == s;
  }

  /** String.prototype.split with a one-character separator: the maximal
      runs of non-separator characters, including empty runs before, between
      and after separators. The empty text gives one empty piece. */
  function Split(s: string, sep: char): (r: seq<string>)
    ensures |r| >= 1
    ensures forall i, k :: 0 <= i < |r| && 0 <= k < |r[i]| ==> r[i][k] != sep
    decreases |s|
  {
    if |s| == 0 then [[]]
    else
      var rest := Split(s[1..], sep);
      if s[0] == sep then [[]] + rest
      else [[s[0]] + rest[0]] + rest[1..]
  }

  /** Array.prototype.join with a one-character separator. */
  function Join(parts: seq<string>, sep: char): string
    decreases |parts|
  {
    if |parts| == 0 then []
    else if |parts| == 1 then parts[0]
    else parts[0] + [sep] + Join(parts[1..], sep)
  }

  /** Number of occurrences of a character in a text. */
  function Occurrences(s: string, c: char): nat
    decreases |s|
  {
    if |s| == 0 then 0 else (if s[0] == c then 1 else 0) + Occurrences(s[1..], c)
  }

  /** Joining the pieces of a split gives back the original text. */
  lemma {:induction false} JoinSplit(s: string, sep: char)
    ensures Join(Split(s, sep), sep) == s
    decreases |s|
  {
    if |s| > 0 {
      var rest := Split(s[1..], sep);
      JoinSplit(s[1..], sep);
      if s[0] == sep {
        assert Split(s, sep) == [[]] + rest;
        assert ([[]] + rest)[1..] == rest;
      } else if |rest| == 1 {
        assert Split(s, sep) == [[s[0]] + rest[0]];
      } else {
        var r := Split(s, sep);
        assert r[1..] == rest[1..];
        assert Join(rest, sep) == rest[0] + [sep] + Join(rest[1..], sep);
      }
    }
  }

  /** Splitting gives one piece more than there are separators. */
  lemma {:induction false} SplitCount(s: string, sep: char)
    ensures |Split(s, sep)| == Occurrences(s, sep) + 1
    decreases |s|
  {
    if |s| > 0 { SplitCount(s[1..], sep); }
  }

  /** A text without the separator splits into itself alone. */
  lemma {:induction false} SplitNoSeparator(s: string, sep: char)
    requires forall k :: 0 <= k < |s| ==> s[k] != sep
    ensures Split(s, sep) == [s]
    decreases |s|
  {
    if |s| > 0 {
      SplitNoSeparator(s[1..], sep);
      assert [s[0]] + s[1..] == s;
    }
  }

  /** A piece without the separator, then a separator, then anything:
      the piece comes out first, the rest is split on its own. */
  lemma {:induction false} SplitAfterPiece(a: string, sep: char, b: string)
    requires forall k :: 0 <= k < |a| ==> a[k] != sep
    ensures Split(a + [sep] + b, sep) == [a] + Split(b, sep)
    decreases |a|
  {
    if |a| == 0 {
      assert a + [sep] + b == [sep] + b;
      assert ([sep] + b)[1..] == b;
    } else {
      var s := a + [sep] + b;
      SplitAfterPiece(a[1..], sep, b);
      assert s[1..] == a[1..] + [sep] + b;
      assert [a[0]] + a[1..] == a;
    }
  }

  /** Splitting a join of separator-free pieces gives back the pieces. */
  lemma {:induction false} SplitJoin(parts: seq<string>, sep: char)
    requires |parts| >= 1
    requires forall i, k :: 0 <= i < |parts| && 0 <= k < |parts[i]| ==> parts[i][k] != sep
    ensures Split(Join(parts, sep), sep) == parts
    decreases |parts|
  {
    if |parts| == 1 {
      SplitNoSeparator(parts[0], sep);
    } else {
      SplitJoin(parts[1..], sep);
      SplitAfterPiece(parts[0], sep, Join(parts[1..], sep));
      assert [parts[0]] + parts[1..] == parts;
    }
  }

  /** Every character of every piece of a split comes from the text. */
  lemma {:induction false} SplitPiecesFromText(s: string, sep: char, i: nat, k: nat)
    requires i < |Split(s, sep)| && k < |Split(s, sep)[i]|
    ensures Split(s, sep)[i][k] in s
    decreases |s|
  {
    var rest := Split(s[1..], sep);
    if s[0] == sep {
      SplitPiecesFromText(s[1..], sep, i - 1, k);
    } else if i == 0 && k == 0 {
    } else if i == 0 {
      SplitPiecesFromText(s[1..], sep, 0, k - 1);
    } else {
      SplitPiecesFromText(s[1..], sep, i, k);
    }
  }

  /** The character for a decimal digit value. */
  function DigitChar(d: nat): (c: char)
    requires d < 10
    ensures '0' <= c <= '9'
  {
    ['0', '1', '2', '3', '4', '5', '6', '7', '8', '9'][d]
  }

  predicate IsDigits(s: string) {
    forall k :: 0 <= k < |s| ==> '0' <= s[k] <= '9'
  }

  /** The decimal numeral of a natural number, as JavaScript prints it:
      no sign, no leading zeros. */
  function NatToString(n: nat): (r: string)
    ensures |r| >= 1 && IsDigits(r)
    ensures r[0] == '0' ==> n == 0
    decreases n
  {
    if n < 10 then [DigitChar(n)] else NatToString(n / 10) + [DigitChar(n % 10)]
  }

  /** The value of a decimal digit string (leading zeros allowed). */
  function DecimalValue(s: string): nat
    requires IsDigits(s)
    decreases |s|
  {
    if |s| == 0 then 0
    else DecimalValue(s[..|s| - 1]) * 10 + ((s[|s| - 1] as int) - ('0' as int))
  }

  /** Reading back the numeral of a number gives the number. */
  lemma {:induction false} DecimalValueOfNatToString(n: nat)
    ensures DecimalValue(NatToString(n)) == n
    decreases n
  {
    var r := NatToString(n);
    if n < 10 {
      assert r[..0] == [];
    } else {
      DecimalValueOfNatToString(n / 10);
      assert r[..|r| - 1] == NatToString(n / 10);
    }
  }

  /** Different numbers have different numerals. */
  lemma NatToStringInjective(m: nat, n: nat)
    ensures NatToString(m) == NatToString(n) ==> m == n
  {
    DecimalValueOfNatToString(m);
    DecimalValueOfNatToString(n);
  }
}
