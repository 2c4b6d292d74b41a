// Integers read from a line with operator>>, as the bank map and the filter
// read their rows.
module StreamIntegers {
  import opened Common
  import opened ConfigurationText

  const MIN_INT := -0x8000_0000
  const MAX_INT := 0x7FFF_FFFF

  function SkipSpace(s: string): (r: string)
    ensures |r| <= |s| && (r != "" ==> !IsSpace(r[0]))
  {
    if s == "" || !IsSpace(s[0]) then s else SkipSpace(s[1..])
  }

  // The length of the leading run of digits.
  function DigitRun(s: string): (n: nat)
    ensures n <= |s|
    ensures forall i :: 0 <= i < n ==> IsDigit(s[i])
    ensures n < |s| ==> !IsDigit(s[n])
  {
    if s == "" || !IsDigit(s[0]) then 0 else 1 + DigitRun(s[1..])
  }

  function ExtractDigits(digits: string, sign: int): (r: Option<(int, string)>)
    ensures r.Some? ==> MIN_INT <= r.value.0 <= MAX_INT && |r.value.1| < |digits|
  {
    var n := DigitRun(digits);
    if n == 0 then None
    else
      var value := sign * DecimalValue(digits[..n]);
      if MIN_INT <= value <= MAX_INT then Some((value, digits[n..])) else None
  }

  // One integer and the text after it. A token need not end where the integer
  // does: "12x" gives 12 and leaves "x".
  function ExtractInt(s: string): (r: Option<(int, string)>)
    ensures r.Some? ==> MIN_INT <= r.value.0 <= MAX_INT && |r.value.1| < |s|
  {
    var text := SkipSpace(s);
    var signed := text != "" && (text[0] == '-' || text[0] == '+');
    var digits := if signed then text[1..] else text;
    ExtractDigits(digits, if signed && text[0] == '-' then -1 else 1)
  }

  // Exactly n integers and nothing else.
  function ExtractRow(s: string, n: nat): (r: Option<seq<int>>)
    ensures r.Some? ==> |r.value| == n
    decreases n
  {
    if n == 0 then (if SkipSpace(s) == "" then Some([]) else None)
    else
      match ExtractInt(s)
      case None => None
      case Some(first) => Then([first.0], ExtractRow(first.1, n - 1))
  }

  predicate Blank(line: string) {
    SkipSpace(StripComment(line)) == ""
  }

  // ----- Written rows are read back -----

  lemma {:induction false} DigitRunAt(digits: string, rest: string)
    requires forall i :: 0 <= i < |digits| ==> IsDigit(digits[i])
    requires rest == "" || !IsDigit(rest[0])
    ensures DigitRun(digits + rest) == |digits|
  {
    if digits == "" {
      assert digits + rest == rest;
    } else {
      assert (digits + rest)[1..] == digits[1..] + rest;
      DigitRunAt(digits[1..], rest);
    }
  }

  lemma DigitsExtracted(magnitude: nat, sign: int, rest: string)
    requires (sign == 1 || sign == -1) && (rest == "" || !IsDigit(rest[0]))
    ensures ExtractDigits(ShowNat(magnitude) + rest, sign) ==
      if MIN_INT <= sign * magnitude <= MAX_INT then Some((sign * magnitude, rest)) else None
  {
    var digits := ShowNat(magnitude);
    DecimalOfShow(magnitude);
    DigitRunAt(digits, rest);
    hide ShowNat, DecimalValue, DigitRun;
    assert (digits + rest)[..|digits|] == digits && (digits + rest)[|digits|..] == rest;
  }

  lemma ExtractInvertsShow(n: int, rest: string)
    requires rest == "" || !IsDigit(rest[0])
    ensures ExtractInt(ShowInt(n) + rest) == if MIN_INT <= n <= MAX_INT then Some((n, rest)) else None
  {
    hide ShowNat, ExtractDigits;
    var text := ShowInt(n) + rest;
    assert SkipSpace(text) == text;
    if n < 0 {
      DigitsExtracted(-n, -1, rest);
      assert text[1..] == ShowNat(-n) + rest;
    } else {
      DigitsExtracted(n, 1, rest);
      assert IsDigit(text[0]);
    }
  }

  lemma SkippedSpace(c: char, rest: string)
    requires IsSpace(c)
    ensures SkipSpace([c] + rest) == SkipSpace(rest)
  {
    assert ([c] + rest)[1..] == rest;
  }

  lemma ExtractAfterSpace(rest: string)
    ensures ExtractInt(" " + rest) == ExtractInt(rest)
  {
    SkippedSpace(' ', rest);
  }

  lemma RowAfterSpace(rest: string, n: nat)
    ensures ExtractRow(" " + rest, n) == ExtractRow(rest, n)
  {
    SkippedSpace(' ', rest);
    ExtractAfterSpace(rest);
  }

  function RowText(values: seq<int>): string {
    if values == [] then "" else ShowInt(values[0]) + " " + RowText(values[1..])
  }

  predicate AllInts(values: seq<int>) {
    forall i :: 0 <= i < |values| ==> MIN_INT <= values[i] <= MAX_INT
  }

  // A written row is read back exactly when it has the expected number of
  // integers and each is in range.
  lemma {:induction false} ExtractRowInvertsText(values: seq<int>, n: nat)
    ensures ExtractRow(RowText(values), n) == if |values| == n && AllInts(values) then Some(values) else None
  {
    hide *;
    if values == [] || n == 0 {
      RowEnds(values, n);
    } else {
      ExtractRowInvertsText(values[1..], n - 1);
      OneMoreExtracted(values, n);
    }
  }

  lemma OneMoreExtracted(values: seq<int>, n: nat)
    requires values != [] && n > 0
    requires ExtractRow(RowText(values[1..]), n - 1) ==
      if |values| == n && AllInts(values[1..]) then Some(values[1..]) else None
    ensures ExtractRow(RowText(values), n) == if |values| == n && AllInts(values) then Some(values) else None
  {
    hide ExtractRow, RowText, AllInts;
    FirstOfMore(values, "", n);
    assert RowText(values) + "" == RowText(values) && RowText(values[1..]) + "" == RowText(values[1..]);
    AllIntsFirst(values);
    assert [values[0]] + values[1..] == values;
  }

  lemma RowEnds(values: seq<int>, n: nat)
    requires values == [] || n == 0
    ensures ExtractRow(RowText(values), n) == if |values| == n && AllInts(values) then Some(values) else None
  {
    RowTextPlain(values);
    if values == [] {
      assert SkipSpace("") == "" && ExtractInt("").None?;
    } else {
      hide RowText;
    }
  }

  lemma FirstOfMore(values: seq<int>, rest: string, n: nat)
    requires values != [] && n > 0
    ensures ExtractRow(RowText(values) + rest, n) ==
      if MIN_INT <= values[0] <= MAX_INT then Then([values[0]], ExtractRow(RowText(values[1..]) + rest, n - 1))
      else None
  {
    hide *;
    RowTextFirst(values);
    FirstThenRow(values[0], RowText(values[1..]) + rest, n);
    assert RowText(values) + rest == ShowInt(values[0]) + (" " + (RowText(values[1..]) + rest));
  }

  lemma FirstThenRow(value: int, later: string, n: nat)
    requires n > 0
    ensures ExtractRow(ShowInt(value) + (" " + later), n) ==
      if MIN_INT <= value <= MAX_INT then Then([value], ExtractRow(later, n - 1)) else None
  {
    hide ExtractInt, ShowInt, SkipSpace;
    ExtractInvertsShow(value, " " + later);
    RowAfterSpace(later, n - 1);
  }

  lemma RowTextFirst(values: seq<int>)
    requires values != []
    ensures RowText(values) == ShowInt(values[0]) + (" " + RowText(values[1..]))
  {
    hide ShowInt;
  }

  lemma AllIntsFirst(values: seq<int>)
    requires values != []
    ensures AllInts(values) <==> MIN_INT <= values[0] <= MAX_INT && AllInts(values[1..])
  {
    assert forall i :: 0 < i < |values| ==> values[i] == values[1..][i - 1];
  }

  // No comment in the row, and no space before it.
  lemma {:induction false} RowTextPlain(values: seq<int>)
    ensures '#' !in RowText(values)
    ensures values != [] ==> RowText(values) != "" && !IsSpace(RowText(values)[0])
  {
    if values != [] {
      RowTextPlain(values[1..]);
      assert AllDigits(ShowNat(if values[0] < 0 then -values[0] else values[0]));
      hide ShowNat;
      assert '#' !in ShowInt(values[0]);
    }
  }

  // A written row with a comment after it, as the line readers see it.
  lemma WrittenLine(values: seq<int>, comment: string)
    requires IsComment(comment)
    ensures StripComment(RowText(values) + comment) == RowText(values)
    ensures Blank(RowText(values) + comment) <==> values == []
  {
    RowTextPlain(values);
    StripCommentPrefix(RowText(values), comment);
    hide RowText;
    assert RowText(values) + "" == RowText(values);
    if values == [] {
      NothingWritten();
    }
  }

  lemma NothingWritten()
    ensures RowText([]) == ""
  {
  }

  // ----- Text that is no number -----

  // Text that cannot be the start of an integer.
  predicate IsJunk(text: string) {
    text != "" && !IsSpace(text[0]) && !IsDigit(text[0]) && text[0] !in {'-', '+', '#'} && '#' !in text
  }

  lemma JunkFirst(junk: string, n: nat)
    requires IsJunk(junk)
    ensures SkipSpace(junk) != "" && ExtractRow(junk, n).None?
  {
    assert SkipSpace(junk) == junk;
    assert DigitRun(junk) == 0;
  }

  lemma {:induction false} JunkNotRead(values: seq<int>, junk: string, n: nat)
    requires IsJunk(junk) && |values| <= n
    ensures ExtractRow(RowText(values) + junk, n).None?
  {
    hide IsJunk, ExtractRow, RowText;
    if values == [] {
      NothingWritten();
      JunkFirst(junk, n);
      assert "" + junk == junk;
    } else {
      JunkNotRead(values[1..], junk, n - 1);
      FirstOfMore(values, junk, n);
    }
  }

  // A line with such text after, or in place of, one of n numbers is neither
  // blank nor a row.
  lemma JunkLine(values: seq<int>, junk: string, comment: string, n: nat)
    requires IsJunk(junk) && |values| <= n && IsComment(comment)
    ensures var line := RowText(values) + junk + comment;
      !Blank(line) && ExtractRow(StripComment(line), n).None?
  {
    var text := RowText(values) + junk;
    RowTextPlain(values);
    StripCommentPrefix(text, comment);
    JunkNotRead(values, junk, n);
    JunkFirst(junk, 0);
    hide RowText, ExtractRow;
    assert text + "" == text && text + comment == RowText(values) + junk + comment;
    if values == [] {
      NothingWritten();
      assert "" + junk == junk;
    } else {
      assert text[0] == RowText(values)[0] && SkipSpace(text) == text;
    }
  }
}
