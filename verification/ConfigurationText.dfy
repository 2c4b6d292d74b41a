// The text layer shared by catalogs, manifests and mapping files: lines split
// into tokens, and std::from_chars integers.
module ConfigurationText {
  import opened Common

  // A text file as getline delivers it; `complete` is false when reading stops
  // on an I/O error instead of the end of the file.
  datatype File = File(lines: seq<string>, complete: bool)

  predicate IsSpace(c: char) {
    c == ' ' || c == '\t' || c == '\n' || c == '\r' || c as int == 11 || c as int == 12
  }

  // ----- Tokens -----

  function StripComment(line: string): string {
    if line == "" || line[0] == '#' then "" else [line[0]] + StripComment(line[1..])
  }

  // The length of the leading run of non-space characters.
  function TokenLength(s: string): (n: nat)
    ensures n <= |s|
    ensures forall i :: 0 <= i < n ==> !IsSpace(s[i])
    ensures n < |s| ==> IsSpace(s[n])
  {
    if s == "" || IsSpace(s[0]) then 0 else 1 + TokenLength(s[1..])
  }

  function SplitTokens(s: string): (tokens: seq<string>)
    ensures forall i :: 0 <= i < |tokens| ==> tokens[i] != ""
  {
    if s == "" then []
    else if IsSpace(s[0]) then SplitTokens(s[1..])
    else [s[..TokenLength(s)]] + SplitTokens(s[TokenLength(s)..])
  }

  function Tokenize(line: string): (tokens: seq<string>)
    ensures forall i :: 0 <= i < |tokens| ==> tokens[i] != ""
  {
    SplitTokens(StripComment(line))
  }

  predicate IsToken(t: string) {
    t != "" && forall i :: 0 <= i < |t| ==> !IsSpace(t[i]) && t[i] != '#'
  }

  function JoinTokens(tokens: seq<string>): string {
    if tokens == [] then "" else tokens[0] + " " + JoinTokens(tokens[1..])
  }

  // The rest of a line after its tokens.
  predicate IsComment(text: string) {
    text == "" || text[0] == '#'
  }

  lemma {:induction false} StripCommentPrefix(text: string, rest: string)
    requires '#' !in text
    ensures StripComment(text + rest) == text + StripComment(rest)
  {
    if text == "" {
      assert text + rest == rest;
    } else {
      assert (text + rest)[1..] == text[1..] + rest;
      StripCommentPrefix(text[1..], rest);
    }
  }

  lemma {:induction false} TokenLengthBefore(token: string, rest: string)
    requires forall i :: 0 <= i < |token| ==> !IsSpace(token[i])
    requires rest == "" || IsSpace(rest[0])
    ensures TokenLength(token + rest) == |token|
  {
    if token == "" {
      assert token + rest == rest;
    } else {
      assert (token + rest)[1..] == token[1..] + rest;
      TokenLengthBefore(token[1..], rest);
    }
  }

  lemma TokenTaken(token: string, rest: string)
    requires IsToken(token) && (rest == "" || IsSpace(rest[0]))
    ensures SplitTokens(token + rest) == [token] + SplitTokens(rest)
  {
    TokenLengthBefore(token, rest);
    var s := token + rest;
    assert s[0] == token[0] && s[..|token|] == token && s[|token|..] == rest;
  }

  lemma TokenizeFirst(first: string, rest: string)
    requires IsToken(first)
    ensures Tokenize(first + " " + rest) == [first] + Tokenize(rest)
  {
    StripCommentPrefix(first + " ", rest);
    SplitFirstToken(first, StripComment(rest));
  }

  lemma SplitFirstToken(token: string, rest: string)
    requires IsToken(token)
    ensures SplitTokens(token + " " + rest) == [token] + SplitTokens(rest)
  {
    assert token + " " + rest == token + (" " + rest);
    TokenTaken(token, " " + rest);
    assert (" " + rest)[1..] == rest;
  }

  // A written row is read back token by token, and a trailing comment is
  // invisible.
  lemma {:induction false} TokenizeInvertsJoin(tokens: seq<string>, comment: string)
    requires forall i :: 0 <= i < |tokens| ==> IsToken(tokens[i])
    requires IsComment(comment)
    ensures Tokenize(JoinTokens(tokens) + comment) == tokens
  {
    if tokens == [] {
      assert JoinTokens(tokens) + comment == comment;
    } else {
      var rest := JoinTokens(tokens[1..]) + comment;
      assert JoinTokens(tokens) + comment == tokens[0] + " " + rest;
      TokenizeInvertsJoin(tokens[1..], comment);
      TokenizeFirst(tokens[0], rest);
    }
  }

  // ----- Any layout -----

  // A token with the blanks before it.
  datatype Piece = Piece(gap: string, token: string)

  predicate IsGap(gap: string) {
    forall i :: 0 <= i < |gap| ==> gap[i] in " \t\n\r" || gap[i] as int == 11 || gap[i] as int == 12
  }

  // Every token but the first has a blank before it.
  predicate LaidOut(pieces: seq<Piece>) {
    && (forall i :: 0 <= i < |pieces| ==> IsGap(pieces[i].gap) && IsToken(pieces[i].token))
    && forall i :: 0 < i < |pieces| ==> pieces[i].gap != ""
  }

  function Layout(pieces: seq<Piece>, ending: string): string {
    if pieces == [] then ending else pieces[0].gap + pieces[0].token + Layout(pieces[1..], ending)
  }

  lemma {:induction false} GapSkipped(gap: string, rest: string)
    requires IsGap(gap)
    ensures SplitTokens(gap + rest) == SplitTokens(rest)
  {
    if gap == "" {
      assert gap + rest == rest;
    } else {
      assert (gap + rest)[1..] == gap[1..] + rest;
      assert IsSpace(gap[0]) by { assert gap[0] in " \t\n\r" || gap[0] as int == 11 || gap[0] as int == 12; }
      GapSkipped(gap[1..], rest);
    }
  }

  lemma {:induction false} LayoutSplit(pieces: seq<Piece>, ending: string)
    requires LaidOut(pieces) && IsGap(ending)
    ensures SplitTokens(Layout(pieces, ending)) == Map((p: Piece) => p.token, pieces)
    ensures '#' !in Layout(pieces, ending)
  {
    hide SplitTokens, IsSpace;
    if pieces == [] {
      GapSkipped(ending, "");
      NothingSplit();
      GapPlain(ending);
      assert ending + "" == ending;
    } else {
      var p, rest := pieces[0], Layout(pieces[1..], ending);
      GapPlain(p.gap);
      assert LaidOut(pieces[1..]);
      hide IsGap;
      LayoutSplit(pieces[1..], ending);
      BlankOrEmpty(pieces[1..], ending);
      assert p.gap + p.token + rest == p.gap + (p.token + rest);
      GapSkipped(p.gap, p.token + rest);
      TokenTaken(p.token, rest);
    }
  }

  lemma NothingSplit()
    ensures SplitTokens("") == []
  {
  }

  lemma GapPlain(gap: string)
    requires IsGap(gap)
    ensures '#' !in gap
  {
  }

  lemma BlankOrEmpty(pieces: seq<Piece>, ending: string)
    requires IsGap(ending) && forall i :: 0 <= i < |pieces| ==> IsGap(pieces[i].gap) && pieces[i].gap != ""
    ensures Layout(pieces, ending) == "" || IsSpace(Layout(pieces, ending)[0])
  {
  }

  // However a row is laid out with blanks, and whatever comment follows, its
  // tokens are read.
  lemma LayoutInvisible(pieces: seq<Piece>, ending: string, comment: string)
    requires LaidOut(pieces) && IsGap(ending) && IsComment(comment)
    ensures Tokenize(Layout(pieces, ending) + comment) == Map((p: Piece) => p.token, pieces)
  {
    LayoutSplit(pieces, ending);
    StripCommentPrefix(Layout(pieces, ending), comment);
    assert Layout(pieces, ending) + "" == Layout(pieces, ending);
  }

  // ----- Integers -----

  predicate IsDigit(c: char) {
    '0' <= c <= '9'
  }

  predicate AllDigits(s: string) {
    s != "" && forall i :: 0 <= i < |s| ==> IsDigit(s[i])
  }

  function DigitValue(c: char): nat
    requires IsDigit(c)
  {
    (c - '0') as int
  }

  function DecimalValue(digits: string): nat
    requires forall i :: 0 <= i < |digits| ==> IsDigit(digits[i])
  {
    if digits == "" then 0
    else 10 * DecimalValue(digits[..|digits| - 1]) + DigitValue(digits[|digits| - 1])
  }

  // std::from_chars for an unsigned type with the given maximum, the whole
  // token having to be consumed.
  function ParseUnsigned(token: string, max: nat): Option<nat> {
    if AllDigits(token) && DecimalValue(token) <= max then Some(DecimalValue(token)) else None
  }

  // std::from_chars for std::int32_t: a leading minus sign, no plus sign.
  function ParseInt32(token: string): Option<int> {
    if token != "" && token[0] == '-' then
      var magnitude := ParseUnsigned(token[1..], 0x8000_0000);
      if magnitude.None? then None else Some(-(magnitude.value as int))
    else
      ParseUnsigned(token, 0x7FFF_FFFF)
  }

  const MAX_UINT32: nat := 0xFFFF_FFFF
  const MAX_UINT64: nat := 0xFFFF_FFFF_FFFF_FFFF

  // std::uint64_t: every value of this type is proved to be in range.
  type UInt64 = n: nat | n <= 0xFFFF_FFFF_FFFF_FFFF

  function Digit(d: nat): char
    requires d < 10
  {
    "0123456789"[d]
  }

  function ShowNat(n: nat): (s: string)
    ensures AllDigits(s)
  {
    if n < 10 then [Digit(n)] else ShowNat(n / 10) + [Digit(n % 10)]
  }

  function ShowInt(n: int): string {
    if n < 0 then "-" + ShowNat(-n) else ShowNat(n)
  }

  lemma {:induction false} DecimalOfShow(n: nat)
    ensures DecimalValue(ShowNat(n)) == n
  {
    var s := ShowNat(n);
    if n < 10 {
      assert s[..0] == "";
    } else {
      DecimalOfShow(n / 10);
      assert s[..|s| - 1] == ShowNat(n / 10);
    }
  }

  // Every written integer is read back exactly when it is in range.
  lemma ParseInvertsShow(n: nat, max: nat)
    ensures ParseUnsigned(ShowNat(n), max) == if n <= max then Some(n) else None
  {
    DecimalOfShow(n);
  }

  lemma ParseInvertsShowInt(n: int)
    ensures ParseInt32(ShowInt(n)) == if -0x8000_0000 <= n <= 0x7FFF_FFFF then Some(n) else None
  {
    hide ShowNat, DecimalValue;
    if n >= 0 {
      ParseInvertsShow(n, 0x7FFF_FFFF);
      assert IsDigit(ShowNat(n)[0]);
    } else {
      ParseInvertsShow(-n, 0x8000_0000);
      assert ShowInt(n)[1..] == ShowNat(-n);
    }
  }
}
