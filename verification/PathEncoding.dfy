// The reversible encoding that turns names into path components.
module PathEncoding {
  import opened Common

  // A std::string: every character is one byte.
  type ByteString = s: string | forall i :: 0 <= i < |s| ==> s[i] as int < 256

  // The unreserved characters of section 2.3 of RFC 3986, without '.' and '~'.
  predicate Literal(c: char) {
    'a' <= c <= 'z' || 'A' <= c <= 'Z' || '0' <= c <= '9' || c == '_' || c == '-'
  }

  function HexDigit(d: nat): char
    requires d < 16
  {
    "0123456789ABCDEF"[d]
  }

  // A percent-encoded triplet (section 2.1 of RFC 3986).
  function EncodeByte(c: char): string
    requires c as int < 256
  {
    if Literal(c) then [c] else ['%', HexDigit(c as int / 16), HexDigit(c as int % 16)]
  }

  function Encoded(name: ByteString): string {
    if name == "" then "" else EncodeByte(name[0]) + Encoded(name[1..])
  }

  function HexValue(c: char): Option<nat> {
    if '0' <= c <= '9' then Some((c - '0') as int)
    else if 'A' <= c <= 'F' then Some((c - 'A') as int + 10)
    else None
  }

  function Decoded(path: string): Option<string> {
    if path == "" then Some("")
    else if Literal(path[0]) then Then([path[0]], Decoded(path[1..]))
    else if path[0] != '%' || |path| < 3 then None
    else
      var high, low := HexValue(path[1]), HexValue(path[2]);
      if high.None? || low.None? then None
      else Then([(16 * high.value + low.value) as char], Decoded(path[3..]))
  }

  // The loop of pathComponent.
  method PathComponent(name: ByteString) returns (result: string)
    ensures result == Encoded(name)
  {
    result := "";
    for n := 0 to |name|
      invariant result == Encoded(name[..n])
    {
      var c := name[n];
      EncodedAppend(name[..n], c);
      assert name[..n + 1] == name[..n] + [c];
      if Literal(c) {
        result := result + [c];
      } else {
        result := result + ['%'];
        result := result + [HexDigit(c as int / 16)];
        result := result + [HexDigit(c as int % 16)];
      }
    }
    assert name[..|name|] == name;
  }

  lemma {:induction false} EncodedAppend(name: ByteString, c: char)
    requires c as int < 256
    ensures Encoded(name + [c]) == Encoded(name) + EncodeByte(c)
  {
    if name == "" {
      assert name + [c] == [c];
      assert [c][1..] == "";
    } else {
      assert (name + [c])[1..] == name[1..] + [c];
      EncodedAppend(name[1..], c);
    }
  }

  lemma HexDigitValue(d: nat)
    requires d < 16
    ensures HexValue(HexDigit(d)) == Some(d)
  {
  }

  // Decoding inverts encoding on every byte string.
  lemma {:induction false} DecodeInvertsEncode(name: ByteString)
    ensures Decoded(Encoded(name)) == Some(name)
  {
    if name != "" {
      var c, rest := name[0], Encoded(name[1..]);
      DecodeInvertsEncode(name[1..]);
      var path := EncodeByte(c) + rest;
      if Literal(c) {
        assert path[0] == c && path[1..] == rest;
      } else {
        HexDigitValue(c as int / 16);
        HexDigitValue(c as int % 16);
        assert path[0] == '%' && path[1] == HexDigit(c as int / 16) && path[2] == HexDigit(c as int % 16);
        assert path[3..] == rest;
      }
      assert [c] + name[1..] == name;
    }
  }

  // Exactly the names of literal characters alone are their own encoding.
  lemma {:induction false} LiteralNamesKept(name: ByteString)
    ensures Encoded(name) == name <==> forall i :: 0 <= i < |name| ==> Literal(name[i])
  {
    if name != "" {
      LiteralNamesKept(name[1..]);
      var rest := Encoded(name[1..]);
      assert name == [name[0]] + name[1..];
      assert forall i :: 0 < i < |name| ==> name[i] == name[1..][i - 1];
      if Literal(name[0]) {
        assert ([name[0]] + rest)[1..] == rest;
      } else {
        assert Encoded(name)[0] == '%';
        if name[0] == '%' {
          EncodedLength(name[1..]);
          assert |Encoded(name)| == 3 + |rest|;
        }
      }
    }
  }

  lemma {:induction false} EncodedLength(name: ByteString)
    ensures |Encoded(name)| >= |name|
  {
    if name != "" {
      EncodedLength(name[1..]);
    }
  }

  lemma EscapedBytes()
    ensures EncodeByte('.') == "%2E" && EncodeByte('/') == "%2F" && EncodeByte('%') == "%25"
  {
  }

  // High digit first, in capitals.
  lemma EscapedName()
    ensures Encoded("../%/") == "%2E%2E%2F%25%2F"
  {
    hide EncodeByte;
    EscapedBytes();
    var name: ByteString := "../%/";
    assert Encoded(name) == EncodeByte('.') + EncodeByte('.') + EncodeByte('/') + EncodeByte('%') + EncodeByte('/');
  }

  predicate Safe(path: string) {
    forall i :: 0 <= i < |path| ==> path[i] != '/' && path[i] != '.'
  }

  lemma {:induction false} EncodedIsSafe(name: ByteString)
    ensures Safe(Encoded(name))
    ensures Encoded(name) == "" <==> name == ""
  {
    if name != "" {
      EncodedIsSafe(name[1..]);
    }
  }

  // ----- Generated paths -----

  function GeneratedFilename(typeName: ByteString): string {
    Encoded(typeName) + ".csv"
  }

  function GeneratedPath(detector: ByteString, typeName: ByteString): string {
    Encoded(detector) + "/" + GeneratedFilename(typeName)
  }

  // Plain names give a plain path.
  lemma LiteralPath(detector: ByteString, typeName: ByteString)
    requires forall i :: 0 <= i < |detector| ==> Literal(detector[i])
    requires forall i :: 0 <= i < |typeName| ==> Literal(typeName[i])
    ensures GeneratedPath(detector, typeName) == detector + "/" + typeName + ".csv"
  {
    LiteralNamesKept(detector);
    LiteralNamesKept(typeName);
  }

  function FirstSlash(path: string): nat {
    if path == "" || path[0] == '/' then 0 else 1 + FirstSlash(path[1..])
  }

  lemma {:induction false} FirstSlashAfter(directory: string, rest: string)
    requires Safe(directory)
    ensures FirstSlash(directory + "/" + rest) == |directory|
  {
    if directory == "" {
      assert directory + "/" + rest == "/" + rest;
    } else {
      assert (directory + "/" + rest)[1..] == directory[1..] + "/" + rest;
      FirstSlashAfter(directory[1..], rest);
    }
  }

  lemma SameDirectory(left: string, right: string, leftRest: string, rightRest: string)
    requires Safe(left) && Safe(right) && left + "/" + leftRest == right + "/" + rightRest
    ensures left == right && leftRest == rightRest
  {
    var path := left + "/" + leftRest;
    FirstSlashAfter(left, leftRest);
    FirstSlashAfter(right, rightRest);
    assert path[..|left|] == left && path[..|right|] == right;
    assert path[|left| + 1..] == leftRest && path[|right| + 1..] == rightRest;
  }

  // Two generated paths are equal exactly when both names are.
  lemma PathsDistinct(detector: ByteString, typeName: ByteString, otherDetector: ByteString, otherType: ByteString)
    ensures GeneratedPath(detector, typeName) == GeneratedPath(otherDetector, otherType) <==>
      detector == otherDetector && typeName == otherType
  {
    if GeneratedPath(detector, typeName) == GeneratedPath(otherDetector, otherType) {
      EncodedIsSafe(detector);
      EncodedIsSafe(otherDetector);
      SameDirectory(Encoded(detector), Encoded(otherDetector), GeneratedFilename(typeName),
        GeneratedFilename(otherType));
      var a, b := GeneratedFilename(typeName), GeneratedFilename(otherType);
      assert a[..|a| - 4] == Encoded(typeName) && b[..|b| - 4] == Encoded(otherType);
      DecodeInvertsEncode(detector);
      DecodeInvertsEncode(otherDetector);
      DecodeInvertsEncode(typeName);
      DecodeInvertsEncode(otherType);
    }
  }
}
