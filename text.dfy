/** The JavaScript string operations the application relies on: `trim`,
    `split(sep)[0]`, `startsWith`, `toUpperCase`, `Array.join`,
    `Number.prototype.toString` on integers and `parseInt` without a radix. */
module Text {
  import opened Wrappers

  /** The WhiteSpace and LineTerminator code points that `trim` and `parseInt` skip. */
  predicate IsSpace(c: char) {
    || c == ' ' || c == '\t' || c == '\n' || c == '\r' || c == '\U{000B}' || c == '\U{000C}'
    || c == '\U{00A0}' || c == '\U{1680}' || ('\U{2000}' <= c <= '\U{200A}')
    || c == '\U{2028}' || c == '\U{2029}' || c == '\U{202F}' || c == '\U{205F}'
    || c == '\U{3000}' || c == '\U{FEFF}'
  }

  predicate AllSpace(s: string) {
    forall i :: 0 <= i < |s| ==> IsSpace(s[i])
  }

  /** No white space at either end. */
  predicate Trimmed(s: string) {
    s == [] || (!IsSpace(s[0]) && !IsSpace(s[|s| - 1]))
  }

  /** `s` with its leading white space removed. */
  function TrimStart(s: string): (r: string)
    ensures |r| <= |s| && r == s[|s| - |r|..]
    ensures AllSpace(s[..|s| - |r|])
    ensures r == [] || !IsSpace(r[0])
  {
    if s != [] && IsSpace(s[0]) then
      var r := TrimStart(s[1..]);
      assert s[..|s| - |r|] == [s[0]] + s[1..][..|s| - 1 - |r|];
      r
    else
      s
  }

  /** `s` with its trailing white space removed. */
  function TrimEnd(s: string): (r: string)
    ensures r <= s
    ensures AllSpace(s[|r|..])
    ensures r == [] || !IsSpace(r[|r| - 1])
  {
    if s != [] && IsSpace(s[|s| - 1]) then
      var r := TrimEnd(s[..|s| - 1]);
      assert s[|r|..] == s[..|s| - 1][|r|..] + [s[|s| - 1]];
      r
    else
      s
  }

  /** `String.prototype.trim`: `s` with the white space at both ends cut off. */
  function Trim(s: string): (r: string)
    ensures Trimmed(r) && |r| <= |s|
    ensures Trimmed(s) ==> r == s
  {
    var a := TrimStart(s);
    var r := TrimEnd(a);
    assert r != [] ==> r[0] == a[0];
    r
  }

  /** What `Trim` leaves is a piece of `s` with only white space around it. */
  lemma TrimIsPiece(s: string)
    ensures var r := Trim(s);
      exists i :: 0 <= i <= |s| - |r| && r == s[i..i + |r|] && AllSpace(s[..i]) && AllSpace(s[i + |r|..])
  {
    var i := TrimPieceAt(s);
  }

  /** The piece `Trim` leaves starts after the leading white space. */
  lemma TrimPieceAt(s: string) returns (i: nat)
    ensures i + |Trim(s)| <= |s| && Trim(s) == s[i..i + |Trim(s)|]
    ensures AllSpace(s[..i]) && AllSpace(s[i + |Trim(s)|..])
  {
    var a := TrimStart(s);
    var r := TrimEnd(a);
    i := |s| - |a|;
    assert Trim(s) == r;
    SliceOfSuffix(s, i, |r|);
    assert r == a[..|r|];
  }

  /** Slicing a suffix is slicing the whole. */
  lemma SliceOfSuffix(s: string, i: nat, n: nat)
    requires i + n <= |s|
    ensures s[i..][..n] == s[i..i + n] && s[i..][n..] == s[i + n..]
  {
  }

  /** Trimming only removes characters. */
  lemma TrimKeepsAbsent(s: string, c: char)
    requires c !in s
    ensures c !in Trim(s)
  {
    var a := TrimStart(s);
    var j := |s| - |a|;
    forall k | 0 <= k < |a|
      ensures a[k] != c
    {
      assert a[k] == s[j + k];
    }
    var r := TrimEnd(a);
    assert Trim(s) == r;
    forall k | 0 <= k < |r|
      ensures r[k] != c
    {
      assert r[k] == a[k];
    }
  }

  /** `s.split(sep)[0]`: the text before the first `sep`, or all of `s` when it holds none. */
  function BeforeFirst(s: string, sep: char): (r: string)
    ensures r <= s && sep !in r
    ensures |r| < |s| ==> s[|r|] == sep
  {
    if s == [] || s[0] == sep then [] else [s[0]] + BeforeFirst(s[1..], sep)
  }

  /** `BeforeFirst` reads up to the first separator and no further. */
  lemma BeforeFirstOfJoined(a: string, sep: char, b: string)
    requires sep !in a
    ensures BeforeFirst(a + [sep] + b, sep) == a
  {
    if a != [] {
      assert (a + [sep] + b)[1..] == a[1..] + [sep] + b;
      BeforeFirstOfJoined(a[1..], sep, b);
    }
  }

  /** Without a separator, `BeforeFirst` keeps the whole string. */
  lemma BeforeFirstWithoutSep(s: string, sep: char)
    requires sep !in s
    ensures BeforeFirst(s, sep) == s
  {
    if s != [] {
      BeforeFirstWithoutSep(s[1..], sep);
    }
  }

  /** SQL `LIKE '%needle%'` under an exact collation: `needle` occurs in `hay`. */
  predicate Contains(hay: string, needle: string) {
    exists i :: 0 <= i <= |hay| && needle <= hay[i..]
  }

  predicate IsDigit(c: char) {
    '0' <= c <= '9'
  }

  predicate AllDigits(s: string) {
    forall i :: 0 <= i < |s| ==> IsDigit(s[i])
  }

  function DigitValue(c: char): nat
    requires IsDigit(c)
  {
    c as int - '0' as int
  }

  function DigitChar(d: nat): (c: char)
    requires d < 10
    ensures IsDigit(c) && DigitValue(c) == d
  {
    (48 + d) as char
  }

  /** The decimal digits of `n`, most significant first, with no leading zero:
      `Number.prototype.toString` on a non-negative integer. */
  function NatToDecimal(n: nat): (r: string)
    ensures r != [] && AllDigits(r)
    ensures |r| > 1 ==> r[0] != '0'
  {
    if n < 10 then [DigitChar(n)] else NatToDecimal(n / 10) + [DigitChar(n % 10)]
  }

  /** `Number.prototype.toString` on an integer. */
  function IntToDecimal(n: int): string {
    if n < 0 then "-" + NatToDecimal(-n) else NatToDecimal(n)
  }

  /** The number a string of decimal digits denotes. */
  function DecimalValue(s: string): nat
    requires AllDigits(s)
  {
    if s == [] then 0 else DecimalValue(s[..|s| - 1]) * 10 + DigitValue(s[|s| - 1])
  }

  lemma {:induction false} DecimalValueOfNatToDecimal(n: nat)
    ensures DecimalValue(NatToDecimal(n)) == n
  {
    if n >= 10 {
      var r := NatToDecimal(n);
      assert r[..|r| - 1] == NatToDecimal(n / 10);
      DecimalValueOfNatToDecimal(n / 10);
    }
  }

  /** The longest prefix of `s` made of decimal digits. */
  function DigitPrefix(s: string): (r: string)
    ensures r <= s && AllDigits(r)
    ensures |r| < |s| ==> !IsDigit(s[|r|])
  {
    if s != [] && IsDigit(s[0]) then [s[0]] + DigitPrefix(s[1..]) else []
  }

  predicate IsHexDigit(c: char) {
    IsDigit(c) || 'a' <= c <= 'f' || 'A' <= c <= 'F'
  }

  function HexDigitValue(c: char): nat
    requires IsHexDigit(c)
  {
    if IsDigit(c) then DigitValue(c)
    else if 'a' <= c <= 'f' then c as int - 'a' as int + 10
    else c as int - 'A' as int + 10
  }

  /** The longest prefix of `s` made of hexadecimal digits. */
  function HexPrefix(s: string): (r: string)
    ensures r <= s && forall i :: 0 <= i < |r| ==> IsHexDigit(r[i])
    ensures |r| < |s| ==> !IsHexDigit(s[|r|])
  {
    if s != [] && IsHexDigit(s[0]) then [s[0]] + HexPrefix(s[1..]) else []
  }

  function HexValue(s: string): nat
    requires forall i :: 0 <= i < |s| ==> IsHexDigit(s[i])
  {
    if s == [] then 0 else HexValue(s[..|s| - 1]) * 16 + HexDigitValue(s[|s| - 1])
  }

  /** JavaScript `parseInt(s)` without a radix: leading white space is skipped,
      one sign is allowed, a `0x`/`0X` prefix switches to base 16, and the
      digits are read up to the first character that is not one. `None`
      stands for `NaN` (no digit at all). */
  function ParseInt(s: string): Option<int> {
    var t := TrimStart(s);
    if t != [] && t[0] == '-' then ParseUnsigned(t[1..], true)
    else if t != [] && t[0] == '+' then ParseUnsigned(t[1..], false)
    else ParseUnsigned(t, false)
  }

  /** `parseInt` after the sign: hexadecimal behind `0x`/`0X`, decimal otherwise. */
  function ParseUnsigned(u: string, negative: bool): Option<int> {
    if |u| >= 2 && u[0] == '0' && (u[1] == 'x' || u[1] == 'X') then
      var h := HexPrefix(u[2..]);
      var v: int := HexValue(h);
      if h == [] then None else Some(if negative then -v else v)
    else
      var d := DigitPrefix(u);
      var v: int := DecimalValue(d);
      if d == [] then None else Some(if negative then -v else v)
  }

  lemma DigitPrefixOfDigits(s: string)
    requires AllDigits(s)
    ensures DigitPrefix(s) == s
  {
    if s != [] {
      DigitPrefixOfDigits(s[1..]);
    }
  }

  lemma ParseUnsignedOfDigits(d: string, negative: bool)
    requires d != [] && AllDigits(d)
    ensures ParseUnsigned(d, negative) == Some(if negative then -(DecimalValue(d) as int) else DecimalValue(d))
  {
    DigitPrefixOfDigits(d);
    assert IsDigit(d[0]);
    assert |d| >= 2 ==> IsDigit(d[1]);
  }

  /** `parseInt` reads a whole string of decimal digits. */
  lemma ParseIntOfDigitString(d: string)
    requires d != [] && AllDigits(d)
    ensures ParseInt(d) == Some(DecimalValue(d))
  {
    assert !IsSpace(d[0]);
    assert TrimStart(d) == d;
    ParseUnsignedOfDigits(d, false);
  }

  /** `parseInt` reads a minus sign followed by decimal digits. */
  lemma ParseIntOfSignedDigitString(d: string)
    requires d != [] && AllDigits(d)
    ensures ParseInt("-" + d) == Some(-(DecimalValue(d) as int))
  {
    var s := "-" + d;
    assert s[0] == '-' && s[1..] == d;
    assert TrimStart(s) == s;
    ParseUnsignedOfDigits(d, true);
  }

  /** Reading back the decimal text of an integer gives the integer. */
  lemma ParseIntOfIntToDecimal(n: int)
    ensures ParseInt(IntToDecimal(n)) == Some(n)
  {
    var m: nat := if n < 0 then -n else n;
    var d := NatToDecimal(m);
    DecimalValueOfNatToDecimal(m);
    if n < 0 {
      assert IntToDecimal(n) == "-" + d;
      ParseIntOfSignedDigitString(d);
    } else {
      assert IntToDecimal(n) == d;
      ParseIntOfDigitString(d);
    }
  }

  /** An ASCII lower-case letter made upper-case; every other character unchanged. */
  function UpperAscii(c: char): char {
    if 'a' <= c <= 'z' then (c as int - 32) as char else c
  }

  /** `String.prototype.toUpperCase` on ASCII text. */
  function ToUpperAscii(s: string): (r: string)
    ensures |r| == |s|
  {
    seq(|s|, i requires 0 <= i < |s| => UpperAscii(s[i]))
  }

  /** Upper-casing is idempotent and leaves no ASCII lower-case letter. */
  lemma ToUpperAsciiIdempotent(s: string)
    ensures ToUpperAscii(ToUpperAscii(s)) == ToUpperAscii(s)
    ensures forall i :: 0 <= i < |s| ==> !('a' <= ToUpperAscii(s)[i] <= 'z')
  {
  }

  /** `Array.prototype.join(sep)` on strings. */
  function Join(parts: seq<string>, sep: string): string {
    if parts == [] then "" else if |parts| == 1 then parts[0] else parts[0] + sep + Join(parts[1..], sep)
  }

  /** A character in neither the parts nor the separator is not in the join. */
  lemma {:induction false} JoinKeepsAbsent(parts: seq<string>, sep: string, c: char)
    requires c !in sep
    requires forall i :: 0 <= i < |parts| ==> c !in parts[i]
    ensures c !in Join(parts, sep)
  {
    if |parts| > 1 {
      JoinKeepsAbsent(parts[1..], sep, c);
    }
  }

  /** `String.prototype.split(sep)` with a one-character separator. */
  function Split(s: string, sep: char): (r: seq<string>)
    ensures |r| >= 1
    decreases |s|
  {
    var head := BeforeFirst(s, sep);
    if |head| == |s| then [s] else [head] + Split(s[|head| + 1..], sep)
  }

  /** Splitting a join on its separator gives back the parts, provided no
      part holds the separator. */
  lemma {:induction false} SplitOfJoin(parts: seq<string>, sep: char)
    requires |parts| >= 1
    requires forall i :: 0 <= i < |parts| ==> sep !in parts[i]
    ensures Split(Join(parts, [sep]), sep) == parts
  {
    if |parts| == 1 {
      var s := parts[0];
      BeforeFirstWithoutSep(s, sep);
    } else {
      var rest := Join(parts[1..], [sep]);
      var s := Join(parts, [sep]);
      assert s == parts[0] + [sep] + rest;
      BeforeFirstOfJoined(parts[0], sep, rest);
      assert s[|parts[0]| + 1..] == rest;
      SplitOfJoin(parts[1..], sep);
    }
  }
}
