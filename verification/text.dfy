/**
 * The ECMAScript string primitives the admin console relies on:
 * String.prototype.trim, String.prototype.split and Array.prototype.join
 * with a one-character separator, parseInt, Number applied to a string,
 * and String applied to an integer.
 */
module Text {
  import opened Common

  /** WhiteSpace and LineTerminator code points of ECMA-262 (what trim and parseInt skip). */
  predicate IsWhitespace(c: char) {
    || c == '\t' || c == '\n' || c == '\U{000B}' || c == '\U{000C}' || c == '\r'
    || c == ' ' || c == '\U{00A0}' || c == '\U{1680}' || ('\U{2000}' <= c <= '\U{200A}')
    || c == '\U{2028}' || c == '\U{2029}' || c == '\U{202F}' || c == '\U{205F}'
    || c == '\U{3000}' || c == '\U{FEFF}'
  }

  /** Neither end of `s` is whitespace. */
  predicate IsTrimmed(s: string) {
    s == [] || (!IsWhitespace(s[0]) && !IsWhitespace(s[|s| - 1]))
  }

  predicate AllWhitespace(s: string) {
    forall j :: 0 <= j < |s| ==> IsWhitespace(s[j])
  }

  /** `r` is `s` with some whitespace cut from its front and its back. */
  predicate CutFrom(s: string, r: string) {
    exists i, j :: 0 <= i <= j <= |s| && r == s[i..j] && AllWhitespace(s[..i]) && AllWhitespace(s[j..])
  }

  /** Drops leading whitespace: the result is the suffix left after a run of whitespace. */
  function TrimStart(s: string): (r: string)
    ensures |r| <= |s| && r == s[|s| - |r|..]
    ensures AllWhitespace(s[..|s| - |r|])
    ensures r == [] || !IsWhitespace(r[0])
  {
    if s != [] && IsWhitespace(s[0]) then TrimStart(s[1..]) else s
  }

  /** Drops trailing whitespace: the result is the prefix left before a run of whitespace. */
  function TrimEnd(s: string): (r: string)
    ensures |r| <= |s| && r == s[..|r|]
    ensures AllWhitespace(s[|r|..])
    ensures r == [] || !IsWhitespace(r[|r| - 1])
  {
    if s != [] && IsWhitespace(s[|s| - 1]) then
      var p := s[..|s| - 1];
      var r := TrimEnd(p);
      assert r == s[..|r|] by {
        assert p[..|r|] == s[..|r|];
      }
      assert s[|r|..] == p[|r|..] + [s[|s| - 1]];
      r
    else
      assert s[|s|..] == [];
      s
  }

  /**
   * String.prototype.trim: the result is a slice of `s` with only whitespace
   * cut away on either side, and no whitespace left at either end.
   */
  function Trim(s: string): (r: string)
    ensures IsTrimmed(r)
    ensures CutFrom(s, r)
    ensures IsTrimmed(s) ==> r == s
  {
    TrimBothEnds(s);
    TrimCuts(s);
    TrimKeepsTrimmed(s);
    TrimEnd(TrimStart(s))
  }

  lemma TrimBothEnds(s: string)
    ensures IsTrimmed(TrimEnd(TrimStart(s)))
  {
    var t := TrimStart(s);
    var r := TrimEnd(t);
    if r != [] {
      assert r[0] == t[0];
    }
  }

  lemma TrimCuts(s: string)
    ensures CutFrom(s, TrimEnd(TrimStart(s)))
  {
    var t := TrimStart(s);
    var r := TrimEnd(t);
    var i := |s| - |t|;
    var j := i + |r|;
    assert r == s[i..j] by {
      assert t == s[i..];
      assert r == t[..|r|];
    }
    assert AllWhitespace(s[j..]) by {
      assert s[j..] == t[|r|..];
    }
    CutBetween(s, r, i, j);
  }

  lemma TrimKeepsTrimmed(s: string)
    ensures IsTrimmed(s) ==> TrimEnd(TrimStart(s)) == s
  {
  }

  lemma CutBetween(s: string, r: string, i: int, j: int)
    requires 0 <= i <= j <= |s| && r == s[i..j]
    requires AllWhitespace(s[..i]) && AllWhitespace(s[j..])
    ensures CutFrom(s, r)
  {
  }

  /** Whitespace placed in front of a trimmed string is exactly what trim removes again. */
  lemma TrimAfterPadding(pad: string, t: string)
    requires AllWhitespace(pad) && IsTrimmed(t)
    ensures Trim(pad + t) == t
  {
    TrimStartSkipsPadding(pad, t);
  }

  lemma {:induction false} TrimStartSkipsPadding(pad: string, t: string)
    requires AllWhitespace(pad)
    ensures TrimStart(pad + t) == TrimStart(t)
  {
    if pad == [] {
      assert pad + t == t;
    } else {
      assert (pad + t)[0] == pad[0];
      assert (pad + t)[1..] == pad[1..] + t;
      TrimStartSkipsPadding(pad[1..], t);
    }
  }

  /** Array.prototype.join with separator `sep`. */
  function Join(xs: seq<string>, sep: string): (r: string)
    ensures |xs| == 1 ==> r == xs[0]
    ensures |xs| == 0 ==> r == ""
  {
    if |xs| == 0 then "" else if |xs| == 1 then xs[0] else xs[0] + sep + Join(xs[1..], sep)
  }

  /**
   * String.prototype.split on a one-character separator: the pieces between
   * separators, so that joining them back with the separator gives `s` again.
   * Even the empty string splits into one (empty) piece.
   */
  function Split(s: string, sep: char): (r: seq<string>)
    ensures |r| >= 1
    ensures forall i :: 0 <= i < |r| ==> sep !in r[i]
    ensures Join(r, [sep]) == s
  {
    if s == [] then [""]
    else if s[0] == sep then
      var t := Split(s[1..], sep);
      assert s == [sep] + s[1..];
      [""] + t
    else
      var t := Split(s[1..], sep);
      var r := [[s[0]] + t[0]] + t[1..];
      assert |t| > 1 ==> Join(t, [sep]) == t[0] + [sep] + Join(t[1..], [sep]);
      assert r[1..] == t[1..];
      assert s == [s[0]] + s[1..];
      r
  }

  /** Splitting `a + rest` where `a` holds no separator glues `a` onto the first piece of `rest`. */
  lemma {:induction false} SplitPrefix(a: string, rest: string, sep: char)
    requires sep !in a
    ensures Split(a + rest, sep) == [a + Split(rest, sep)[0]] + Split(rest, sep)[1..]
  {
    var r := Split(rest, sep);
    if a == [] {
      assert a + rest == rest && a + r[0] == r[0];
      assert r == [r[0]] + r[1..];
    } else {
      assert (a + rest)[0] == a[0] && a[0] != sep;
      assert (a + rest)[1..] == a[1..] + rest;
      SplitPrefix(a[1..], rest, sep);
      var t := Split(a[1..] + rest, sep);
      assert t[0] == a[1..] + r[0] && t[1..] == r[1..];
      assert Split(a + rest, sep) == [[a[0]] + t[0]] + t[1..];
      assert [a[0]] + (a[1..] + r[0]) == a + r[0];
    }
  }

  /** Split undoes Join for non-empty lists of separator-free pieces. */
  lemma {:induction false} SplitJoin(xs: seq<string>, sep: char)
    requires |xs| >= 1
    requires forall i :: 0 <= i < |xs| ==> sep !in xs[i]
    ensures Split(Join(xs, [sep]), sep) == xs
  {
    if |xs| == 1 {
      SplitPrefix(xs[0], "", sep);
      assert xs[0] + "" == xs[0];
    } else {
      var tail := Join(xs[1..], [sep]);
      SplitJoin(xs[1..], sep);
      assert Join(xs, [sep]) == xs[0] + ([sep] + tail);
      SplitPrefix(xs[0], [sep] + tail, sep);
      assert ([sep] + tail)[0] == sep && ([sep] + tail)[1..] == tail;
      var r := Split([sep] + tail, sep);
      assert r == [""] + Split(tail, sep);
      assert r[0] == "" && r[1..] == xs[1..];
      assert xs[0] + r[0] == xs[0];
      assert xs == [xs[0]] + xs[1..];
    }
  }

  // ---- numbers ------------------------------------------------------------

  /** The value of `c` as a digit in `radix` (2..36), if it is one. */
  function DigitValue(c: char, radix: nat): (r: Option<nat>)
    ensures r.Some? ==> r.value < radix
  {
    var v: int :=
      if '0' <= c <= '9' then c as int - '0' as int
      else if 'a' <= c <= 'z' then c as int - 'a' as int + 10
      else if 'A' <= c <= 'Z' then c as int - 'A' as int + 10
      else 36;
    if v < radix then Some(v) else None
  }

  predicate IsDigits(s: string, radix: nat) {
    forall j :: 0 <= j < |s| ==> DigitValue(s[j], radix).Some?
  }

  /** Length of the longest prefix of `s` made of `radix` digits. */
  function DigitRun(s: string, radix: nat): (n: nat)
    ensures n <= |s| && IsDigits(s[..n], radix)
    ensures n < |s| ==> DigitValue(s[n], radix).None?
  {
    if s != [] && DigitValue(s[0], radix).Some? then
      var n := 1 + DigitRun(s[1..], radix);
      assert forall j :: 1 <= j < n ==> s[..n][j] == s[1..][..n - 1][j - 1];
      n
    else 0
  }

  /** The number a string of digits denotes in `radix`, most significant digit first. */
  function DigitsValue(s: string, radix: nat): nat
    requires IsDigits(s, radix)
  {
    if s == [] then 0 else DigitsValue(s[..|s| - 1], radix) * radix + DigitValue(s[|s| - 1], radix).value
  }

  function DecimalDigit(d: nat): (c: char)
    requires d < 10
    ensures DigitValue(c, 10) == Some(d)
  {
    ('0' as int + d) as char
  }

  /** String(n) for a non-negative integer: its decimal digits without leading zeros. */
  function NatToString(n: nat): (s: string)
    ensures |s| >= 1 && IsDigits(s, 10) && DigitsValue(s, 10) == n
    ensures |s| > 1 ==> s[0] != '0'
  {
    if n < 10 then [DecimalDigit(n)]
    else
      var s := NatToString(n / 10) + [DecimalDigit(n % 10)];
      assert s[..|s| - 1] == NatToString(n / 10);
      s
  }

  /** String(i) for any integer: a minus sign exactly for negative numbers, then the digits of |i|. */
  function IntToString(i: int): (s: string)
    ensures |s| >= 1 && (s[0] == '-' <==> i < 0)
    ensures i < 0 ==> s[1..] == NatToString(-i)
    ensures i >= 0 ==> s == NatToString(i)
  {
    if i < 0 then "-" + NatToString(-i) else NatToString(i)
  }

  /**
   * parseInt(s) with no radix, following ECMA-262: skip leading whitespace, take
   * an optional sign, a "0x"/"0X" prefix switches to radix 16, then read the
   * longest run of digits; no digits at all gives NaN, written None.
   */
  function ParseInt(s: string): (r: Option<int>)
  {
    ParseSigned(TrimStart(s))
  }

  /** parseInt after the leading whitespace is gone: the sign, then the digits. */
  function ParseSigned(t: string): (r: Option<int>)
  {
    if t != [] && t[0] == '-' then
      match ParseUnsigned(t[1..])
      case Some(v) => var negated: int := 0 - v; Some(negated)
      case None => None
    else if t != [] && t[0] == '+' then
      match ParseUnsigned(t[1..])
      case Some(v) => Some(v)
      case None => None
    else
      match ParseUnsigned(t)
      case Some(v) => Some(v)
      case None => None
  }

  /** parseInt after the sign: an optional hexadecimal prefix, then the longest run of digits. */
  function ParseUnsigned(u: string): (r: Option<nat>)
    ensures r.None? <==> DigitRun(if HasHexPrefix(u) then u[2..] else u, if HasHexPrefix(u) then 16 else 10) == 0
  {
    var radix := if HasHexPrefix(u) then 16 else 10;
    var digits := if HasHexPrefix(u) then u[2..] else u;
    var n := DigitRun(digits, radix);
    if n == 0 then None else Some(DigitsValue(digits[..n], radix))
  }

  predicate HasHexPrefix(u: string) {
    |u| >= 2 && u[0] == '0' && (u[1] == 'x' || u[1] == 'X')
  }

  /** parseInt reads back exactly what String wrote, for every integer. */
  lemma ParseIntToString(i: int)
    ensures ParseInt(IntToString(i)) == Some(i)
  {
    if i < 0 {
      var s := NatToString(-i);
      ParseUnsignedDigits(s);
      var t := "-" + s;
      assert t[0] == '-' && !IsWhitespace(t[0]) && t[1..] == s;
      assert TrimStart(t) == t;
    } else {
      var s := NatToString(i);
      ParseUnsignedDigits(s);
      assert !IsWhitespace(s[0]);
      assert TrimStart(s) == s;
    }
  }

  /** parseInt ignores whitespace in front of the number. */
  lemma {:induction false} ParseIntSkipsWhitespace(ws: string, s: string)
    requires AllWhitespace(ws)
    ensures ParseInt(ws + s) == ParseInt(s)
  {
    TrimStartSkipsPadding(ws, s);
  }

  /**
   * parseInt reads the decimal digits at the front and ignores whatever
   * follows the first non-digit: `parseInt(" 7a")` is 7.
   */
  lemma {:induction false} ParseIntReadsLeadingDigits(ws: string, digits: string, rest: string)
    requires AllWhitespace(ws)
    requires |digits| >= 1 && IsDigits(digits, 10) && (digits[0] != '0' || |digits| > 1)
    requires rest == [] || DigitValue(rest[0], 10).None?
    ensures ParseInt(ws + digits + rest) == Some(DigitsValue(digits, 10))
  {
    var u := digits + rest;
    assert ws + digits + rest == ws + u;
    ParseIntSkipsWhitespace(ws, u);
    assert u[0] == digits[0];
    DigitIsPlain(digits[0]);
    assert ParseInt(u) == ParseSigned(u);
    ParseSignedUnsigned(u);
    ParseUnsignedLeadingDigits(digits, rest);
  }

  lemma ParseSignedUnsigned(t: string)
    requires t != [] && t[0] != '-' && t[0] != '+'
    ensures ParseSigned(t) == ParseUnsigned(t)
  {
  }

  lemma {:induction false} ParseUnsignedLeadingDigits(digits: string, rest: string)
    requires |digits| >= 1 && IsDigits(digits, 10) && (digits[0] != '0' || |digits| > 1)
    requires rest == [] || DigitValue(rest[0], 10).None?
    ensures ParseUnsigned(digits + rest) == Some(DigitsValue(digits, 10))
  {
    var u := digits + rest;
    assert !HasHexPrefix(u) by {
      assert u[0] == digits[0];
      if |digits| > 1 {
        assert u[1] == digits[1] && DigitValue(u[1], 10).Some?;
      }
    }
    DigitRunStops(digits, rest, 10);
    assert u[..|digits|] == digits;
  }

  /** After whitespace, anything but a sign or a digit makes parseInt NaN. */
  lemma {:induction false} ParseIntNaN(ws: string, rest: string)
    requires AllWhitespace(ws)
    requires rest == [] || (!IsWhitespace(rest[0]) && rest[0] != '-' && rest[0] != '+' && DigitValue(rest[0], 10).None?)
    ensures ParseInt(ws + rest) == None
  {
    ParseIntSkipsWhitespace(ws, rest);
    if rest != [] {
      assert TrimStart(rest) == rest;
      assert !HasHexPrefix(rest);
    }
  }

  lemma {:induction false} DigitRunStops(digits: string, rest: string, radix: nat)
    requires IsDigits(digits, radix)
    requires rest == [] || DigitValue(rest[0], radix).None?
    ensures DigitRun(digits + rest, radix) == |digits|
  {
    if digits == [] {
      assert digits + rest == rest;
    } else {
      assert (digits + rest)[0] == digits[0];
      assert (digits + rest)[1..] == digits[1..] + rest;
      DigitRunStops(digits[1..], rest, radix);
    }
  }

  /** A run of decimal digits without a leading zero is read in full. */
  lemma ParseUnsignedDigits(s: string)
    requires |s| >= 1 && IsDigits(s, 10) && (|s| > 1 ==> s[0] != '0')
    ensures ParseUnsigned(s) == Some(DigitsValue(s, 10))
  {
    assert !HasHexPrefix(s);
    DigitRunAll(s, 10);
    assert s[..|s|] == s;
  }

  lemma {:induction false} DigitRunAll(s: string, radix: nat)
    requires IsDigits(s, radix)
    ensures DigitRun(s, radix) == |s|
  {
    if s != [] {
      DigitRunAll(s[1..], radix);
    }
  }

  /**
   * Number(s) for the string forms the console meets: surrounding whitespace is
   * ignored, an empty string is 0, an optionally signed run of decimal digits is
   * its value, and "0x"/"0o"/"0b" prefixes read hexadecimal, octal or binary.
   * Anything else is NaN, written None.
   */
  function StringToNumber(s: string): (r: Option<int>)
    ensures Trim(s) == "" ==> r == Some(0)
  {
    NumberOfTrimmed(Trim(s))
  }

  /** Number(s) once the surrounding whitespace is gone. */
  function NumberOfTrimmed(t: string): (r: Option<int>)
    ensures t == [] ==> r == Some(0)
  {
    if t == [] then Some(0)
    else if |t| >= 2 && t[0] == '0' && (t[1] in "xXoObB") then
      var radix := if t[1] in "xX" then 16 else if t[1] in "oO" then 8 else 2;
      var d := t[2..];
      if d != [] && IsDigits(d, radix) then Some(DigitsValue(d, radix)) else None
    else
      var negative := t[0] == '-';
      var d := if t[0] == '-' || t[0] == '+' then t[1..] else t;
      if d != [] && IsDigits(d, 10) then
        var v: int := DigitsValue(d, 10);
        Some(if negative then -v else v)
      else None
  }

  /** Number reads back exactly what String wrote, for every integer. */
  lemma NumberOfString(i: int)
    ensures StringToNumber(IntToString(i)) == Some(i)
  {
    if i < 0 {
      SignedDigitsNumber("-", NatToString(-i));
    } else {
      SignedDigitsNumber("", NatToString(i));
      assert "" + NatToString(i) == NatToString(i);
    }
  }

  /** An optional minus sign and decimal digits without a leading zero read back as their value. */
  lemma SignedDigitsNumber(sign: string, digits: string)
    requires sign == "" || sign == "-"
    requires |digits| >= 1 && IsDigits(digits, 10) && (|digits| > 1 ==> digits[0] != '0')
    ensures StringToNumber(sign + digits) == Some(if sign == "" then DigitsValue(digits, 10) else -(DigitsValue(digits, 10) as int))
  {
    var s := sign + digits;
    DigitIsPlain(digits[0]);
    DigitIsPlain(digits[|digits| - 1]);
    assert s[|s| - 1] == digits[|digits| - 1];
    assert s[0] == if sign == "" then digits[0] else '-';
    TrimmedNumber(s);
    if sign == "" {
      assert s == digits;
      DigitsNumberTrimmed(digits);
    } else {
      assert |s| >= 2 && s[0] == '-' && s[1..] == digits;
      NegatedDigitsNumberTrimmed(s, digits);
    }
  }

  lemma TrimmedNumber(s: string)
    requires s != [] && !IsWhitespace(s[0]) && !IsWhitespace(s[|s| - 1])
    ensures StringToNumber(s) == NumberOfTrimmed(s)
  {
    assert IsTrimmed(s);
  }

  lemma DigitsNumberTrimmed(digits: string)
    requires |digits| >= 1 && IsDigits(digits, 10) && (|digits| > 1 ==> digits[0] != '0')
    ensures NumberOfTrimmed(digits) == Some(DigitsValue(digits, 10))
  {
    DigitIsPlain(digits[0]);
  }

  lemma NegatedDigitsNumberTrimmed(s: string, digits: string)
    requires |digits| >= 1 && IsDigits(digits, 10)
    requires |s| >= 2 && s[0] == '-' && s[1..] == digits
    ensures NumberOfTrimmed(s) == Some(-(DigitsValue(digits, 10) as int))
  {
  }

  /** A decimal digit is neither whitespace nor a sign. */
  lemma DigitIsPlain(c: char)
    requires DigitValue(c, 10).Some?
    ensures !IsWhitespace(c) && c != '-' && c != '+'
  {
  }

}
