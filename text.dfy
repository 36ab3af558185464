/** The string operations the components rely on: JavaScript's
    `String.prototype.trim`, decimal rendering of whole numbers inside
    template literals, and `String.prototype.length`, which counts
    UTF-16 code units. */
module Text {

  /** The code points `trim` removes: ECMAScript's WhiteSpace (tab,
      vertical tab, form feed, space, no-break space, the byte order mark and
      every Space_Separator) and LineTerminator (LF, CR, U+2028, U+2029).
      Among ASCII characters these are the space and tab to carriage
      return; no letter or digit is one. */
  function IsWhitespace(c: char): (ws: bool)
    ensures c as int < 0x80 ==> (ws <==> c == ' ' || '\t' <= c <= '\r')
    ensures ws ==> c as int <= 0xFEFF
  {
    var n := c as int;
    n == 0x09 || n == 0x0A || n == 0x0B || n == 0x0C || n == 0x0D
    || n == 0x20 || n == 0xA0 || n == 0x1680
    || (0x2000 <= n <= 0x200A)
    || n == 0x2028 || n == 0x2029 || n == 0x202F || n == 0x205F
    || n == 0x3000 || n == 0xFEFF
  }

  /** A string that `trim` turns into "" (a falsy value). */
  predicate IsBlank(s: string) {
    forall k :: 0 <= k < |s| ==> IsWhitespace(s[k])
  }

  /** `s` with its leading whitespace removed. */
  function TrimStart(s: string): string {
    if s != [] && IsWhitespace(s[0]) then TrimStart(s[1..]) else s
  }

  /** `s` with its trailing whitespace removed. */
  function TrimEnd(s: string): string {
    if s != [] && IsWhitespace(s[|s| - 1]) then TrimEnd(s[..|s| - 1]) else s
  }

  /** What TrimStart keeps is a suffix of `s`, what it cuts is whitespace,
      and what it keeps does not start with whitespace. */
  lemma {:induction false} TrimStartSpec(s: string)
    ensures var r := TrimStart(s);
      && |r| <= |s| && r == s[|s| - |r|..]
      && IsBlank(s[..|s| - |r|])
      && (r == [] || !IsWhitespace(r[0]))
  {
    if s != [] && IsWhitespace(s[0]) {
      TrimStartSpec(s[1..]);
      var r := TrimStart(s);
      assert s[..|s| - |r|] == [s[0]] + s[1..][..|s| - 1 - |r|];
    }
  }

  /** What TrimEnd keeps is a prefix of `s`, what it cuts is whitespace,
      and what it keeps does not end with whitespace. */
  lemma {:induction false} TrimEndSpec(s: string)
    ensures var r := TrimEnd(s);
      && |r| <= |s| && r == s[..|r|]
      && IsBlank(s[|r|..])
      && (r == [] || !IsWhitespace(r[|r| - 1]))
  {
    if s != [] && IsWhitespace(s[|s| - 1]) {
      TrimEndSpec(s[..|s| - 1]);
      var r := TrimEnd(s);
      assert s[|r|..] == s[..|s| - 1][|r|..] + [s[|s| - 1]];
    }
  }

  /** `s.trim()`: empty exactly for a blank string, and otherwise starting
      and ending with a character that is not whitespace. */
  function Trim(s: string): (r: string)
    ensures r == [] <==> IsBlank(s)
    ensures r != [] ==> !IsWhitespace(r[0]) && !IsWhitespace(r[|r| - 1])
  {
    var t := TrimStart(s);
    TrimStartSpec(s);
    TrimEndSpec(t);
    var r := TrimEnd(t);
    assert s == s[..|s| - |t|] + t;
    assert r == [] ==> t == t[|r|..];
    assert t != [] ==> t[0] == s[|s| - |t|];
    r
  }

  /** `trim` keeps one contiguous slice of its argument and drops only
      whitespace on either side of it. */
  lemma TrimIsSlice(s: string)
    ensures var i := |s| - |TrimStart(s)|;
      && 0 <= i && i + |Trim(s)| <= |s|
      && Trim(s) == s[i..i + |Trim(s)|]
      && IsBlank(s[..i])
      && IsBlank(s[i + |Trim(s)|..])
  {
    var t := TrimStart(s);
    var i := |s| - |t|;
    var r := TrimEnd(t);
    TrimStartSpec(s);
    TrimEndSpec(t);
    assert t == s[i..];
    assert r == t[..|r|] == s[i..i + |r|];
    assert t[|r|..] == s[i + |r|..];
  }

  /** A string that neither starts nor ends with whitespace is its own trim. */
  lemma TrimUnchanged(s: string)
    requires s == [] || (!IsWhitespace(s[0]) && !IsWhitespace(s[|s| - 1]))
    ensures Trim(s) == s
  {
  }

  /** Trimming twice is trimming once. */
  lemma TrimIdempotent(s: string)
    ensures Trim(Trim(s)) == Trim(s)
  {
    TrimUnchanged(Trim(s));
  }

  predicate IsDigit(c: char) {
    '0' <= c <= '9'
  }

  predicate AllDigits(s: string) {
    forall k :: 0 <= k < |s| ==> IsDigit(s[k])
  }

  function DigitChar(d: nat): (c: char)
    requires d < 10
    ensures IsDigit(c) && c as int - '0' as int == d
  {
    ('0' as int + d) as char
  }

  /** The decimal text of a whole number, as a template literal renders
      it: at least one digit and no leading zero. */
  function NatToString(n: nat): (r: string)
    ensures |r| >= 1 && AllDigits(r)
    ensures r[0] == '0' ==> n == 0 && |r| == 1
    decreases n
  {
    if n < 10 then [DigitChar(n)] else NatToString(n / 10) + [DigitChar(n % 10)]
  }

  /** The value of a decimal digit (0 for any other character). */
  function DigitValue(c: char): nat {
    if IsDigit(c) then c as int - '0' as int else 0
  }

  /** Writing a digit after the text of a positive number gives the text of
      the number with that digit appended; a digit alone is the text of its
      value. */
  lemma NatToStringAppendDigit(n: nat, c: char)
    requires IsDigit(c)
    ensures NatToString(DigitValue(c)) == [c]
    ensures n > 0 ==> NatToString(n * 10 + DigitValue(c)) == NatToString(n) + [c]
  {
    var v := n * 10 + DigitValue(c);
    assert DigitChar(DigitValue(c)) as int == c as int;
    if n > 0 {
      assert v / 10 == n && v % 10 == DigitValue(c);
    }
  }

  /** The number the digits of `s` denote when `acc` holds the value of
      the digits read before them. */
  function DigitsFrom(acc: nat, s: string): nat
    decreases |s|
  {
    if s == [] then acc else DigitsFrom(acc * 10 + DigitValue(s[0]), s[1..])
  }

  /** The number a string of decimal digits denotes. */
  function DigitsValue(s: string): nat {
    DigitsFrom(0, s)
  }

  /** One more digit at the end shifts the value one decimal place. */
  lemma {:induction false} DigitsFromAppend(acc: nat, s: string, c: char)
    ensures DigitsFrom(acc, s + [c]) == DigitsFrom(acc, s) * 10 + DigitValue(c)
    decreases |s|
  {
    if s == [] {
      assert [] + [c] == [c];
    } else {
      assert (s + [c])[1..] == s[1..] + [c];
      DigitsFromAppend(acc * 10 + DigitValue(s[0]), s[1..], c);
    }
  }

  /** Reading back the decimal text of `n` gives `n`. */
  lemma {:induction false} DigitsValueOfNatToString(n: nat)
    ensures DigitsValue(NatToString(n)) == n
    decreases n
  {
    if n >= 10 {
      DigitsFromAppend(0, NatToString(n / 10), DigitChar(n % 10));
      DigitsValueOfNatToString(n / 10);
    } else {
      assert DigitsFrom(0, [DigitChar(n)]) == DigitsFrom(n, []);
    }
  }

  /** `s.length`: JavaScript strings are sequences of UTF-16 code units, so a
      code point above U+FFFF counts twice. */
  function Utf16Length(s: string): (n: nat)
    ensures |s| <= n <= 2 * |s|
  {
    if s == [] then 0
    else (if s[0] as int > 0xFFFF then 2 else 1) + Utf16Length(s[1..])
  }
}
