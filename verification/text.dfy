/**
 * The slice of JavaScript's string and number built-ins the handlers rely on:
 * `trim`, ASCII `toUpperCase`/`toLowerCase`, `startsWith`/`includes`, `padStart`,
 * `Number.prototype.toString` for naturals, `parseInt` without a radix, and
 * `length` and `substring` counted in UTF-16 code units.
 */
module Text {
  import opened Wrappers

  /** ECMAScript WhiteSpace and LineTerminator code points: what `trim` and `parseInt` skip. */
  predicate IsWhitespace(c: char) {
    || c == '\t' || c == '\n' || c == '\U{000B}' || c == '\U{000C}' || c == '\r' || c == ' '
    || c == '\U{00A0}' || c == '\U{1680}' || ('\U{2000}' <= c <= '\U{200A}')
    || c == '\U{2028}' || c == '\U{2029}' || c == '\U{202F}' || c == '\U{205F}'
    || c == '\U{3000}' || c == '\U{FEFF}'
  }

  predicate AllWhitespace(s: string) {
    forall i :: 0 <= i < |s| ==> IsWhitespace(s[i])
  }

  /** `trimStart`: drops the leading white space and nothing else. */
  function TrimStart(s: string): (r: string)
    ensures |r| <= |s| && r == s[|s| - |r|..]
    ensures AllWhitespace(s[..|s| - |r|])
    ensures |r| > 0 ==> !IsWhitespace(r[0])
  {
    if |s| > 0 && IsWhitespace(s[0]) then TrimStart(s[1..]) else s
  }

  /** A string that does not start with white space is its own `trimStart`. */
  lemma {:induction false} TrimStartKeeps(s: string)
    requires |s| > 0 && !IsWhitespace(s[0])
    ensures TrimStart(s) == s
  {
  }

  /** `trimEnd`: drops the trailing white space and nothing else. */
  function TrimEnd(s: string): (r: string)
    ensures |r| <= |s| && r == s[..|r|]
    ensures AllWhitespace(s[|r|..])
    ensures |r| > 0 ==> !IsWhitespace(r[|r| - 1])
  {
    if |s| > 0 && IsWhitespace(s[|s| - 1]) then TrimEnd(s[..|s| - 1]) else s
  }

  function Trim(s: string): string {
    TrimEnd(TrimStart(s))
  }

  /** `!s.trim()`: the string is empty once trimmed. */
  predicate IsBlank(s: string) {
    Trim(s) == ""
  }

  /** A string is blank exactly when every character in it is white space. */
  lemma {:induction false} BlankIffAllWhitespace(s: string)
    ensures IsBlank(s) <==> AllWhitespace(s)
  {
    var t := TrimStart(s);
    if |t| > 0 {
      assert !IsWhitespace(s[|s| - |t|]);
    } else {
      assert s[..|s| - |t|] == s;
    }
  }

  function UpperChar(c: char): char {
    if 'a' <= c <= 'z' then (c as int - 32) as char else c
  }

  function LowerChar(c: char): char {
    if 'A' <= c <= 'Z' then (c as int + 32) as char else c
  }

  /** `toUpperCase`, for the ASCII letters: `a`-`z` become `A`-`Z`, every other character stays. */
  function ToUpper(s: string): (r: string)
    ensures |r| == |s|
    ensures forall i :: 0 <= i < |s| && 'a' <= s[i] <= 'z' ==> r[i] as int == s[i] as int - 32 && 'A' <= r[i] <= 'Z'
    ensures forall i :: 0 <= i < |s| && !('a' <= s[i] <= 'z') ==> r[i] == s[i]
  {
    seq(|s|, i requires 0 <= i < |s| => UpperChar(s[i]))
  }

  /** A string without lower-case letters is its own upper-casing. */
  lemma {:induction false} ToUpperKeeps(s: string)
    requires forall i :: 0 <= i < |s| ==> !('a' <= s[i] <= 'z')
    ensures ToUpper(s) == s
  {
  }

  /** `toLowerCase`, for the ASCII letters: `A`-`Z` become `a`-`z`, every other character stays. */
  function ToLower(s: string): (r: string)
    ensures |r| == |s|
    ensures forall i :: 0 <= i < |s| && 'A' <= s[i] <= 'Z' ==> r[i] as int == s[i] as int + 32 && 'a' <= r[i] <= 'z'
    ensures forall i :: 0 <= i < |s| && !('A' <= s[i] <= 'Z') ==> r[i] == s[i]
  {
    seq(|s|, i requires 0 <= i < |s| => LowerChar(s[i]))
  }

  /** Upper-casing only touches lower-case letters: it leaves the length, and a second upper-casing, alone. */
  lemma {:induction false} ToUpperIdempotent(s: string)
    ensures ToUpper(ToUpper(s)) == ToUpper(s)
    ensures ToLower(ToUpper(s)) == ToLower(s)
    ensures forall i :: 0 <= i < |s| && !('a' <= s[i] <= 'z') ==> ToUpper(s)[i] == s[i]
  {
  }

  predicate StartsWith(s: string, prefix: string) {
    |prefix| <= |s| && s[..|prefix|] == prefix
  }

  /** `s.includes(sub)`: `sub` occurs at some position of `s`. */
  predicate Contains(s: string, sub: string)
    decreases |s|
  {
    StartsWith(s, sub) || (|s| > 0 && Contains(s[1..], sub))
  }

  /** `s.padStart(width, fill)`: prepends `fill` only while `s` is shorter than `width`; never truncates. */
  function PadStart(s: string, width: nat, fill: char): (r: string)
    ensures |r| == if |s| >= width then |s| else width
    ensures r[|r| - |s|..] == s
    ensures forall i :: 0 <= i < |r| - |s| ==> r[i] == fill
  {
    if |s| >= width then s else seq(width - |s|, _ => fill) + s
  }

  predicate IsDecimalDigit(c: char) {
    '0' <= c <= '9'
  }

  predicate AllDecimalDigits(s: string) {
    forall i :: 0 <= i < |s| ==> IsDecimalDigit(s[i])
  }

  function DigitChar(d: nat): (c: char)
    requires d < 10
    ensures IsDecimalDigit(c)
  {
    ('0' as int + d) as char
  }

  /** A digit of base 10, or of base 16 in either case, as `parseInt` recognises it. */
  predicate IsDigitIn(c: char, base: nat) {
    || ('0' <= c <= '9' && (c as int - '0' as int) < base)
    || (base == 16 && ('a' <= c <= 'f' || 'A' <= c <= 'F'))
  }

  function DigitValue(c: char): nat {
    if '0' <= c <= '9' then c as int - '0' as int
    else if 'a' <= c <= 'f' then c as int - 'a' as int + 10
    else if 'A' <= c <= 'F' then c as int - 'A' as int + 10
    else 0
  }

  /** The positional value of a digit string, most significant digit first. */
  function ValueOf(ds: string, base: nat): nat {
    if |ds| == 0 then 0 else ValueOf(ds[..|ds| - 1], base) * base + DigitValue(ds[|ds| - 1])
  }

  /** `n.toString()` for a natural number: decimal digits with no leading zero. */
  function NatToString(n: nat): (r: string)
    ensures |r| >= 1 && AllDecimalDigits(r)
    ensures r[0] == '0' ==> n == 0
    decreases n
  {
    if n < 10 then [DigitChar(n)] else NatToString(n / 10) + [DigitChar(n % 10)]
  }

  /** Reading back the digits `NatToString` writes gives the number it was given. */
  lemma {:induction false} ValueOfNatToString(n: nat)
    ensures ValueOf(NatToString(n), 10) == n
    decreases n
  {
    if n >= 10 {
      var s := NatToString(n);
      assert s[..|s| - 1] == NatToString(n / 10);
      ValueOfNatToString(n / 10);
    }
  }

  /** A number of three or more digits prints as three or more characters. */
  lemma {:induction false} NatToStringWide(n: nat)
    requires n >= 100
    ensures |NatToString(n)| >= 3
  {
    assert NatToString(n) == NatToString(n / 10) + [DigitChar(n % 10)];
    assert NatToString(n / 10) == NatToString(n / 100) + [DigitChar((n / 10) % 10)];
  }

  /** The longest prefix of `s` made of digits of `base`. */
  function LeadingDigits(s: string, base: nat): (r: string)
    ensures |r| <= |s| && r == s[..|r|]
    ensures forall i :: 0 <= i < |r| ==> IsDigitIn(r[i], base)
    ensures |r| < |s| ==> !IsDigitIn(s[|r|], base)
  {
    if |s| > 0 && IsDigitIn(s[0], base) then [s[0]] + LeadingDigits(s[1..], base) else []
  }

  /** A string made only of digits of `base` is its own longest digit prefix. */
  lemma {:induction false} LeadingDigitsOfDigits(s: string, base: nat)
    requires forall i :: 0 <= i < |s| ==> IsDigitIn(s[i], base)
    ensures LeadingDigits(s, base) == s
  {
    if |s| > 0 {
      LeadingDigitsOfDigits(s[1..], base);
    }
  }

  /**
   * The magnitude part of `parseInt`, after the sign: a `0x`/`0X` prefix
   * switches to base 16, then the longest run of digits is read; no digit
   * at all is `NaN` (here `None`).
   */
  function ParseMagnitude(u: string): Option<nat> {
    var hex := |u| >= 2 && u[0] == '0' && (u[1] == 'x' || u[1] == 'X');
    var base := if hex then 16 else 10;
    var digits := LeadingDigits(if hex then u[2..] else u, base);
    if |digits| == 0 then None else Some(ValueOf(digits, base))
  }

  /** `parseInt(s)` with no radix argument: skip leading white space, read an optional sign, then the magnitude. */
  function ParseInt(s: string): Option<int> {
    var t := TrimStart(s);
    var signed := |t| > 0 && (t[0] == '-' || t[0] == '+');
    var magnitude := ParseMagnitude(if signed then t[1..] else t);
    match magnitude
    case None => None
    case Some(m) => Some(if signed && t[0] == '-' then 0 - m else m)
  }

  /** A decimal string without a leading zero is read back in base 10 as its value. */
  lemma {:induction false} ParseMagnitudeOfNatToString(n: nat)
    ensures ParseMagnitude(NatToString(n)) == Some(n)
  {
    var d := NatToString(n);
    assert forall i :: 0 <= i < |d| ==> IsDigitIn(d[i], 10);
    LeadingDigitsOfDigits(d, 10);
    ValueOfNatToString(n);
  }

  /** `parseInt` inverts `toString` on the naturals. */
  lemma {:induction false} ParseIntOfNatToString(n: nat)
    ensures ParseInt(NatToString(n)) == Some(n)
  {
    var s := NatToString(n);
    assert !IsWhitespace(s[0]) && s[0] != '-' && s[0] != '+';
    TrimStartKeeps(s);
    ParseMagnitudeOfNatToString(n);
  }

  /** `parseInt` reads a leading minus sign as negation. */
  lemma {:induction false} ParseIntOfNegative(n: nat)
    ensures ParseInt("-" + NatToString(n)) == Some(0 - n)
  {
    var s := "-" + NatToString(n);
    TrimStartKeeps(s);
    assert s[1..] == NatToString(n);
    ParseMagnitudeOfNatToString(n);
  }

  /** `parseInt` of an empty or blank input is `NaN`. */
  lemma {:induction false} ParseIntOfBlank(s: string)
    requires AllWhitespace(s)
    ensures ParseInt(s) == None
  {
    assert s[..|s|] == s;
  }

  /**
   * `parseInt(text) || fallback`: the fallback replaces both `NaN` and `0`,
   * the two falsy numbers; every other parsed value is kept.
   */
  function IntOr(parsed: Option<int>, fallback: int): (r: int)
    ensures parsed.Some? && parsed.value != 0 ==> r == parsed.value
    ensures (parsed.None? || parsed.value == 0) ==> r == fallback
    ensures fallback != 0 ==> r != 0
  {
    if parsed.None? || parsed.value == 0 then fallback else parsed.value
  }

  /** A string field is falsy when it is missing or empty. */
  predicate Falsy(v: Option<string>) {
    v.None? || v.value == ""
  }

  /** `v || fallback` on an optional string. */
  function TextOr(v: Option<string>, fallback: string): (r: string)
    ensures Falsy(v) ==> r == fallback
    ensures !Falsy(v) ==> r == v.value
    ensures fallback != "" ==> r != ""
  {
    if Falsy(v) then fallback else v.value
  }

  /** A template-literal operand: `undefined`, `null`, or a value with its text. */
  datatype JsValue = Undefined | Null | Shown(text: string)

  /** `${v}`. */
  function Show(v: JsValue): string {
    match v
    case Undefined => "undefined"
    case Null => "null"
    case Shown(t) => t
  }

  /** The UTF-16 code units a character takes: two beyond the Basic Multilingual Plane, one otherwise. */
  function Units(c: char): nat {
    if c as int >= 0x1_0000 then 2 else 1
  }

  /** A character of the Basic Multilingual Plane: one code unit. */
  predicate InPlane(c: char) {
    c as int < 0x1_0000
  }

  /** JavaScript's `length`: the number of UTF-16 code units, the character count within the Basic Multilingual Plane. */
  function Utf16Length(s: string): (n: nat)
    ensures |s| <= n <= 2 * |s|
    ensures (forall i :: 0 <= i < |s| ==> InPlane(s[i])) ==> n == |s|
  {
    if |s| == 0 then 0 else Units(s[0]) + Utf16Length(s[1..])
  }

  /** Code units add up over concatenation with a leading character. */
  lemma {:induction false} Utf16LengthCons(c: char, s: string)
    ensures Utf16Length([c] + s) == Units(c) + Utf16Length(s)
  {
    assert ([c] + s)[0] == c;
    assert ([c] + s)[1..] == s;
  }

  /**
   * `substring(0, n)` cut back to whole characters: the longest prefix whose
   * code units fit in `n`.
   */
  function TakeUnits(s: string, n: nat): (r: string)
    ensures |r| <= |s| && r == s[..|r|]
    ensures Utf16Length(r) <= n
    ensures r == s || Utf16Length(s[..|r| + 1]) > n
    ensures Utf16Length(s) <= n ==> r == s
    decreases |s|
  {
    if |s| == 0 then []
    else if Units(s[0]) > n then
      TooWideFirst(s, n);
      []
    else
      var rest := TakeUnits(s[1..], n - Units(s[0]));
      TakeUnitsCons(s, rest, n);
      [s[0]] + rest
  }

  /** A first character wider than `n` already overflows the bound. */
  lemma {:induction false} TooWideFirst(s: string, n: nat)
    requires |s| > 0 && Units(s[0]) > n
    ensures Utf16Length(s[..1]) > n && Utf16Length(s) > n
  {
    Utf16LengthCons(s[0], []);
    assert s[..1] == [s[0]] + [];
  }

  /** The step of `TakeUnits`: a fitting first character followed by the longest fitting prefix of the rest. */
  lemma {:induction false} TakeUnitsCons(s: string, rest: string, n: nat)
    requires |s| > 0 && Units(s[0]) <= n
    requires |rest| <= |s| - 1 && rest == s[1..][..|rest|]
    requires Utf16Length(rest) <= n - Units(s[0])
    requires rest == s[1..] || Utf16Length(s[1..][..|rest| + 1]) > n - Units(s[0])
    requires Utf16Length(s[1..]) <= n - Units(s[0]) ==> rest == s[1..]
    ensures var r := [s[0]] + rest;
      && |r| <= |s| && r == s[..|r|] && Utf16Length(r) <= n
      && (r == s || Utf16Length(s[..|r| + 1]) > n)
      && (Utf16Length(s) <= n ==> r == s)
  {
    var r := [s[0]] + rest;
    Utf16LengthCons(s[0], rest);
    assert s == [s[0]] + s[1..];
    Utf16LengthCons(s[0], s[1..]);
    if rest != s[1..] {
      assert s[..|r| + 1] == [s[0]] + s[1..][..|rest| + 1];
      Utf16LengthCons(s[0], s[1..][..|rest| + 1]);
    }
  }

  /** Within the Basic Multilingual Plane the code-unit cut is the character cut. */
  lemma {:induction false} TakeUnitsInPlane(s: string, n: nat)
    requires forall i :: 0 <= i < |s| ==> InPlane(s[i])
    ensures TakeUnits(s, n) == if |s| <= n then s else s[..n]
    decreases |s|
  {
    if |s| > 0 && n > 0 {
      var tail := s[1..];
      assert forall i :: 0 <= i < |tail| ==> InPlane(tail[i]) by {
        forall i | 0 <= i < |tail| ensures InPlane(tail[i]) {
          assert tail[i] == s[i + 1];
        }
      }
      TakeUnitsInPlane(tail, n - 1);
      assert Units(s[0]) == 1;
      assert TakeUnits(s, n) == [s[0]] + TakeUnits(tail, n - 1);
      if |s| > n {
        assert s[..n] == [s[0]] + tail[..n - 1];
      } else {
        assert s == [s[0]] + tail;
      }
    }
  }
}

