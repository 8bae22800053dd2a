/** Decimal text as the C library reads and writes it: `strtol` in base 10, `sprintf("%d")`, and the
    narrowing of a 64-bit `long` to a 32-bit `int`. */
module CString {

  const LONG_MAX: int := 0x7FFF_FFFF_FFFF_FFFF
  const INT_MAX: int := 0x7FFF_FFFF

  datatype Option<+T> = None | Some(value: T)

  predicate IsSpace(c: char) {
    c == ' ' || '\t' <= c <= '\r'
  }

  predicate IsDigit(c: char) {
    '0' <= c <= '9'
  }

  ghost predicate AllDigits(s: string) {
    forall i :: 0 <= i < |s| ==> IsDigit(s[i])
  }

  function DigitValue(c: char): (d: nat)
    requires IsDigit(c)
    ensures d < 10
  {
    c as int - '0' as int
  }

  function DigitChar(d: nat): (c: char)
    requires d < 10
    ensures IsDigit(c) && DigitValue(c) == d
  {
    ('0' as int + d) as char
  }

  /** Number of white-space characters that `strtol` skips. */
  function SpaceRun(s: string): (n: nat)
    ensures n <= |s|
  {
    if s != [] && IsSpace(s[0]) then 1 + SpaceRun(s[1..]) else 0
  }

  /** Length of the longest prefix made of decimal digits. */
  function DigitRun(s: string): (n: nat)
    ensures n <= |s| && AllDigits(s[..n])
    ensures n < |s| ==> !IsDigit(s[n])
  {
    if s != [] && IsDigit(s[0]) then
      var n := DigitRun(s[1..]);
      assert forall i :: 0 <= i < n ==> s[i + 1] == s[1..][..n][i];
      1 + n
    else 0
  }

  function DecimalValue(s: string): (v: nat)
    requires AllDigits(s)
  {
    if s == [] then 0 else 10 * DecimalValue(s[..|s| - 1]) + DigitValue(s[|s| - 1])
  }

  /** What `strtol` hands back: the value, and how many characters it consumed (0 when no number was found). */
  datatype Parsed = Parsed(value: int, end: nat)

  function Clamp(v: int): int {
    if v > LONG_MAX then LONG_MAX else if v < -LONG_MAX - 1 then -LONG_MAX - 1 else v
  }

  /** The digits at the start, as a positive or a negative number. */
  function Unsigned(negative: bool, s: string): (p: Parsed)
    ensures p.end <= |s|
  {
    var n := DigitRun(s);
    if n == 0 then Parsed(0, 0)
    else
      var magnitude: int := DecimalValue(s[..n]);
      Parsed(Clamp(if negative then -magnitude else magnitude), n)
  }

  function Behind(i: nat, p: Parsed): Parsed {
    if p.end == 0 then p else p.(end := i + p.end)
  }

  /** At most one sign and the digits behind it. */
  function Signed(s: string): (p: Parsed)
    ensures p.end <= |s|
  {
    if s != "" && (s[0] == '-' || s[0] == '+') then Behind(1, Unsigned(s[0] == '-', s[1..])) else Unsigned(false, s)
  }

  function Strtol(s: string): (p: Parsed)
    ensures p.end <= |s|
  {
    var i := SpaceRun(s);
    Behind(i, Signed(s[i..]))
  }

  /** Conversion of a `long` to a 32-bit `int`: the low 32 bits, read as two's complement. */
  function ToInt32(v: int): (r: int)
    ensures -INT_MAX - 1 <= r <= INT_MAX
    ensures (v - r) % 0x1_0000_0000 == 0
  {
    (v + 0x8000_0000) % 0x1_0000_0000 - 0x8000_0000
  }

  lemma ToInt32Id(v: int)
    requires -INT_MAX - 1 <= v <= INT_MAX
    ensures ToInt32(v) == v
  {
  }

  /** `sprintf("%d", n)` for a non-negative n. */
  function Decimal(n: nat): (s: string)
    ensures |s| > 0
  {
    if n < 10 then [DigitChar(n)] else Decimal(n / 10) + [DigitChar(n % 10)]
  }

  /** The printer and the digit reader are inverse. */
  lemma {:induction false} DecimalRoundTrip(n: nat)
    ensures AllDigits(Decimal(n))
    ensures DecimalValue(Decimal(n)) == n
  {
    if n >= 10 {
      DecimalRoundTrip(n / 10);
      assert Decimal(n)[..|Decimal(n)| - 1] == Decimal(n / 10);
    } else {
      assert Decimal(n)[..0] == [];
    }
  }

  lemma {:induction false} DigitRunOfPrefix(digits: string, rest: string)
    requires AllDigits(digits)
    requires rest == [] || !IsDigit(rest[0])
    ensures DigitRun(digits + rest) == |digits|
  {
    if digits == [] {
      assert digits + rest == rest;
    } else {
      assert (digits + rest)[1..] == digits[1..] + rest;
      DigitRunOfPrefix(digits[1..], rest);
    }
  }

  /** `strtol` reads back what `sprintf` wrote and stops right behind it, whatever non-digit follows. */
  lemma StrtolReadsDecimal(n: nat, rest: string)
    requires n <= LONG_MAX
    requires rest == [] || !IsDigit(rest[0])
    ensures Strtol(Decimal(n) + rest) == Parsed(n, |Decimal(n)|)
  {
    var s := Decimal(n) + rest;
    DecimalRoundTrip(n);
    DigitRunOfPrefix(Decimal(n), rest);
    assert IsDigit(s[0]);
    assert s[0..] == s;
    assert s[..|Decimal(n)|] == Decimal(n);
  }

  const WHITE_SPACE: string := " \t\n\U{0B}\U{0C}\r"

  /** Nothing, a plus or a minus. */
  predicate IsSign(sign: string) {
    |sign| <= 1 && (sign != "" ==> sign[0] == '+' || sign[0] == '-')
  }

  /** White space, at most one sign, all digits behind it, and the rest. Every text is made of such parts. */
  ghost predicate AreNumberParts(spaces: string, sign: string, digits: string, rest: string) {
    && (forall i :: 0 <= i < |spaces| ==> spaces[i] in WHITE_SPACE)
    && IsSign(sign)
    && (forall i :: 0 <= i < |digits| ==> '0' <= digits[i] <= '9')
    && (rest != "" ==> rest[0] < '0' || rest[0] > '9')
    && (sign == "" && digits == "" && rest != "" ==> rest[0] !in WHITE_SPACE && rest[0] != '+' && rest[0] != '-')
  }

  /** The number in range that is nearest to the one read. */
  ghost predicate Saturated(v: int, exact: int) {
    && -0x8000_0000_0000_0000 <= v <= 0x7FFF_FFFF_FFFF_FFFF
    && (-0x8000_0000_0000_0000 <= exact <= 0x7FFF_FFFF_FFFF_FFFF ==> v == exact)
    && (exact > 0x7FFF_FFFF_FFFF_FFFF ==> v == 0x7FFF_FFFF_FFFF_FFFF)
    && (exact < -0x8000_0000_0000_0000 ==> v == -0x8000_0000_0000_0000)
  }

  lemma {:induction false} SpaceRunIs(spaces: string, rest: string)
    requires (forall i :: 0 <= i < |spaces| ==> IsSpace(spaces[i])) && (rest != "" ==> !IsSpace(rest[0]))
    ensures SpaceRun(spaces + rest) == |spaces|
  {
    if spaces == "" {
      assert spaces + rest == rest;
    } else {
      assert (spaces + rest)[1..] == spaces[1..] + rest;
      SpaceRunIs(spaces[1..], rest);
    }
  }

  lemma WhiteSpaceIs(c: char)
    ensures IsSpace(c) <==> c in WHITE_SPACE
  {
    assert WHITE_SPACE[0] == ' ' && WHITE_SPACE[1] == '\t' && WHITE_SPACE[2] == '\n';
    assert WHITE_SPACE[3] == '\U{0B}' && WHITE_SPACE[4] == '\U{0C}' && WHITE_SPACE[5] == '\r';
  }

  /** The white space of a text in parts is all that is skipped. */
  lemma SpacesOfParts(spaces: string, sign: string, digits: string, rest: string)
    requires AreNumberParts(spaces, sign, digits, rest)
    ensures SpaceRun(spaces + (sign + digits + rest)) == |spaces|
  {
    forall c ensures IsSpace(c) <==> c in WHITE_SPACE {
      WhiteSpaceIs(c);
    }
    var tail := sign + digits + rest;
    assert sign == "" && digits == "" ==> tail == rest;
    assert sign == "" && digits != "" ==> tail[0] == digits[0];
    SpaceRunIs(spaces, tail);
  }

  /** The number in digits, saturated, and where it ends. */
  ghost predicate ReadsNumber(p: Parsed, negative: bool, digits: string, end: nat)
    requires AllDigits(digits)
  {
    if digits == "" then p == Parsed(0, 0)
    else p.end == end && Saturated(p.value, if negative then -(DecimalValue(digits) as int) else DecimalValue(digits))
  }

  lemma UnsignedReads(negative: bool, digits: string, rest: string)
    requires AllDigits(digits) && (rest != "" ==> !IsDigit(rest[0]))
    ensures ReadsNumber(Unsigned(negative, digits + rest), negative, digits, |digits|)
  {
    DigitRunOfPrefix(digits, rest);
    assert (digits + rest)[..|digits|] == digits;
    hide DigitRun, DecimalValue;
  }

  lemma SignedReads(spaces: string, sign: string, digits: string, rest: string)
    requires AreNumberParts(spaces, sign, digits, rest)
    ensures ReadsNumber(Signed(sign + digits + rest), '-' in sign, digits, |sign| + |digits|)
  {
    var s, number := sign + digits + rest, digits + rest;
    assert s == sign + number;
    UnsignedReads('-' in sign, digits, rest);
    assert sign == "" && number != "" ==> number[0] != '-' && number[0] != '+';
    hide AreNumberParts, AllDigits, Unsigned, Saturated, DecimalValue;
    if sign == "" {
      assert s == number;
    } else {
      assert s[0] == sign[0] && s[1..] == number;
      assert sign == [sign[0]];
    }
  }

  /** What `strtol` makes of any text: without a digit it reads nothing; otherwise it stops behind the digits, and out
      of range it saturates. */
  lemma StrtolReads(spaces: string, sign: string, digits: string, rest: string)
    requires AreNumberParts(spaces, sign, digits, rest)
    ensures var p := Strtol(spaces + (sign + digits + rest));
            ReadsNumber(p, '-' in sign, digits, |spaces| + |sign| + |digits|)
  {
    SpacesOfParts(spaces, sign, digits, rest);
    SignedReads(spaces, sign, digits, rest);
    hide SpaceRun, Signed, DecimalValue, Saturated, AreNumberParts;
    assert (spaces + (sign + digits + rest))[|spaces|..] == sign + digits + rest;
  }

  /** Every text is made of such parts. */
  lemma EveryTextHasParts(s: string) returns (spaces: string, sign: string, digits: string, rest: string)
    ensures s == spaces + (sign + digits + rest) && AreNumberParts(spaces, sign, digits, rest)
  {
    var i := SpaceRun(s);
    SkipsAllSpaces(s);
    forall c ensures IsSpace(c) <==> c in WHITE_SPACE {
      WhiteSpaceIs(c);
    }
    hide SpaceRun, WHITE_SPACE;
    spaces := s[..i];
    sign, digits, rest := SignAndDigits(s[i..]);
  }

  lemma SignAndDigits(s: string) returns (sign: string, digits: string, rest: string)
    ensures s == sign + digits + rest && IsSign(sign) && AllDigits(digits)
    ensures rest != "" ==> rest[0] < '0' || rest[0] > '9'
    ensures sign == "" && digits == "" && rest != "" ==> rest == s && rest[0] != '+' && rest[0] != '-'
  {
    hide DigitRun;
    sign := if s != "" && (s[0] == '-' || s[0] == '+') then s[..1] else "";
    var number := s[|sign|..];
    var n := DigitRun(number);
    digits, rest := number[..n], number[n..];
  }

  lemma {:induction false} SkipsAllSpaces(s: string)
    ensures var n := SpaceRun(s);
            (forall i :: 0 <= i < n ==> IsSpace(s[i])) && (n < |s| ==> !IsSpace(s[n]))
  {
    if s == "" || !IsSpace(s[0]) {
    } else {
      SkipsAllSpaces(s[1..]);
    }
  }

  /** Leading zeros do not matter. */
  lemma {:induction false} LeadingZero(digits: string)
    requires AllDigits(digits)
    ensures DecimalValue("0" + digits) == DecimalValue(digits)
  {
    if digits == "" {
      assert "0" + digits == "0";
      assert "0"[..0] == "";
    } else {
      LeadingZero(digits[..|digits| - 1]);
      assert ("0" + digits)[..|digits|] == "0" + digits[..|digits| - 1];
    }
  }

  // ----- C strings in buffers

  /** What a buffer holds as a C string. */
  function CText(buffer: seq<char>): (s: string)
    ensures s <= buffer && '\0' !in s
    ensures |s| < |buffer| ==> buffer[|s|] == '\0'
  {
    if buffer == [] || buffer[0] == '\0' then [] else [buffer[0]] + CText(buffer[1..])
  }

  lemma {:induction false} CTextIs(s: string, buffer: seq<char>)
    requires '\0' !in s && s <= buffer
    requires |s| < |buffer| ==> buffer[|s|] == '\0'
    ensures CText(buffer) == s
  {
    if s == [] {
    } else {
      assert s[0] in s;
      assert s[1..] <= buffer[1..];
      CTextIs(s[1..], buffer[1..]);
    }
  }

  lemma CTextAt(buffer: seq<char>, n: nat)
    requires n <= |CText(buffer)| < |buffer|
    ensures buffer[n] == '\0' <==> n == |CText(buffer)|
  {
    hide CText;
    assert n < |CText(buffer)| ==> CText(buffer)[n] in CText(buffer);
  }

  function Fill(c: char, n: nat): (s: string)
    ensures |s| == n && forall i :: 0 <= i < n ==> s[i] == c
  {
    seq(n, _ => c)
  }
}
