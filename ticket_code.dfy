/**
 * The ticket codes minted by the administration page (`generateQRCode`):
 * "TICKET-", the millisecond clock in decimal, a hyphen, and up to seven
 * upper-cased base-36 digits taken from `Math.random().toString(36)`.
 * The clock reading and the random string are parameters.
 */
module TicketCode {
  import opened Wrappers

  const Tag: string := "TICKET-"

  predicate IsDigit(c: char) { '0' <= c <= '9' }

  predicate IsLowerBase36(c: char) { IsDigit(c) || 'a' <= c <= 'z' }

  predicate IsUpperBase36(c: char) { IsDigit(c) || 'A' <= c <= 'Z' }

  predicate AllDigits(s: string) { forall i :: 0 <= i < |s| ==> IsDigit(s[i]) }

  predicate AllUpperBase36(s: string) { forall i :: 0 <= i < |s| ==> IsUpperBase36(s[i]) }

  function DigitChar(d: nat): (c: char)
    requires d < 10
    ensures IsDigit(c) && c as int - '0' as int == d
  {
    ('0' as int + d) as char
  }

  function Pow10(k: nat): nat
  {
    if k == 0 then 1 else 10 * Pow10(k - 1)
  }

  /**
   * `Number.prototype.toString()` of a non-negative integer in the safe range
   * (no exponent notation): its decimal digits, without leading zeros.
   */
  function Decimal(n: nat): (r: string)
    ensures |r| >= 1 && AllDigits(r)
    ensures |r| > 1 ==> r[0] != '0'
  {
    if n < 10 then [DigitChar(n)] else Decimal(n / 10) + [DigitChar(n % 10)]
  }

  /** The value of a string of decimal digits. */
  function DecimalValue(s: string): nat
    requires AllDigits(s)
  {
    if s == [] then 0 else 10 * DecimalValue(s[..|s| - 1]) + (s[|s| - 1] as int - '0' as int)
  }

  /** Reading back the decimal digits of `n` gives `n`. */
  lemma {:induction false} DecimalRoundTrip(n: nat)
    ensures DecimalValue(Decimal(n)) == n
  {
    if n >= 10 {
      var d := Decimal(n);
      assert d[..|d| - 1] == Decimal(n / 10);
      DecimalRoundTrip(n / 10);
    }
  }

  /** A number below 10^k has at most k decimal digits (k >= 1). */
  lemma {:induction false} DecimalLength(n: nat, k: nat)
    requires 1 <= k && n < Pow10(k)
    ensures |Decimal(n)| <= k
  {
    if n >= 10 {
      DecimalLength(n / 10, k - 1);
    }
  }

  /**
   * `String.prototype.substring(start, end)`: both arguments clamped to
   * [0, |s|], swapped when the first exceeds the second.
   */
  function Substring(s: string, start: int, end: int): (r: string)
    ensures 0 <= start <= end ==> |r| <= end - start
    ensures 0 <= start <= end <= |s| ==> r == s[start..end]
    ensures 0 <= start <= end ==> r == s[Min(start, |s|)..Min(end, |s|)]
    ensures exists i :: 0 <= i <= |s| - |r| && r == s[i..][..|r|]
  {
    var a := if start < 0 then 0 else if start > |s| then |s| else start;
    var b := if end < 0 then 0 else if end > |s| then |s| else end;
    var from := if a <= b then a else b;
    var to := if a <= b then b else a;
    assert s[from..to] == s[from..][..to - from];
    s[from..to]
  }

  function Min(x: int, y: int): (m: int)
    ensures m <= x && m <= y && (m == x || m == y)
  {
    if x <= y then x else y
  }

  /**
   * The remaining cases of `substring`: the arguments may be given in
   * either order, and a negative argument acts as zero.
   */
  lemma SubstringClamps(s: string, start: int, end: int)
    ensures Substring(s, start, end) == Substring(s, end, start)
    ensures start < 0 ==> Substring(s, start, end) == Substring(s, 0, end)
    ensures end < 0 ==> Substring(s, start, end) == Substring(s, start, 0)
  {
  }

  /** `String.prototype.toUpperCase()` restricted to ASCII letters. */
  function UpperChar(c: char): (u: char)
    ensures 'a' <= c <= 'z' ==> 'A' <= u <= 'Z' && u as int - 'A' as int == c as int - 'a' as int
    ensures !('a' <= c <= 'z') ==> u == c
  {
    if 'a' <= c <= 'z' then (c as int - 'a' as int + 'A' as int) as char else c
  }

  function Upper(s: string): (u: string)
    ensures |u| == |s| && forall i :: 0 <= i < |s| ==> u[i] == UpperChar(s[i])
  {
    if s == [] then [] else [UpperChar(s[0])] + Upper(s[1..])
  }

  /**
   * The strings `Math.random().toString(36)` produces: "0", or "0." followed
   * by lower-case base-36 digits.
   */
  predicate IsRandomBase36(r: string)
  {
    r == "0" || (|r| >= 3 && r[0] == '0' && r[1] == '.' && forall i :: 2 <= i < |r| ==> IsLowerBase36(r[i]))
  }

  /** `Math.random().toString(36).substring(2, 9).toUpperCase()`. */
  function Suffix(random36: string): (x: string)
    requires IsRandomBase36(random36)
    ensures |x| <= 7 && AllUpperBase36(x)
    ensures |random36| >= 9 ==> |x| == 7
    ensures |x| == if |random36| <= 2 then 0 else (if |random36| < 9 then |random36| else 9) - 2
    ensures forall i :: 0 <= i < |x| ==> 2 + i < |random36| && x[i] == UpperChar(random36[2 + i])
  {
    var raw := Substring(random36, 2, 9);
    var hi := if |random36| < 9 then |random36| else 9;
    assert random36 == "0" ==> raw == [];
    assert random36 != "0" ==> raw == random36[2..hi];
    Upper(raw)
  }

  /** `generateQRCode()` given the clock reading and the random string. */
  function GenerateQRCode(nowMillis: nat, random36: string): (code: string)
    requires IsRandomBase36(random36)
    ensures |code| > |Tag| && code[..|Tag|] == Tag
  {
    Tag + Decimal(nowMillis) + "-" + Suffix(random36)
  }

  /** Number of leading decimal digits of `s`. */
  function DigitPrefixLength(s: string): (n: nat)
    ensures n <= |s| && AllDigits(s[..n]) && (n < |s| ==> !IsDigit(s[n]))
  {
    if s != [] && IsDigit(s[0]) then
      var n := 1 + DigitPrefixLength(s[1..]);
      assert s[..n] == [s[0]] + s[1..][..n - 1];
      n
    else 0
  }

  lemma {:induction false} DigitPrefixOf(d: string, rest: string)
    requires AllDigits(d)
    requires rest == [] || !IsDigit(rest[0])
    ensures DigitPrefixLength(d + rest) == |d|
  {
    if d != [] {
      assert (d + rest)[1..] == d[1..] + rest;
      DigitPrefixOf(d[1..], rest);
    }
  }

  /** Reads "<digits>-<suffix>" into the digits' value and the suffix. */
  function ParseStamp(rest: string): (p: Option<(nat, string)>)
    ensures p.Some? ==> AllUpperBase36(p.value.1)
  {
    var n := DigitPrefixLength(rest);
    if n == 0 || n == |rest| || rest[n] != '-' || !AllUpperBase36(rest[n + 1..]) then None
    else Some((DecimalValue(rest[..n]), rest[n + 1..]))
  }

  /**
   * Reads a code of the generated shape back into its clock reading and its
   * suffix; any other string gives None.
   */
  function ParseQRCode(code: string): (p: Option<(nat, string)>)
    ensures p.Some? ==> |code| > |Tag| && code[..|Tag|] == Tag && AllUpperBase36(p.value.1)
  {
    if |code| <= |Tag| || code[..|Tag|] != Tag then None
    else ParseStamp(code[|Tag|..])
  }

  /** A string has the generated shape. */
  predicate IsTicketCode(code: string)
  {
    ParseQRCode(code).Some?
  }

  /** A string of the generated shape parses into its digits' value and its suffix. */
  lemma ParseStampShape(time: string, sfx: string)
    requires |time| >= 1 && AllDigits(time) && AllUpperBase36(sfx)
    ensures ParseStamp(time + "-" + sfx) == Some((DecimalValue(time), sfx))
  {
    var rest := time + "-" + sfx;
    DigitPrefixOf(time, "-" + sfx);
    assert rest == time + ("-" + sfx);
    assert rest[|time|] == '-';
    assert rest[..|time|] == time;
    assert rest[|time| + 1..] == sfx;
  }

  /** The two halves of a concatenation can be sliced back out of it. */
  lemma SplitConcat(a: string, b: string)
    ensures (a + b)[..|a|] == a && (a + b)[|a|..] == b
  {
  }

  lemma ParseShape(time: string, sfx: string)
    requires |time| >= 1 && AllDigits(time) && AllUpperBase36(sfx)
    ensures ParseQRCode(Tag + time + "-" + sfx) == Some((DecimalValue(time), sfx))
  {
    var stamp := time + "-" + sfx;
    assert Tag + time + "-" + sfx == Tag + stamp;
    SplitConcat(Tag, stamp);
    ParseStampShape(time, sfx);
  }

  /** Parsing a generated code recovers the clock reading and the suffix. */
  lemma ParseGenerated(nowMillis: nat, random36: string)
    requires IsRandomBase36(random36)
    ensures ParseQRCode(GenerateQRCode(nowMillis, random36)) == Some((nowMillis, Suffix(random36)))
    ensures IsTicketCode(GenerateQRCode(nowMillis, random36))
  {
    ParseShape(Decimal(nowMillis), Suffix(random36));
    DecimalRoundTrip(nowMillis);
  }

  /** Codes generated from different clock readings or different suffixes differ. */
  lemma GenerateInjective(t1: nat, r1: string, t2: nat, r2: string)
    requires IsRandomBase36(r1) && IsRandomBase36(r2)
    requires GenerateQRCode(t1, r1) == GenerateQRCode(t2, r2)
    ensures t1 == t2 && Suffix(r1) == Suffix(r2)
  {
    ParseGenerated(t1, r1);
    ParseGenerated(t2, r2);
  }

  /** A clock reading below 2^53 milliseconds has at most 16 decimal digits. */
  lemma MillisDigits(nowMillis: nat)
    requires nowMillis < 0x20_0000_0000_0000
    ensures |Decimal(nowMillis)| <= 16
  {
    assert Pow10(1) == 10;
    assert Pow10(2) == 100;
    assert Pow10(3) == 1000;
    assert Pow10(4) == 10000;
    assert Pow10(5) == 100000;
    assert Pow10(6) == 1000000;
    assert Pow10(7) == 10000000;
    assert Pow10(8) == 100000000;
    assert Pow10(9) == 1000000000;
    assert Pow10(10) == 10000000000;
    assert Pow10(11) == 100000000000;
    assert Pow10(12) == 1000000000000;
    assert Pow10(13) == 10000000000000;
    assert Pow10(14) == 100000000000000;
    assert Pow10(15) == 1000000000000000;
    assert Pow10(16) == 10000000000000000;
    DecimalLength(nowMillis, 16);
  }

  /** Every character of a generated code is an upper-case letter, a digit or a hyphen. */
  lemma GeneratedCodeCharacters(nowMillis: nat, random36: string)
    requires IsRandomBase36(random36)
    ensures forall i :: 0 <= i < |GenerateQRCode(nowMillis, random36)| ==>
      var c := GenerateQRCode(nowMillis, random36)[i]; IsUpperBase36(c) || c == '-'
  {
    var time := Decimal(nowMillis);
    var code := GenerateQRCode(nowMillis, random36);
    forall i | 0 <= i < |code| ensures IsUpperBase36(code[i]) || code[i] == '-' {
      if i < |Tag| {
        assert code[i] == Tag[i];
      } else if i < |Tag| + |time| {
        assert code[i] == time[i - |Tag|];
      } else if i > |Tag| + |time| {
        assert code[i] == Suffix(random36)[i - |Tag| - |time| - 1];
      }
    }
  }

  /**
   * While the clock is below 2^53 milliseconds, a generated code has at most
   * 31 characters, all of them letters, digits or hyphens.
   */
  lemma GeneratedCodeIsShort(nowMillis: nat, random36: string)
    requires IsRandomBase36(random36)
    requires nowMillis < 0x20_0000_0000_0000
    ensures |GenerateQRCode(nowMillis, random36)| <= 31
    ensures forall i :: 0 <= i < |GenerateQRCode(nowMillis, random36)| ==>
      var c := GenerateQRCode(nowMillis, random36)[i]; IsUpperBase36(c) || c == '-'
  {
    MillisDigits(nowMillis);
    GeneratedCodeCharacters(nowMillis, random36);
  }
}
