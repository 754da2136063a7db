/** Numerals as `str(n)` and `f"{n:x}"` print them, and the reading of digits. */
module Text {

  const DIGITS := "0123456789abcdef"

  /** The value of a digit character; 16 stands for no digit. */
  function DigitValue(c: char): (v: nat)
    ensures v <= 16
  {
    if '0' <= c <= '9' then c as int - '0' as int
    else if 'a' <= c <= 'f' then c as int - 'a' as int + 10
    else 16
  }

  predicate AreDigits(s: string, base: nat) {
    s != "" && forall i :: 0 <= i < |s| ==> DigitValue(s[i]) < base
  }

  /** `str.isdigit` on ASCII text. */
  predicate IsDigit(s: string) {
    AreDigits(s, 10)
  }

  function Numeral(n: nat, base: nat): (s: string)
    requires 2 <= base <= 16
  {
    if n < base then [DIGITS[n]] else Numeral(n / base, base) + [DIGITS[n % base]]
  }

  function Value(s: string, base: nat): nat {
    if s == "" then 0 else base * Value(s[..|s| - 1], base) + DigitValue(s[|s| - 1])
  }

  lemma DigitRoundTrip(d: nat)
    requires d < 16
    ensures DigitValue(DIGITS[d]) == d
  {
  }

  /** Reading a printed number gives the number back. */
  lemma {:induction false} NumeralRoundTrip(n: nat, base: nat)
    requires 2 <= base <= 16
    ensures AreDigits(Numeral(n, base), base) && Value(Numeral(n, base), base) == n
  {
    hide Value, DigitValue, AreDigits;
    if n < base {
      OneDigit(n, base);
    } else {
      NumeralRoundTrip(n / base, base);
      MoreDigits(Numeral(n / base, base), n % base, base);
      DivMod(n, base);
    }
  }

  lemma DivMod(n: nat, base: nat)
    requires base >= 2
    ensures base * (n / base) + n % base == n
  {
  }

  lemma OneDigit(d: nat, base: nat)
    requires 2 <= base <= 16 && d < base
    ensures AreDigits([DIGITS[d]], base) && Value([DIGITS[d]], base) == d
  {
    DigitRoundTrip(d);
    assert Value([DIGITS[d]][..0], base) == 0;
  }

  lemma MoreDigits(front: string, d: nat, base: nat)
    requires 2 <= base <= 16 && d < base && AreDigits(front, base)
    ensures AreDigits(front + [DIGITS[d]], base)
    ensures Value(front + [DIGITS[d]], base) == base * Value(front, base) + d
  {
    DigitRoundTrip(d);
    assert (front + [DIGITS[d]])[..|front|] == front;
  }

  lemma NumeralInjective(m: nat, n: nat, base: nat)
    requires 2 <= base <= 16 && Numeral(m, base) == Numeral(n, base)
    ensures m == n
  {
    NumeralRoundTrip(m, base);
    NumeralRoundTrip(n, base);
  }

  function Dec(n: nat): string {
    Numeral(n, 10)
  }

  lemma DecInjective(m: nat, n: nat)
    requires Dec(m) == Dec(n)
    ensures m == n
  {
    NumeralInjective(m, n, 10);
  }

  function Hex(n: nat): string {
    Numeral(n, 16)
  }

  lemma ZeroDigit(d: nat)
    requires d < 16
    ensures DIGITS[d] == '0' <==> d == 0
  {
  }

  lemma SmallerQuotient(n: nat, base: nat)
    requires 2 <= base <= n
    ensures 1 <= n / base < n
  {
  }

  lemma MoreDigitsStep(n: nat, base: nat)
    requires 2 <= base <= 16 && base <= n
    ensures Numeral(n, base) == Numeral(n / base, base) + [DIGITS[n % base]]
  {
  }

  lemma FewDigitsStep(n: nat, base: nat)
    requires 2 <= base <= 16 && n < base
    ensures Numeral(n, base) == [DIGITS[n]]
  {
  }

  /** A printed number has no zero in front, unless it is zero. */
  lemma {:induction false} NoZeroInFront(n: nat, base: nat)
    requires 2 <= base <= 16
    ensures Numeral(n, base) != "" && (Numeral(n, base)[0] == '0' <==> n == 0) && (n == 0 ==> |Numeral(n, base)| == 1)
  {
    hide Numeral;
    if n >= base {
      SmallerQuotient(n, base);
      NoZeroInFront(n / base, base);
      MoreDigitsStep(n, base);
    } else {
      FewDigitsStep(n, base);
      ZeroDigit(n);
    }
  }

  /** The text is the number in a base, without zeros in front. */
  predicate Writes(s: string, n: nat, base: nat) {
    AreDigits(s, base) && Value(s, base) == n && (s[0] == '0' ==> |s| == 1)
  }

  lemma NumeralWrites(n: nat, base: nat)
    requires 2 <= base <= 16
    ensures Writes(Numeral(n, base), n, base)
  {
    NumeralRoundTrip(n, base);
    NoZeroInFront(n, base);
  }

  /** `f"{n:02x}"`. */
  function Hex2(n: nat): string {
    if n < 16 then "0" + Hex(n) else Hex(n)
  }

  lemma Hex2RoundTrip(n: nat)
    ensures AreDigits(Hex2(n), 16) && Value(Hex2(n), 16) == n
    ensures n < 256 ==> |Hex2(n)| == 2
  {
    NumeralRoundTrip(n, 16);
    if n < 16 {
      assert Hex2(n) == ['0', DIGITS[n]];
      assert Hex2(n)[..1] == "0" && "0"[..0] == "";
      DigitRoundTrip(n);
    } else if n < 256 {
      assert n / 16 < 16;
    }
  }

  /** The two digits of an octet. */
  lemma HexDigitsOf(n: nat)
    requires n < 256
    ensures Hex2(n) == [DIGITS[n / 16], DIGITS[n % 16]]
  {
    if n >= 16 {
      assert n / 16 < 16;
      assert Numeral(n / 16, 16) == [DIGITS[n / 16]];
    }
  }

  lemma DigitIsPlain(s: string, i: nat)
    requires AreDigits(s, 16) && i < |s|
    ensures '0' <= s[i] <= '9' || 'a' <= s[i] <= 'f'
  {
  }

  function LowerChar(c: char): char {
    if 'A' <= c <= 'Z' then (c as int + 32) as char else c
  }

  /** `str.lower` on ASCII text. */
  function Lower(s: string): (r: string)
    ensures |r| == |s| && forall i :: 0 <= i < |s| ==> r[i] == LowerChar(s[i])
  {
    seq(|s|, i requires 0 <= i < |s| => LowerChar(s[i]))
  }

  /** `token in text`. */
  predicate Contains(text: string, token: string) {
    exists i :: 0 <= i <= |text| && token <= text[i..]
  }
}
