/** The input checks shared by account creation and member registration:
    the Kenyan phone format, the four-digit PIN, the nine-character national
    ID number, the eight-character password and the minimum opening deposit. */
module Validators {
  import opened Common

  /** The smallest opening deposit an account may be created with. */
  const MinDeposit: real := 100.0

  predicate IsAsciiDigit(c: char) {
    '0' <= c <= '9'
  }

  predicate AllDigits(s: string) {
    forall i :: 0 <= i < |s| ==> IsAsciiDigit(s[i])
  }

  /** The country prefix every accepted phone number starts with. */
  const KenyaPrefix: string := "+254"

  /** `validate_kenyan_phone_number`: the whole string is "+254" followed by
      exactly nine digits. */
  predicate IsKenyanPhone(s: string) {
    |s| == 13 && s[..4] == KenyaPrefix && AllDigits(s[4..])
  }

  /** Building a phone from nine digits gives an accepted phone, and nothing
      else after the prefix does. */
  lemma PhoneFromDigits(d: string)
    ensures IsKenyanPhone(KenyaPrefix + d) <==> |d| == 9 && AllDigits(d)
  {
    var s := KenyaPrefix + d;
    assert s[..4] == KenyaPrefix;
    assert s[4..] == d;
  }

  /** The international form is accepted; the local form, spaces, a digit
      too few or too many, and a letter among the digits are not. */
  lemma PhoneExamples()
    ensures IsKenyanPhone("+254712345678")
    ensures !IsKenyanPhone("0712345678")
    ensures !IsKenyanPhone("+254 712345678")
    ensures !IsKenyanPhone("+25471234567")
    ensures !IsKenyanPhone("+2547123456789")
    ensures !IsKenyanPhone("+25471234567a")
  {
    PhoneFromDigits("712345678");
    PhoneFromDigits(" 712345678");
    PhoneFromDigits("71234567");
    PhoneFromDigits("7123456789");
    PhoneFromDigits("71234567a");
    assert !IsAsciiDigit(" 712345678"[0]);
    assert !IsAsciiDigit("71234567a"[8]);
  }

  /** The PIN rule of account creation: exactly four digit characters. */
  predicate IsPin(pin: string) {
    |pin| == 4 && AllDigits(pin)
  }

  /** The password rule of registration: a string of exactly eight characters
      (a missing or non-string password is `None`). */
  predicate IsPassword(password: Option<string>) {
    password.Some? && |password.value| == 8
  }

  /** Four digits make a PIN; three, five, or a letter among four do not. */
  lemma PinExamples()
    ensures IsPin("0000") && IsPin("1234")
    ensures !IsPin("123") && !IsPin("12345") && !IsPin("12a4")
  {
    assert !IsAsciiDigit("12a4"[2]);
  }

  /** Exactly eight characters of any kind make a password. */
  lemma PasswordExamples()
    ensures IsPassword(Some("abc 123!")) && IsPassword(Some("12345678"))
    ensures !IsPassword(Some("1234567")) && !IsPassword(Some("123456789")) && !IsPassword(None)
  {
  }

  // ---- decimal rendering of integers, as Python's str() does it ----

  function DigitChar(d: nat): (c: char)
    requires d < 10
    ensures IsAsciiDigit(c) && DigitValue(c) == d
  {
    ('0' as int + d) as char
  }

  function DigitValue(c: char): int {
    c as int - '0' as int
  }

  /** The number a string of digits denotes. */
  function DigitsValue(s: string): (n: nat)
    requires AllDigits(s)
    decreases |s|
  {
    if s == [] then 0 else DigitsValue(s[..|s| - 1]) * 10 + DigitValue(s[|s| - 1])
  }

  /** `int()` of what `str()` renders: an optional minus sign, then digits. */
  function ParseInt(s: string): (n: int)
    requires |s| >= 1 && (if s[0] == '-' then AllDigits(s[1..]) else AllDigits(s))
  {
    if s[0] == '-' then -(DigitsValue(s[1..]) as int) else DigitsValue(s)
  }

  /** The decimal digits of a natural number, without leading zeros. */
  function NatDigits(n: nat): (s: string)
    ensures |s| >= 1 && AllDigits(s)
    decreases n
  {
    if n < 10 then [DigitChar(n)] else NatDigits(n / 10) + [DigitChar(n % 10)]
  }

  /** `str(n)` for an integer: a minus sign before the digits of a negative number. */
  function IntToString(n: int): (s: string)
    ensures |s| >= 1
    ensures n < 0 <==> s[0] == '-'
    ensures n < 0 ==> AllDigits(s[1..]) && |s| >= 2
    ensures n >= 0 ==> AllDigits(s)
  {
    if n < 0 then "-" + NatDigits(-n) else NatDigits(n)
  }

  /** Reading back the digits of a natural number gives the number. */
  lemma {:induction false} NatDigitsValue(n: nat)
    ensures DigitsValue(NatDigits(n)) == n
    decreases n
  {
    if n >= 10 {
      NatDigitsValue(n / 10);
      var s := NatDigits(n);
      assert s[..|s| - 1] == NatDigits(n / 10);
    }
  }

  /** Parsing the rendering of any integer gives the integer back, so the
      rendering loses nothing and distinct numbers render differently. */
  lemma IntToStringRoundTrip(n: int)
    ensures ParseInt(IntToString(n)) == n
  {
    if n < 0 {
      NatDigitsValue(-n);
      assert IntToString(n)[1..] == NatDigits(-n);
    } else {
      NatDigitsValue(n);
    }
  }

  function Pow10(k: nat): (p: nat)
    ensures p >= 1
  {
    if k == 0 then 1 else 10 * Pow10(k - 1)
  }

  /** A natural number has k decimal digits exactly when it lies in
      [10^(k-1), 10^k), and a one-digit number is any number below 10. */
  lemma {:induction false} NatDigitsLength(n: nat, k: nat)
    requires k >= 1
    ensures |NatDigits(n)| == k <==> (if k == 1 then n < 10 else Pow10(k - 1) <= n < Pow10(k))
    decreases n
  {
    if n >= 10 {
      if k >= 2 {
        NatDigitsLength(n / 10, k - 1);
        assert Pow10(k - 1) == 10 * Pow10(k - 2);
        assert Pow10(k) == 10 * Pow10(k - 1);
      }
    }
  }

  /** The ID rule: the value is an int (`None` when it is not) whose decimal
      string has nine characters. */
  predicate IsIdNumber(idNumber: Option<int>) {
    idNumber.Some? && |IntToString(idNumber.value)| == 9
  }

  /** The ID rule in numbers: a nine-digit non-negative number, or a negative
      number with eight digits (the minus sign is the ninth character). */
  lemma IdNumberRange(n: int)
    ensures IsIdNumber(Some(n)) <==> (100000000 <= n <= 999999999 || -99999999 <= n <= -10000000)
  {
    assert Pow10(7) == 10000000;
    assert Pow10(8) == 100000000;
    assert Pow10(9) == 1000000000;
    if n < 0 {
      NatDigitsLength(-n, 8);
    } else {
      NatDigitsLength(n, 9);
    }
  }
}
