/** Decimal numbers as text: how a number is spelled, and which texts parse to it. */
module Decimals {
  import opened Outcomes
  import opened Strings

  function Zeros(n: nat): string {
    seq(n, _ => '0')
  }

  /** A number in decimal, without padding. */
  function Decimal(n: nat): (s: string)
    ensures s != "" && AllDigits(s)
  {
    (if n < 10 then "" else Decimal(n / 10)) + ['0' + (n % 10) as char]
  }

  // A spelling of a number: zeros in front of its decimal digits.
  ghost predicate Padding(s: string, n: nat) {
    exists k: nat :: s == Zeros(k) + Decimal(n)
  }

  /** A spelling of a natural number: perhaps a plus sign, zeros, then its decimal digits. */
  ghost predicate Spells(s: string, n: nat) {
    Padding(s, n) || (s != "" && s[0] == '+' && Padding(s[1..], n))
  }

  lemma {:induction false} ZerosAreZero(n: nat)
    ensures AllDigits(Zeros(n)) && Digits(Zeros(n)) == 0
  {
    if n > 0 {
      assert Zeros(n)[..n - 1] == Zeros(n - 1);
      ZerosAreZero(n - 1);
    }
  }

  lemma {:induction false} PaddedIsRead(k: nat, n: nat)
    ensures AllDigits(Zeros(k) + Decimal(n)) && Digits(Zeros(k) + Decimal(n)) == n
  {
    var s := Zeros(k) + Decimal(n);
    if n < 10 {
      ZerosAreZero(k);
      assert s[..|s| - 1] == Zeros(k);
    } else {
      PaddedIsRead(k, n / 10);
      DigitAtEnd(Zeros(k) + Decimal(n / 10), n % 10);
      hide AllDigits, Digits, Zeros;
      assert s == (Zeros(k) + Decimal(n / 10)) + ['0' + (n % 10) as char];
    }
  }

  lemma {:induction false} DigitAtEnd(s: string, n: nat)
    requires n < 10 && AllDigits(s)
    ensures AllDigits(s + ['0' + n as char]) && Digits(s + ['0' + n as char]) == 10 * Digits(s) + n
  {
    var t := s + ['0' + n as char];
    assert t[..|t| - 1] == s;
  }

  lemma ZeroIsPadding(k: nat)
    ensures Zeros(k) + Decimal(0) == Zeros(k + 1)
  {
  }

  // One digit more: the decimal of the number with that digit appended.
  lemma OneDigitMore(m: nat, c: char)
    requires IsDigit(c)
    ensures Decimal(10 * m + (c - '0') as nat) == (if m == 0 then "" else Decimal(m)) + [c]
  {
    var n := 10 * m + (c - '0') as nat;
    assert n / 10 == m && n % 10 == (c - '0') as nat;
    assert '0' + (n % 10) as char == c;
  }

  lemma {:induction false} DigitsArePadded(s: string) returns (k: nat)
    requires s != "" && AllDigits(s)
    ensures s == Zeros(k) + Decimal(Digits(s))
  {
    var init, c := s[..|s| - 1], s[|s| - 1];
    assert s == init + [c];
    if init == "" {
      OneDigitMore(0, c);
      k := 0;
    } else {
      k := DigitsArePadded(init);
      OneDigitMore(Digits(init), c);
      hide Decimal;
      if Digits(init) == 0 {
        ZeroIsPadding(k);
        k := k + 1;
      }
    }
  }

  /** Digits stand for a number exactly when they spell it. */
  lemma {:induction false} DigitsSpell(s: string, n: nat)
    ensures s != "" && AllDigits(s) && Digits(s) == n <==> Padding(s, n)
  {
    if Padding(s, n) {
      var k: nat :| s == Zeros(k) + Decimal(n);
      PaddedIsRead(k, n);
    }
    if s != "" && AllDigits(s) {
      var k := DigitsArePadded(s);
    }
  }

  /** The integer parser reads a number off exactly its spellings. */
  lemma ParsesSpellings(s: string, n: nat)
    ensures ParseUnsigned(s) == Some(n) <==> Spells(s, n)
  {
    DigitsSpell(s, n);
    if s != "" && s[0] == '+' {
      DigitsSpell(s[1..], n);
    }
  }

  /** A number is a spelling of itself. */
  lemma {:induction false} DecimalSpells(n: nat)
    ensures Padding(Decimal(n), n) && Spells(Decimal(n), n)
  {
    assert Decimal(n) == Zeros(0) + Decimal(n);
  }
}
