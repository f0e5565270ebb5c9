/** Numerals as they are written, digit by digit, and that the readers of numbers read them back. */
module Numerals {
  import opened Bytes

  const DIGITS: bytes := "0123456789abcdef"

  /** A number written in the given base, without leading zeros. */
  function Numeral(n: nat, base: nat): (r: bytes)
    requires base == 10 || base == 16
    ensures r != []
  {
    if n < base then [DIGITS[n]] else Numeral(n / base, base) + [DIGITS[n % base]]
  }

  function Zeros(k: nat): (r: bytes)
    ensures |r| == k
  {
    seq(k, i => '0')
  }

  /** Leading zeros and either case allowed. */
  predicate Spells(s: bytes, zeros: nat, n: nat, base: nat)
    requires base == 10 || base == 16
  {
    Lower(s) == Zeros(zeros) + Numeral(n, base)
  }

  /** A digit more at the end of a numeral. */
  lemma NumeralGrows(n: nat, d: nat, base: nat)
    requires n > 0 && d < base && (base == 10 || base == 16)
    ensures Numeral(base * n + d, base) == Numeral(n, base) + [DIGITS[d]]
  {
    if base == 10 {
      LastDigit(10 * n + d, n, d, 10);
    } else {
      LastDigit(16 * n + d, n, d, 16);
    }
  }

  lemma LastDigit(m: nat, n: nat, d: nat, base: nat)
    requires base == 10 || base == 16
    requires m >= base && m / base == n && m % base == d
    ensures Numeral(m, base) == Numeral(n, base) + [DIGITS[d]]
  {
  }

  /** A zero after zeros is one zero more. */
  lemma ZerosGrow(k: nat)
    ensures Zeros(k) + ['0'] == Zeros(k + 1) && DIGITS[0] == '0'
  {
  }

  // ---------------------------------------------------------------- digits

  lemma DigitReadsBack(n: nat)
    requires n < 16
    ensures IsHexDigit(DIGITS[n]) && HexValue(DIGITS[n]) == n && LowerByte(DIGITS[n]) == DIGITS[n]
    ensures n < 10 ==> IsDigit(DIGITS[n])
  {
    assert n in {0, 1, 2, 3, 4, 5, 6, 7, 8, 9, 10, 11, 12, 13, 14, 15};
  }

  lemma DigitIsOneOfThem(c: byte)
    requires IsHexDigit(c)
    ensures HexValue(c) < 16 && LowerByte(c) == DIGITS[HexValue(c)]
    ensures IsDigit(c) ==> HexValue(c) < 10 && c == DIGITS[HexValue(c)]
  {
    assert HexValue(c) in {0, 1, 2, 3, 4, 5, 6, 7, 8, 9, 10, 11, 12, 13, 14, 15};
  }

  /** A digit more after zeros and a numeral. */
  lemma OneMoreDigit(most: bytes, zeros: nat, n: nat, d: nat, base: nat) returns (k: nat)
    requires base == 10 || base == 16
    requires most == Zeros(zeros) + Numeral(n, base) && d < base
    ensures most + [DIGITS[d]] == Zeros(k) + Numeral(base * n + d, base)
  {
    if n == 0 {
      ZerosGrow(zeros);
      k := zeros + 1;
    } else {
      k := zeros;
      NumeralGrows(n, d, base);
    }
  }

  // ---------------------------------------------------------------- hexadecimal

  lemma {:induction false} NumeralIsHexadecimal(n: nat)
    ensures AllHexDigits(Numeral(n, 16)) && HexadecimalValue(Numeral(n, 16)) == n
  {
    if n < 16 {
      DigitReadsBack(n);
      assert Numeral(n, 16)[..0] == [];
    } else {
      NumeralIsHexadecimal(n / 16);
      DigitReadsBack(n % 16);
      assert Numeral(n, 16)[..|Numeral(n, 16)| - 1] == Numeral(n / 16, 16);
    }
  }

  lemma {:induction false} LowerHexadecimal(s: bytes)
    requires forall c :: c in s ==> IsHexDigit(c)
    ensures forall c :: c in Lower(s) ==> IsHexDigit(c)
    ensures HexadecimalValue(Lower(s)) == HexadecimalValue(s)
  {
    if s != [] {
      var most, last := s[..|s| - 1], s[|s| - 1];
      assert last in s;
      LowerHexadecimal(most);
      assert Lower(s) == Lower(most) + [LowerByte(last)];
      assert Lower(s)[..|s| - 1] == Lower(most);
    }
  }

  lemma {:induction false} LeadingZerosHexadecimal(k: nat, s: bytes)
    requires forall c :: c in s ==> IsHexDigit(c)
    ensures forall c :: c in Zeros(k) + s ==> IsHexDigit(c)
    ensures HexadecimalValue(Zeros(k) + s) == HexadecimalValue(s)
    decreases |s|, k
  {
    var all := Zeros(k) + s;
    if s != [] {
      LeadingZerosHexadecimal(k, s[..|s| - 1]);
      assert all[..|all| - 1] == Zeros(k) + s[..|s| - 1];
    } else if k > 0 {
      LeadingZerosHexadecimal(k - 1, []);
      assert all[..|all| - 1] == Zeros(k - 1) + [];
    }
  }

  /** Every string of digits is the numeral of its value, after some zeros. */
  lemma {:induction false} HexadecimalSpells(s: bytes) returns (zeros: nat)
    requires AllHexDigits(s)
    ensures Spells(s, zeros, HexadecimalValue(s), 16)
  {
    var most, last := s[..|s| - 1], s[|s| - 1];
    assert last in s && s == most + [last];
    DigitIsOneOfThem(last);
    LowerSnoc(most, last);
    if most == [] {
      zeros := 0;
      OneHexDigit(s);
    } else {
      var n := HexadecimalValue(most);
      var k := HexadecimalSpells(most);
      zeros := OneMoreDigit(Lower(most), k, n, HexValue(last), 16);
    }
  }

  lemma OneHexDigit(s: bytes)
    requires |s| == 1 && IsHexDigit(s[0])
    ensures HexadecimalValue(s) == HexValue(s[0])
  {
    assert s[..0] == [];
  }

  lemma LowerSnoc(most: bytes, last: byte)
    ensures Lower(most + [last]) == Lower(most) + [LowerByte(last)]
  {
  }

  /** Exactly what `int(s, 16)` reads on digits: the number they spell. */
  lemma HexadecimalIs(s: bytes, n: nat)
    requires AllHexDigits(s)
    ensures HexadecimalValue(s) == n <==> exists zeros :: Spells(s, zeros, n, 16)
  {
    var k := HexadecimalSpells(s);
    if zeros :| Spells(s, zeros, n, 16) {
      LowerHexadecimal(s);
      NumeralIsHexadecimal(n);
      LeadingZerosHexadecimal(zeros, Numeral(n, 16));
    }
  }

  // ---------------------------------------------------------------- decimal

  lemma {:induction false} NumeralIsDecimal(n: nat)
    ensures AllDigits(Numeral(n, 10)) && DecimalValue(Numeral(n, 10)) == n
  {
    if n < 10 {
      DigitReadsBack(n);
      assert Numeral(n, 10)[..0] == [];
    } else {
      NumeralIsDecimal(n / 10);
      DigitReadsBack(n % 10);
      assert Numeral(n, 10)[..|Numeral(n, 10)| - 1] == Numeral(n / 10, 10);
    }
  }

  lemma {:induction false} LeadingZerosDecimal(k: nat, s: bytes)
    requires forall c :: c in s ==> IsDigit(c)
    ensures forall c :: c in Zeros(k) + s ==> IsDigit(c)
    ensures DecimalValue(Zeros(k) + s) == DecimalValue(s)
    decreases |s|, k
  {
    var all := Zeros(k) + s;
    if s != [] {
      LeadingZerosDecimal(k, s[..|s| - 1]);
      assert all[..|all| - 1] == Zeros(k) + s[..|s| - 1];
    } else if k > 0 {
      LeadingZerosDecimal(k - 1, []);
      assert all[..|all| - 1] == Zeros(k - 1) + [];
    }
  }

  lemma {:induction false} DecimalSpells(s: bytes) returns (zeros: nat)
    requires AllDigits(s)
    ensures s == Zeros(zeros) + Numeral(DecimalValue(s), 10)
  {
    var most, last := s[..|s| - 1], s[|s| - 1];
    assert last in s && s == most + [last];
    DigitIsOneOfThem(last);
    if most == [] {
      zeros := 0;
      OneDecimalDigit(s);
    } else {
      var n := DecimalValue(most);
      var k := DecimalSpells(most);
      zeros := OneMoreDigit(most, k, n, HexValue(last), 10);
    }
  }

  lemma OneDecimalDigit(s: bytes)
    requires |s| == 1 && IsDigit(s[0])
    ensures DecimalValue(s) == HexValue(s[0])
  {
    assert s[..0] == [];
  }

  /** Exactly what `int(s, 10)` reads on digits: the number they spell. */
  lemma DecimalIs(s: bytes, n: nat)
    requires AllDigits(s)
    ensures DecimalValue(s) == n <==> exists zeros :: s == Zeros(zeros) + Numeral(n, 10)
  {
    var k := DecimalSpells(s);
    if zeros :| s == Zeros(zeros) + Numeral(n, 10) {
      NumeralIsDecimal(n);
      LeadingZerosDecimal(zeros, Numeral(n, 10));
    }
  }
}
