/** Decimal formatting of non-negative integers (gamma/src/int_to_string_util.c). */
module IntToString {

  predicate IsDigit(c: char) {
    '0' <= c <= '9'
  }

  predicate AllDigits(s: seq<char>) {
    forall i :: 0 <= i < |s| ==> IsDigit(s[i])
  }

  /** The character of a decimal digit. */
  function DigitChar(d: nat): (c: char)
    requires d < 10
    ensures IsDigit(c)
  {
    ('0' as int + d) as char
  }

  /** The value of a decimal digit character. */
  function DigitValue(c: char): (d: nat)
    requires IsDigit(c)
    ensures d < 10 && DigitChar(d) == c
  {
    c as int - '0' as int
  }

  function Pow10(k: nat): (p: nat)
    ensures p >= 1
  {
    if k == 0 then 1 else 10 * Pow10(k - 1)
  }

  /** Number of division-by-ten steps that bring `n` to zero (0 for `n == 0`). */
  function Steps(n: nat): nat {
    if n == 0 then 0 else 1 + Steps(n / 10)
  }

  /** Number of decimal digits of `n`; zero is written with one digit. */
  function NumDigits(n: nat): nat {
    if n == 0 then 1 else Steps(n)
  }

  /** The decimal representation of `n`, most significant digit first. */
  function Decimal(n: nat): (s: seq<char>)
    ensures |s| >= 1
  {
    if n < 10 then [DigitChar(n)] else Decimal(n / 10) + [DigitChar(n % 10)]
  }

  /** The number a non-empty string of decimal digits denotes (what `strtoul` yields). */
  function ValueOf(s: seq<char>): nat
    requires AllDigits(s)
  {
    if s == [] then 0 else 10 * ValueOf(s[..|s| - 1]) + DigitValue(s[|s| - 1])
  }

  /** `digit_count`: the loop divides by ten until nothing is left. */
  method DigitCount(n: nat) returns (count: nat)
    ensures count == NumDigits(n)
    ensures n > 0 ==> Pow10(count - 1) <= n < Pow10(count)
    ensures n == 0 ==> count == 1
  {
    if n == 0 {
      return 1;
    }
    count := 0;
    var m := n;
    while m != 0
      invariant count + Steps(m) == Steps(n)
      decreases m
    {
      m := m / 10;
      count := count + 1;
    }
    NumDigitsBounds(n);
  }

  /** For a positive `n`, `NumDigits(n)` is the least `k` with `n < 10^k`. */
  lemma {:induction false} NumDigitsBounds(n: nat)
    requires n > 0
    ensures NumDigits(n) >= 1
    ensures Pow10(NumDigits(n) - 1) <= n < Pow10(NumDigits(n))
  {
    if n >= 10 {
      NumDigitsBounds(n / 10);
      assert NumDigits(n) == 1 + NumDigits(n / 10);
    } else {
      assert n / 10 == 0 && Steps(0) == 0;
      assert Pow10(1) == 10;
    }
  }

  /** The least such `k` is unique: any `k` with `10^(k-1) <= n < 10^k` is the digit count. */
  lemma {:induction false} NumDigitsUnique(n: nat, k: nat)
    requires n > 0 && k >= 1
    requires Pow10(k - 1) <= n < Pow10(k)
    ensures k == NumDigits(n)
  {
    if n < 10 {
      assert n / 10 == 0 && Steps(0) == 0;
    } else {
      if k == 1 {
        assert false;
      }
      NumDigitsUnique(n / 10, k - 1);
    }
  }

  lemma {:induction false} Pow10Monotone(i: nat, j: nat)
    requires i <= j
    ensures Pow10(i) <= Pow10(j)
  {
    if i < j {
      Pow10Monotone(i, j - 1);
    }
  }

  /** A number has no more digits than any larger one. */
  lemma NumDigitsMonotone(m: nat, n: nat)
    requires m <= n
    ensures NumDigits(m) <= NumDigits(n)
  {
    if n > 0 {
      NumDigitsBounds(n);
    }
    if m > 0 {
      NumDigitsBounds(m);
      if NumDigits(m) > NumDigits(n) {
        Pow10Monotone(NumDigits(n), NumDigits(m) - 1);
      }
    }
  }

  /** The representation has exactly `digit_count(n)` characters, all of them digits. */
  lemma {:induction false} DecimalShape(n: nat)
    ensures |Decimal(n)| == NumDigits(n)
    ensures AllDigits(Decimal(n))
  {
    if n >= 10 {
      DecimalShape(n / 10);
      assert NumDigits(n) == 1 + NumDigits(n / 10);
    } else {
      assert n / 10 == 0 && Steps(0) == 0;
    }
  }

  /** Reading the written digits back yields the number. */
  lemma {:induction false} DecimalRoundTrip(n: nat)
    ensures AllDigits(Decimal(n))
    ensures ValueOf(Decimal(n)) == n
  {
    DecimalShape(n);
    var s := Decimal(n);
    if n >= 10 {
      DecimalRoundTrip(n / 10);
      assert s[..|s| - 1] == Decimal(n / 10);
    } else {
      assert s[..|s| - 1] == [];
    }
  }

  /** Dropping the last digit of a digit prefix divides its value by ten; the
      remainder is that digit. */
  lemma ValueOfPrefix(d: seq<char>, j: nat)
    requires AllDigits(d) && 0 < j <= |d|
    ensures AllDigits(d[..j]) && AllDigits(d[..j - 1])
    ensures ValueOf(d[..j]) % 10 == DigitValue(d[j - 1])
    ensures ValueOf(d[..j]) / 10 == ValueOf(d[..j - 1])
  {
    assert d[..j][..j - 1] == d[..j - 1];
  }

  /** The last digit of a digit prefix is its value modulo ten, and the prefix one shorter is worth a tenth. */
  lemma DigitStep(d: seq<char>, j: nat, m: nat)
    requires AllDigits(d) && 0 < j <= |d| && m == ValueOf(d[..j])
    ensures DigitChar(m % 10) == d[j - 1] && m / 10 == ValueOf(d[..j - 1])
  {
    ValueOfPrefix(d, j);
  }

  /** `write_int`: writes the digits of `n` into `s[l .. l + digit_count(n))`, filling
      them from the last position backwards, and returns the index after them. */
  method WriteInt(s: array<char>, l: nat, n: nat) returns (r: nat)
    requires l + NumDigits(n) <= s.Length
    modifies s
    ensures r == l + NumDigits(n)
    ensures s[l..r] == Decimal(n)
    ensures forall k :: 0 <= k < s.Length && !(l <= k < r) ==> s[k] == old(s[k])
  {
    var count := DigitCount(n);
    DecimalShape(n);
    DecimalRoundTrip(n);
    WriteDigits(s, l, count, n, Decimal(n));
    r := l + count;
  }

  /** The loop of `write_int`: the digits `d` of `n` go into `s[l .. l + count)`, last digit first. */
  method WriteDigits(s: array<char>, l: nat, count: nat, n: nat, ghost d: seq<char>)
    requires |d| == count && AllDigits(d) && ValueOf(d) == n && l + count <= s.Length
    modifies s
    ensures s[l..l + count] == d
    ensures forall k :: 0 <= k < s.Length && !(l <= k < l + count) ==> s[k] == old(s[k])
  {
    var it := 0;
    var m := n;
    assert d[..count] == d;
    while it < count
      invariant 0 <= it <= count
      invariant m == ValueOf(d[..count - it])
      invariant forall q :: l + count - it <= q < l + count ==> s[q] == d[q - l]
      invariant forall k :: 0 <= k < s.Length && !(l + count - it <= k < l + count) ==> s[k] == old(s[k])
    {
      DigitStep(d, count - it, m);
      s[count + l - it - 1] := DigitChar(m % 10);
      m := m / 10;
      it := it + 1;
    }
    assert forall k :: 0 <= k < count ==> s[l + k] == d[k];
  }
}
