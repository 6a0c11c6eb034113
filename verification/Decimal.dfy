/** Printing unsigned integers, and parsing them the way Rust's `str::parse` does. */
module Decimal {
  import opened Options

  predicate IsDigit(c: char) {
    '0' <= c <= '9'
  }

  function DigitValue(c: char): nat
    requires IsDigit(c)
  {
    c as int - '0' as int
  }

  function DigitChar(d: nat): (c: char)
    requires d < 10
    ensures IsDigit(c) && DigitValue(c) == d
  {
    ('0' as int + d) as char
  }

  predicate AllDigits(s: string) {
    forall i | 0 <= i < |s| :: IsDigit(s[i])
  }

  /** The number a string of digits stands for. */
  function Value(s: string): nat
    requires AllDigits(s)
  {
    if s == [] then 0 else 10 * Value(s[..|s| - 1]) + DigitValue(s[|s| - 1])
  }

  /** `format!("{}", n)`. */
  function Print(n: nat): string {
    if n < 10 then [DigitChar(n)] else Print(n / 10) + [DigitChar(n % 10)]
  }

  /** Accumulates digits from the left; None for a character that is no digit and as soon as
      the number reaches `limit`. */
  function ParseDigits(s: string, limit: nat): Option<nat> {
    if s == [] then Some(0)
    else
      var last := s[|s| - 1];
      match ParseDigits(s[..|s| - 1], limit)
      case None => None
      case Some(n) =>
        if !IsDigit(last) || n * 10 >= limit || n * 10 + DigitValue(last) >= limit then None
        else Some(n * 10 + DigitValue(last))
  }

  /** `s.parse()` for an unsigned type with values below `limit`. */
  function Parse(s: string, limit: nat): Option<nat> {
    if s == "" || s == "+" then None
    else if s[0] == '+' then ParseDigits(s[1..], limit)
    else ParseDigits(s, limit)
  }

  lemma {:induction false} ParseDigitsIff(s: string, limit: nat)
    requires limit > 0
    ensures ParseDigits(s, limit) == if AllDigits(s) && Value(s) < limit then Some(Value(s)) else None
  {
    if s == [] {
    } else {
      var front, last := s[..|s| - 1], s[|s| - 1];
      ParseDigitsIff(front, limit);
      assert s == front + [last];
      assert AllDigits(s) <==> AllDigits(front) && IsDigit(last);
    }
  }

  lemma {:induction false} PrintValue(n: nat)
    ensures Print(n) != [] && AllDigits(Print(n)) && Value(Print(n)) == n
    ensures Print(n)[0] != '+'
  {
    if n >= 10 {
      PrintValue(n / 10);
      assert Print(n)[..|Print(n)| - 1] == Print(n / 10);
    } else {
      assert Value([DigitChar(n)]) == 10 * Value([DigitChar(n)][..0]) + n;
    }
  }

  function Zeros(k: nat): string {
    seq(k, _ => '0')
  }

  /** A string of digits is the printed number with zeros in front. */
  lemma {:induction false} DigitsArePaddedPrint(s: string) returns (k: nat)
    requires s != [] && AllDigits(s)
    ensures s == Zeros(k) + Print(Value(s))
  {
    var front, last := s[..|s| - 1], s[|s| - 1];
    assert s == front + [last];
    if front == [] {
      k := 0;
      assert s == Print(Value(s));
    } else {
      k := DigitsArePaddedPrint(front);
      if Value(front) == 0 {
        k := k + 1;
        assert Zeros(k) == Zeros(k - 1) + ['0'];
        assert Print(0) == ['0'];
      }
    }
  }

  lemma {:induction false} PaddedPrintValue(k: nat, n: nat)
    ensures AllDigits(Zeros(k) + Print(n)) && Value(Zeros(k) + Print(n)) == n
    ensures (Zeros(k) + Print(n))[0] != '+'
    decreases n
  {
    var s := Zeros(k) + Print(n);
    PrintValue(n);
    if n < 10 {
      assert s[..|s| - 1] == Zeros(k);
      ZerosValue(k);
    } else {
      PaddedPrintValue(k, n / 10);
      assert s[..|s| - 1] == Zeros(k) + Print(n / 10);
    }
  }

  lemma {:induction false} ZerosValue(k: nat)
    ensures AllDigits(Zeros(k)) && Value(Zeros(k)) == 0
  {
    if k == 0 {
    } else {
      ZerosValue(k - 1);
      assert Zeros(k)[..k - 1] == Zeros(k - 1);
    }
  }

  /** The spellings that parse to `n`: an optional plus sign, zeros, and the printed number. */
  ghost predicate Spells(s: string, n: nat) {
    exists k: nat :: s == Zeros(k) + Print(n) || s == "+" + (Zeros(k) + Print(n))
  }

  /** Exactly the spellings of the numbers below the limit parse, and to those numbers. */
  lemma ParseIff(s: string, limit: nat, n: nat)
    requires limit > 0
    ensures Parse(s, limit) == Some(n) <==> n < limit && Spells(s, n)
  {
    if Parse(s, limit) == Some(n) {
      var digits := if s[0] == '+' then s[1..] else s;
      ParseDigitsIff(digits, limit);
      assert digits != [];
      var k := DigitsArePaddedPrint(digits);
      assert s == (if s[0] == '+' then "+" + digits else digits);
    }
    if n < limit && Spells(s, n) {
      var k: nat :| s == Zeros(k) + Print(n) || s == "+" + (Zeros(k) + Print(n));
      var digits := Zeros(k) + Print(n);
      PaddedPrintValue(k, n);
      PrintValue(n);
      ParseDigitsIff(digits, limit);
      if s != digits {
        assert s[0] == '+' && s[1..] == digits;
      }
    }
  }

  /** Parsing undoes printing. */
  lemma ParsePrint(n: nat, limit: nat)
    requires n < limit
    ensures Parse(Print(n), limit) == Some(n)
  {
    assert Print(n) == Zeros(0) + Print(n);
    ParseIff(Print(n), limit, n);
  }

  /** Base ten, most significant digit first, with the usual digits. */
  lemma BaseTen(n: nat, d: nat)
    requires d < 10
    ensures Print(d) == ["0123456789"[d]]
    ensures n > 0 ==> Print(10 * n + d) == Print(n) + ["0123456789"[d]]
  {
    assert DigitChar(d) == "0123456789"[d] by {
      assert '0' as int + d == "0123456789"[d] as int;
    }
    assert (10 * n + d) / 10 == n && (10 * n + d) % 10 == d;
  }
}
