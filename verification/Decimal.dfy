/** Decimal numerals: printing, the canonical form, and reading back. */
module Decimal {
  import opened SourceText

  predicate IsDigit(c: char) {
    '0' <= c <= '9'
  }

  function DigitValue(c: char): nat
    requires IsDigit(c)
  {
    c as int - '0' as int
  }

  function DigitOf(d: nat): (c: char)
    requires d < 10
    ensures IsDigit(c) && DigitValue(c) == d
  {
    ('0' as int + d) as char
  }

  predicate AllDigits(s: Text) {
    forall i :: 0 <= i < |s| ==> IsDigit(s[i])
  }

  function Print(n: nat): Text {
    if n < 10 then [DigitOf(n)] else Print(n / 10) + [DigitOf(n % 10)]
  }

  function Parse(s: Text): nat
    requires AllDigits(s)
  {
    if s == [] then 0 else 10 * Parse(s[..|s| - 1]) + DigitValue(s[|s| - 1])
  }

  /** No sign, no leading zero, at least one digit. */
  predicate IsCanonical(s: Text) {
    s != [] && AllDigits(s) && (|s| > 1 ==> s[0] != '0')
  }

  /** Reading inverts printing, and what is printed is canonical. */
  lemma {:induction false} PrintParse(n: nat)
    ensures IsCanonical(Print(n)) && Parse(Print(n)) == n
    ensures n > 0 ==> Print(n)[0] != '0'
  {
    if n >= 10 {
      PrintParse(n / 10);
      assert Print(n)[..|Print(n)| - 1] == Print(n / 10);
    } else {
      assert Print(n)[..0] == [];
    }
  }

  lemma {:induction false} ParsePositive(s: Text)
    requires s != [] && AllDigits(s) && s[0] != '0'
    ensures Parse(s) > 0
  {
    if |s| > 1 {
      ParsePositive(s[..|s| - 1]);
    } else {
      assert s[..0] == [];
    }
  }

  /** Printing inverts reading on exactly the canonical numerals. */
  lemma {:induction false} ParsePrint(s: Text)
    requires IsCanonical(s)
    ensures Print(Parse(s)) == s
  {
    var front, last := s[..|s| - 1], s[|s| - 1];
    assert s == front + [last];
    if front != [] {
      ParsePositive(front);
      ParsePrint(front);
      var n := Parse(s);
      assert n / 10 == Parse(front) && n % 10 == DigitValue(last);
      assert DigitOf(DigitValue(last)) == last;
    } else {
      assert DigitOf(DigitValue(last)) == last;
    }
  }

  lemma {:induction false} PrintLength(n: nat)
    ensures |Print(n)| == 1 <==> n < 10
    ensures |Print(n)| == 2 <==> 10 <= n < 100
    ensures |Print(n)| == 3 <==> 100 <= n < 1000
    ensures |Print(n)| >= 1
  {
    if n >= 10 {
      PrintLength(n / 10);
    }
  }

  lemma {:induction false} ParseWithZeros(zeros: nat, s: Text)
    requires AllDigits(s)
    ensures AllDigits(seq(zeros, _ => '0') + s) && Parse(seq(zeros, _ => '0') + s) == Parse(s)
    decreases |s|, zeros
  {
    var z := seq(zeros, _ => '0');
    if s != [] {
      ParseWithZeros(zeros, s[..|s| - 1]);
      assert (z + s)[..|z + s| - 1] == z + s[..|s| - 1];
    } else if zeros > 0 {
      ParseWithZeros(zeros - 1, s);
      assert (z + s)[..|z + s| - 1] == seq(zeros - 1, _ => '0') + s;
    }
  }
}
