/**
 Positional numerals: what `toString(radix)`, `parseInt(text, radix)` and `BigInt(text)` do for
 non-negative integers. The hexadecimal codecs and the decimal money type are both built on it.
 */
module Digits {

  datatype Radix = Decimal | Hexadecimal
  {
    /** The radix times `n`; written per radix so that the arithmetic stays linear. */
    function Times(n: nat): nat {
      match this case Decimal => 10 * n case Hexadecimal => 16 * n
    }

    function Size(): nat {
      Times(1)
    }

    function Quotient(n: nat): nat {
      match this case Decimal => n / 10 case Hexadecimal => n / 16
    }

    function Remainder(n: nat): nat {
      match this case Decimal => n % 10 case Hexadecimal => n % 16
    }

    function Pow(exponent: nat): (p: nat)
      ensures p > 0
    {
      if exponent == 0 then 1 else Times(Pow(exponent - 1))
    }

    predicate IsDigit(c: char) {
      '0' <= c <= '9' || (Hexadecimal? && 'a' <= c <= 'f')
    }

    predicate IsNumeral(s: string) {
      forall i | 0 <= i < |s| :: IsDigit(s[i])
    }

    /** `n.toString(radix)`: no leading zeros, "0" for zero. */
    function Print(n: nat): (s: string)
      ensures |s| >= 1 && IsNumeral(s)
      ensures n > 0 ==> s[0] != '0'
    {
      if n < Size() then [Digit(n)] else Print(Quotient(n)) + [Digit(Remainder(n))]
    }

    /** `parseInt(s, radix)` on a string of digits; the empty string stands for zero. */
    function Parse(s: string): nat {
      if |s| == 0 then 0 else Times(Parse(s[..|s| - 1])) + Value(s[|s| - 1])
    }
  }

  function Value(c: char): (v: nat)
    ensures v < 16
  {
    if '0' <= c <= '9' then c as int - '0' as int
    else if 'a' <= c <= 'f' then c as int - 'a' as int + 10
    else 0
  }

  function Digit(v: nat): (c: char)
    requires v < 16
    ensures Value(c) == v
  {
    if v < 10 then ('0' as int + v) as char else ('a' as int + v - 10) as char
  }

  // ---------------------------------------------------------------------------------------------
  // Powers
  // ---------------------------------------------------------------------------------------------

  lemma {:induction false} PowAdd(r: Radix, m: nat, n: nat)
    ensures r.Pow(m + n) == r.Pow(m) * r.Pow(n)
  {
    if m == 0 {
    } else {
      PowAdd(r, m - 1, n);
      TimesMul(r, r.Pow(m - 1), r.Pow(n));
    }
  }

  lemma TimesMul(r: Radix, a: nat, b: nat)
    ensures r.Times(a * b) == r.Times(a) * b
  {
    match r
    case Decimal => assert 10 * (a * b) == (10 * a) * b;
    case Hexadecimal => assert 16 * (a * b) == (16 * a) * b;
  }

  lemma TimesLinear(r: Radix, a: nat, b: nat, c: nat)
    ensures r.Times(a * b + c) == a * r.Times(b) + r.Times(c)
  {
    match r
    case Decimal => assert 10 * (a * b) == a * (10 * b);
    case Hexadecimal => assert 16 * (a * b) == a * (16 * b);
  }

  lemma {:induction false} PowMonotone(r: Radix, m: nat, n: nat)
    requires m <= n
    ensures r.Pow(m) <= r.Pow(n)
    decreases n
  {
    if m < n {
      PowMonotone(r, m, n - 1);
    }
  }

  lemma MulCancel(a: nat, b: nat, c: nat)
    requires c > 0 && a * c == b * c
    ensures a == b
  {
  }

  lemma MulMonotone(a: nat, b: nat, c: nat)
    requires a <= b
    ensures a * c <= b * c
  {
  }

  // ---------------------------------------------------------------------------------------------
  // Printing and parsing
  // ---------------------------------------------------------------------------------------------

  lemma {:induction false} ParsePrint(r: Radix, n: nat)
    ensures r.Parse(r.Print(n)) == n
  {
    if n < r.Size() {
      assert [Digit(n)][..0] == [];
    } else {
      var q := r.Print(r.Quotient(n));
      ParsePrint(r, r.Quotient(n));
      assert (q + [Digit(r.Remainder(n))])[..|q|] == q;
    }
  }

  lemma {:induction false} ParseConcat(r: Radix, s: string, t: string)
    ensures r.Parse(s + t) == r.Parse(s) * r.Pow(|t|) + r.Parse(t)
  {
    if |t| == 0 {
      assert s + t == s;
    } else {
      var t' := t[..|t| - 1];
      ParseConcat(r, s, t');
      assert (s + t)[..|s + t| - 1] == s + t';
      assert (s + t)[|s + t| - 1] == t[|t| - 1];
      TimesLinear(r, r.Parse(s), r.Pow(|t'|), r.Parse(t'));
    }
  }

  lemma {:induction false} ParseBelow(r: Radix, s: string)
    requires r.IsNumeral(s)
    ensures r.Parse(s) < r.Pow(|s|)
  {
    if |s| == 0 {
    } else {
      assert r.IsDigit(s[|s| - 1]);
      ParseBelow(r, s[..|s| - 1]);
    }
  }

  /** The printed numeral has the least length whose range holds the number. */
  lemma {:induction false} PrintLength(r: Radix, n: nat, k: nat)
    requires k >= 1 && n < r.Pow(k)
    ensures |r.Print(n)| <= k
  {
    if n < r.Size() {
    } else {
      assert r.Pow(1) == r.Times(r.Pow(0));
      PrintLength(r, r.Quotient(n), k - 1);
    }
  }

  /** A smaller number never prints longer. */
  lemma PrintMonotone(r: Radix, m: nat, n: nat)
    requires m <= n
    ensures |r.Print(m)| <= |r.Print(n)|
  {
    ParsePrint(r, n);
    ParseBelow(r, r.Print(n));
    PrintLength(r, m, |r.Print(n)|);
  }

  /** No numeral of the same value is shorter than the printed one. */
  lemma PrintShortest(r: Radix, s: string)
    requires |s| >= 1 && r.IsNumeral(s)
    ensures |r.Print(r.Parse(s))| <= |s|
  {
    ParseBelow(r, s);
    PrintLength(r, r.Parse(s), |s|);
  }

  lemma ValueInjective(r: Radix, c: char, d: char)
    requires r.IsDigit(c) && r.IsDigit(d)
    ensures Value(c) < r.Size() && Value(d) < r.Size()
    ensures Value(c) == Value(d) ==> c == d
  {
  }

  /** A numeral's last digit and the number before it are determined by its value. */
  lemma LastDigit(r: Radix, a: nat, b: nat, x: nat, y: nat)
    requires x < r.Size() && y < r.Size() && r.Times(a) + x == r.Times(b) + y
    ensures a == b && x == y
  {
  }

  /** Among numerals of one length, equal values are equal texts. */
  lemma {:induction false} ParseInjective(r: Radix, s: string, t: string)
    requires r.IsNumeral(s) && r.IsNumeral(t)
    requires |s| == |t| && r.Parse(s) == r.Parse(t)
    ensures s == t
  {
    if |s| == 0 {
    } else {
      var n := |s| - 1;
      ValueInjective(r, s[n], t[n]);
      LastDigit(r, r.Parse(s[..n]), r.Parse(t[..n]), Value(s[n]), Value(t[n]));
      ParseInjective(r, s[..n], t[..n]);
      assert s == s[..n] + [s[n]] && t == t[..n] + [t[n]];
    }
  }

  // ---------------------------------------------------------------------------------------------
  // Padding
  // ---------------------------------------------------------------------------------------------

  /** Numerals are positional, the most significant digit first. */
  lemma Positional(r: Radix, s: string, k: nat)
    requires k < r.Size()
    ensures r.Size() == if r.Decimal? then 10 else 16
    ensures var c := "0123456789abcdef"[k];
            r.IsDigit(c) && r.Parse(s + [c]) == r.Size() * r.Parse(s) + k && r.Parse([]) == 0
  {
    var c := "0123456789abcdef"[k];
    assert (s + [c])[..|s|] == s;
    assert Value(c) == k;
  }


  function Zeros(n: nat): (z: string)
    ensures |z| == n && forall i | 0 <= i < n :: z[i] == '0'
  {
    seq(n, _ => '0')
  }

  lemma {:induction false} ParseZeros(r: Radix, n: nat)
    ensures r.Parse(Zeros(n)) == 0
  {
    if n > 0 {
      assert Zeros(n)[..n - 1] == Zeros(n - 1);
      ParseZeros(r, n - 1);
    }
  }

  /** `text.padStart(width, '0')`. */
  function PadStart(s: string, width: nat): (p: string)
    ensures |p| == if |s| >= width then |s| else width
  {
    if |s| >= width then s else Zeros(width - |s|) + s
  }

  /** `text.padEnd(width, '0')`. */
  function PadEnd(s: string, width: nat): (p: string)
    ensures |p| == if |s| >= width then |s| else width
  {
    if |s| >= width then s else s + Zeros(width - |s|)
  }

  lemma ParsePadStart(r: Radix, s: string, width: nat)
    requires r.IsNumeral(s)
    ensures r.Parse(PadStart(s, width)) == r.Parse(s)
    ensures r.IsNumeral(PadStart(s, width))
  {
    if |s| < width {
      ParseConcat(r, Zeros(width - |s|), s);
      ParseZeros(r, width - |s|);
    }
  }

  lemma ParseWithZeros(r: Radix, s: string, n: nat)
    ensures r.Parse(s + Zeros(n)) == r.Parse(s) * r.Pow(n)
  {
    ParseConcat(r, s, Zeros(n));
    ParseZeros(r, n);
  }

  /** Fixed-width printing, `n.toString(radix).padStart(width, '0')`, reads back exactly. */
  lemma FixedWidth(r: Radix, n: nat, width: nat)
    requires width >= 1 && n < r.Pow(width)
    ensures |PadStart(r.Print(n), width)| == width
    ensures r.IsNumeral(PadStart(r.Print(n), width))
    ensures r.Parse(PadStart(r.Print(n), width)) == n
  {
    PrintLength(r, n, width);
    ParsePrint(r, n);
    ParsePadStart(r, r.Print(n), width);
  }
}
