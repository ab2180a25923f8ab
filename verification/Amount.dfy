/** Money as an integer number of wei, read from and printed as decimal text. */
module Amount {
  import opened Base
  import opened Digits

  const DECIMALS := 18
  const SCALE: nat := 1_000_000_000_000_000_000
  const MAX_EXPONENT := 60

  datatype AmountError = InvalidAmount | TooManyDecimals

  function Signed(negative: bool, magnitude: int): int {
    if negative then -magnitude else magnitude
  }

  // ---------------------------------------------------------------------------------------------
  // The two patterns
  // ---------------------------------------------------------------------------------------------

  /** The groups of /^(-?)(\d+)(?:\.(\d+))?$/; an absent fraction is the empty string. */
  datatype Parts = Parts(negative: bool, whole: string, fraction: string)

  predicate AreDigits(s: string) {
    Radix.Decimal.IsNumeral(s)
  }

  /** How many digits a text starts with. */
  function LeadingDigits(s: string): (n: nat)
    ensures n <= |s| && AreDigits(s[..n])
    ensures n < |s| ==> !Radix.Decimal.IsDigit(s[n])
  {
    if |s| > 0 && Radix.Decimal.IsDigit(s[0]) then 1 + LeadingDigits(s[1..]) else 0
  }

  function Unsigned(text: string): (bool, string) {
    if |text| > 0 && text[0] == '-' then (true, text[1..]) else (false, text)
  }

  function MatchDecimal(text: string): Option<Parts> {
    var (negative, rest) := Unsigned(text);
    var n := LeadingDigits(rest);
    var tail := rest[n..];
    if n == 0 then None
    else if tail == "" then Some(Parts(negative, rest[..n], ""))
    else if tail[0] == '.' && |tail| > 1 && AreDigits(tail[1..]) then Some(Parts(negative, rest[..n], tail[1..]))
    else None
  }

  /** The groups of /^(-?)(\d+)(?:\.(\d+))?e([+-]?\d+)$/i. */
  function MatchExponent(text: string): Option<(Parts, int)> {
    var (negative, rest) := Unsigned(text);
    var n := LeadingDigits(rest);
    var tail := rest[n..];
    if n == 0 || tail == "" then None
    else if tail[0] == '.' then
      var m := LeadingDigits(tail[1..]);
      if m == 0 then None else ExponentAfter(Parts(negative, rest[..n], tail[1..][..m]), tail[1..][m..])
    else ExponentAfter(Parts(negative, rest[..n], ""), tail)
  }

  function ExponentAfter(parts: Parts, tail: string): Option<(Parts, int)> {
    if |tail| < 2 || (tail[0] != 'e' && tail[0] != 'E') then None
    else
      var signed := tail[1] == '+' || tail[1] == '-';
      var digits := if signed then tail[2..] else tail[1..];
      if digits == "" || !AreDigits(digits) then None
      else
        Some((parts, Signed(tail[1] == '-', Radix.Decimal.Parse(digits))))
  }

  // ---------------------------------------------------------------------------------------------
  // Parsing
  // ---------------------------------------------------------------------------------------------

  function Sign(negative: bool): string {
    if negative then "-" else ""
  }

  /** expandExponent: a text with an exponent in plain decimal notation; other text unchanged. */
  function ExpandExponent(text: string): Result<string, AmountError> {
    match MatchExponent(text)
    case None => Ok(text)
    case Some((parts, exponent)) =>
      if exponent > MAX_EXPONENT || exponent < -MAX_EXPONENT then Err(InvalidAmount)
      else Ok(ShiftedText(parts, exponent))
  }

  /** The digits of the number with its point moved by `exponent` places. */
  function ShiftedText(parts: Parts, exponent: int): string {
    var digits := parts.whole + parts.fraction;
    var point := |parts.whole| + exponent;
    if point <= 0 then Sign(parts.negative) + "0." + Zeros(-point) + digits
    else if point >= |digits| then Sign(parts.negative) + digits + Zeros(point - |digits|)
    else Sign(parts.negative) + digits[..point] + "." + digits[point..]
  }

  /** `text.replace(/0+$/, '')`. */
  function StripZeros(s: string): (t: string)
    ensures |t| <= |s| && t == s[..|t|]
    ensures |t| > 0 ==> t[|t| - 1] != '0'
  {
    if |s| > 0 && s[|s| - 1] == '0' then StripZeros(s[..|s| - 1]) else s
  }

  function Magnitude(whole: string, fraction: string): nat {
    Radix.Decimal.Parse(whole) * SCALE + Radix.Decimal.Parse(PadEnd(fraction, DECIMALS))
  }

  function FromParts(parts: Parts): Result<int, AmountError> {
    var fraction := StripZeros(parts.fraction);
    if |fraction| > DECIMALS then Err(TooManyDecimals)
    else Ok(Signed(parts.negative, Magnitude(parts.whole, fraction)))
  }

  /** Amount.from on trimmed text. */
  function From(text: string): Result<int, AmountError> {
    var expanded :- ExpandExponent(text);
    match MatchDecimal(expanded)
    case None => Err(InvalidAmount)
    case Some(parts) => FromParts(parts)
  }

  // ---------------------------------------------------------------------------------------------
  // What a text denotes
  // ---------------------------------------------------------------------------------------------

  /** The number `digits * 10 ^ power`, negated or not. */
  datatype Reading = Reading(negative: bool, digits: nat, power: int)

  function ReadParts(parts: Parts, exponent: int): Reading {
    Reading(parts.negative, Radix.Decimal.Parse(parts.whole + parts.fraction), exponent - |parts.fraction|)
  }

  /** The number a text stands for in ordinary decimal or scientific notation. */
  function Read(text: string): Option<Reading> {
    match MatchExponent(text)
    case Some((parts, exponent)) => Some(ReadParts(parts, exponent))
    case None =>
      match MatchDecimal(text)
      case Some(parts) => Some(ReadParts(parts, 0))
      case None => None
  }

  /** The exponent is within the range the source expands. */
  predicate ExponentInRange(text: string) {
    match MatchExponent(text)
    case Some((_, exponent)) => -60 <= exponent <= 60
    case None => true
  }

  function Pow10(n: int): nat {
    if n <= 0 then 1 else Radix.Decimal.Pow(n)
  }

  /** `w` is the number times 10^18; both sides are scaled up to avoid negative powers. */
  predicate IsWei(r: Reading, w: int) {
    && (w < 0 ==> r.negative) && (w > 0 ==> !r.negative)
    && Abs(w) * Pow10(-(r.power + 18)) == r.digits * Pow10(r.power + 18)
  }

  function Abs(w: int): nat {
    if w < 0 then -w else w
  }

  predicate SameNumber(r: Reading, s: Reading) {
    r.negative == s.negative && r.digits * Pow10(r.power - s.power) == s.digits * Pow10(s.power - r.power)
  }

  // ---------------------------------------------------------------------------------------------
  // Reading a text back from its parts
  // ---------------------------------------------------------------------------------------------

  function Text(parts: Parts): string {
    Sign(parts.negative) + (parts.whole + if parts.fraction == "" then "" else "." + parts.fraction)
  }

  predicate WellFormed(parts: Parts) {
    AreDigits(parts.whole) && |parts.whole| > 0 && AreDigits(parts.fraction)
  }

  lemma {:induction false} LeadingDigitsOf(digits: string, rest: string)
    requires AreDigits(digits) && (|rest| > 0 ==> !Radix.Decimal.IsDigit(rest[0]))
    ensures LeadingDigits(digits + rest) == |digits|
  {
    if |digits| > 0 {
      assert Radix.Decimal.IsDigit(digits[0]);
      assert (digits + rest)[1..] == digits[1..] + rest;
      LeadingDigitsOf(digits[1..], rest);
    } else {
      assert digits + rest == rest;
    }
  }

  lemma MatchText(parts: Parts)
    requires WellFormed(parts)
    ensures MatchDecimal(Text(parts)) == Some(parts)
    ensures MatchExponent(Text(parts)) == None
  {
    var tail := if parts.fraction == "" then "" else "." + parts.fraction;
    var rest := parts.whole + tail;
    assert Radix.Decimal.IsDigit(parts.whole[0]);
    assert Unsigned(Text(parts)) == (parts.negative, rest) by {
      if parts.negative {
        assert Text(parts)[1..] == rest;
      } else {
        assert Text(parts) == rest;
      }
    }
    LeadingDigitsOf(parts.whole, tail);
    assert rest[..|parts.whole|] == parts.whole && rest[|parts.whole|..] == tail;
    if parts.fraction != "" {
      assert tail[1..] == parts.fraction;
      LeadingDigitsOf(parts.fraction, "");
      assert parts.fraction + "" == parts.fraction;
    }
  }

  /** A text that matches the plain pattern is the text of its parts. */
  lemma TextOfMatch(text: string)
    requires MatchDecimal(text).Some?
    ensures WellFormed(MatchDecimal(text).value) && Text(MatchDecimal(text).value) == text
  {
    var (negative, rest) := Unsigned(text);
    var n := LeadingDigits(rest);
    assert rest == rest[..n] + rest[n..];
    assert text == Sign(negative) + rest;
    if rest[n..] != "" {
      assert rest[n..] == "." + rest[n..][1..];
    }
  }

  /** What the plain pattern matches: an optional minus, digits, and a point with digits or nothing. */
  lemma PlainPatternIff(text: string, parts: Parts)
    ensures MatchDecimal(text) == Some(parts) <==> WellFormed(parts) && text == Text(parts)
  {
    if MatchDecimal(text).Some? {
      TextOfMatch(text);
    }
    if WellFormed(parts) {
      MatchText(parts);
    }
  }

  /** The exponent of a text: a letter e, an optional sign, and digits. */
  predicate IsTail(tail: string, exponent: int, mark: string, digits: string) {
    && |digits| > 0 && AreDigits(digits) && mark in {"e", "E", "e+", "E+", "e-", "E-"} && tail == mark + digits
    && exponent == Signed(mark == "e-" || mark == "E-", Radix.Decimal.Parse(digits))
  }

  lemma TailFound(parts: Parts, tail: string) returns (mark: string, digits: string)
    requires ExponentAfter(parts, tail).Some?
    ensures ExponentAfter(parts, tail).value.0 == parts
    ensures IsTail(tail, ExponentAfter(parts, tail).value.1, mark, digits)
  {
    var n := if tail[1] == '+' || tail[1] == '-' then 2 else 1;
    mark, digits := tail[..n], tail[n..];
    assert tail[..1] == [tail[0]] && tail[..2] == [tail[0], tail[1]];
  }

  lemma TailReads(parts: Parts, tail: string, exponent: int, mark: string, digits: string)
    requires IsTail(tail, exponent, mark, digits)
    ensures ExponentAfter(parts, tail) == Some((parts, exponent))
  {
    assert Radix.Decimal.IsDigit(digits[0]) && tail[|mark|..] == digits && tail[|mark|] == digits[0];
    assert tail[0] == mark[0] && (|mark| == 2 ==> tail[1] == mark[1]);
  }

  /** A text with an exponent: a plain text, and the exponent. */
  predicate IsExponentText(text: string, parts: Parts, exponent: int, mark: string, digits: string) {
    WellFormed(parts) && text == Text(parts) + (mark + digits) && IsTail(mark + digits, exponent, mark, digits)
  }

  lemma UnsignedText(negative: bool, rest: string)
    requires |rest| > 0 && Radix.Decimal.IsDigit(rest[0])
    ensures Unsigned(Sign(negative) + rest) == (negative, rest)
  {
    if negative {
      assert (Sign(negative) + rest)[1..] == rest;
    } else {
      assert Sign(negative) + rest == rest;
    }
  }

  lemma SignedRest(text: string)
    ensures text == Sign(Unsigned(text).0) + Unsigned(text).1
  {
  }

  /** A text with something after it, from its sign on. */
  lemma TextThen(parts: Parts, after: string)
    ensures Text(parts) + after
         == Sign(parts.negative)
            + (parts.whole + if parts.fraction == "" then after else "." + (parts.fraction + after))
  {
    if parts.fraction == "" {
      assert parts.whole + "" == parts.whole;
    } else {
      assert "." + parts.fraction + after == "." + (parts.fraction + after);
    }
  }

  lemma ExponentTextOf(text: string) returns (mark: string, digits: string)
    requires MatchExponent(text).Some?
    ensures IsExponentText(text, MatchExponent(text).value.0, MatchExponent(text).value.1, mark, digits)
  {
    var parts, after := SplitExponent(text);
    mark, digits := TailFound(parts, after);
  }

  lemma PointThen(tail: string, m: nat)
    requires |tail| > m && tail[0] == '.'
    ensures tail == "." + (tail[1..][..m] + tail[1..][m..])
  {
    assert tail[1..][..m] + tail[1..][m..] == tail[1..];
    assert "." + tail[1..] == tail;
  }

  lemma SplitExponent(text: string) returns (parts: Parts, after: string)
    requires MatchExponent(text).Some?
    ensures WellFormed(parts) && text == Text(parts) + after && MatchExponent(text) == ExponentAfter(parts, after)
  {
    hide ExponentAfter, Text;
    var (negative, rest) := Unsigned(text);
    var n := LeadingDigits(rest);
    var tail := rest[n..];
    SignedRest(text);
    assert rest == rest[..n] + tail;
    if tail[0] == '.' {
      var m := LeadingDigits(tail[1..]);
      parts, after := Parts(negative, rest[..n], tail[1..][..m]), tail[1..][m..];
      PointThen(tail, m);
    } else {
      parts, after := Parts(negative, rest[..n], ""), tail;
    }
    TextThen(parts, after);
  }

  lemma ExponentTextReads(text: string, parts: Parts, exponent: int, mark: string, digits: string)
    requires IsExponentText(text, parts, exponent, mark, digits)
    ensures MatchExponent(text) == Some((parts, exponent))
  {
    hide ExponentAfter, Text, LeadingDigits, Unsigned;
    var after := mark + digits;
    var tail := if parts.fraction == "" then after else "." + (parts.fraction + after);
    var rest := parts.whole + tail;
    TextThen(parts, after);
    assert rest[0] == parts.whole[0];
    UnsignedText(parts.negative, rest);
    TailReads(parts, after, exponent, mark, digits);
    AfterDigits(parts.whole, tail);
    if parts.fraction != "" {
      assert tail[1..] == parts.fraction + after;
      AfterDigits(parts.fraction, after);
    }
  }

  lemma AfterDigits(digits: string, tail: string)
    requires AreDigits(digits) && |tail| > 0 && !Radix.Decimal.IsDigit(tail[0])
    ensures var text := digits + tail;
            LeadingDigits(text) == |digits| && text[..|digits|] == digits && text[|digits|..] == tail
  {
    LeadingDigitsOf(digits, tail);
  }

  /** What the exponent pattern matches. */
  lemma ExponentPatternIff(text: string, parts: Parts, exponent: int)
    ensures MatchExponent(text) == Some((parts, exponent))
            <==> exists mark, digits :: IsExponentText(text, parts, exponent, mark, digits)
  {
    if MatchExponent(text).Some? {
      var mark, digits := ExponentTextOf(text);
    }
    if mark, digits :| IsExponentText(text, parts, exponent, mark, digits) {
      ExponentTextReads(text, parts, exponent, mark, digits);
    }
  }

  lemma PartsOfExponent(text: string)
    requires MatchExponent(text).Some?
    ensures WellFormed(MatchExponent(text).value.0)
  {
  }

  lemma FromText(parts: Parts)
    requires WellFormed(parts)
    ensures From(Text(parts)) == FromParts(parts)
  {
    MatchText(parts);
  }

  // ---------------------------------------------------------------------------------------------
  // Parsing is exact
  // ---------------------------------------------------------------------------------------------

  lemma Scale18()
    ensures Radix.Decimal.Pow(18) == SCALE
  {
    assert Radix.Decimal.Pow(3) == 1000;
    PowAdd(Radix.Decimal, 3, 3);
    PowAdd(Radix.Decimal, 6, 3);
    PowAdd(Radix.Decimal, 9, 9);
  }

  lemma {:induction false} StrippedZeros(s: string)
    ensures s == StripZeros(s) + Zeros(|s| - |StripZeros(s)|)
  {
    if |s| > 0 && s[|s| - 1] == '0' {
      var s' := s[..|s| - 1];
      StrippedZeros(s');
      assert s == s' + "0";
      assert Zeros(|s| - |StripZeros(s)|) == Zeros(|s'| - |StripZeros(s')|) + "0";
    }
  }

  /** digits of whole.fraction = digits of whole.stripped times the zeros stripped. */
  lemma DigitsOf(whole: string, fraction: string)
    ensures var stripped := StripZeros(fraction);
            Radix.Decimal.Parse(whole + fraction)
            == Radix.Decimal.Parse(whole + stripped) * Radix.Decimal.Pow(|fraction| - |stripped|)
  {
    var stripped := StripZeros(fraction);
    StrippedZeros(fraction);
    assert whole + fraction == (whole + stripped) + Zeros(|fraction| - |stripped|);
    ParseWithZeros(Radix.Decimal, whole + stripped, |fraction| - |stripped|);
  }

  lemma Regroup(w: nat, a: nat, b: nat, f: nat)
    ensures (w * a + f) * b == w * (a * b) + f * b
  {
  }

  lemma MagnitudeOf(whole: string, fraction: string)
    requires |fraction| <= DECIMALS
    ensures Magnitude(whole, fraction)
         == Radix.Decimal.Parse(whole + fraction) * Radix.Decimal.Pow(DECIMALS - |fraction|)
  {
    var k := DECIMALS - |fraction|;
    ParseConcat(Radix.Decimal, whole, fraction);
    Regroup(Radix.Decimal.Parse(whole), Radix.Decimal.Pow(|fraction|), Radix.Decimal.Pow(k),
        Radix.Decimal.Parse(fraction));
    PaddedFraction(fraction);
    PowAdd(Radix.Decimal, |fraction|, k);
    Scale18();
  }

  lemma PaddedFraction(fraction: string)
    requires |fraction| <= DECIMALS
    ensures Radix.Decimal.Parse(PadEnd(fraction, DECIMALS))
         == Radix.Decimal.Parse(fraction) * Radix.Decimal.Pow(DECIMALS - |fraction|)
  {
    ParseWithZeros(Radix.Decimal, fraction, DECIMALS - |fraction|);
    assert fraction + Zeros(0) == fraction;
  }

  lemma LastDigit(s: string)
    requires AreDigits(s) && |s| > 0 && s[|s| - 1] != '0'
    ensures Radix.Decimal.Parse(s) % 10 != 0
  {
    assert Radix.Decimal.IsDigit(s[|s| - 1]);
  }

  lemma MulPow(a: nat, m: nat, n: nat)
    ensures a * Radix.Decimal.Pow(m) * Radix.Decimal.Pow(n) == a * Radix.Decimal.Pow(m + n)
  {
    PowAdd(Radix.Decimal, m, n);
    assert a * Radix.Decimal.Pow(m) * Radix.Decimal.Pow(n) == a * (Radix.Decimal.Pow(m) * Radix.Decimal.Pow(n));
  }

  /** Trailing zeros move between the digits and the power of ten. */
  lemma KeptMagnitude(m: nat, f: nat, kept: nat)
    requires kept <= f && kept <= DECIMALS
    ensures f <= DECIMALS ==>
              m * Radix.Decimal.Pow(f - kept) * Radix.Decimal.Pow(DECIMALS - f)
                  == m * Radix.Decimal.Pow(DECIMALS - kept)
    ensures f > DECIMALS ==>
              m * Radix.Decimal.Pow(DECIMALS - kept) * Radix.Decimal.Pow(f - DECIMALS)
                  == m * Radix.Decimal.Pow(f - kept)
  {
    if f <= DECIMALS {
      MulPow(m, f - kept, DECIMALS - f);
    } else {
      MulPow(m, DECIMALS - kept, f - DECIMALS);
    }
  }

  lemma KeptReading(negative: bool, m: nat, f: int, kept: nat)
    requires kept <= f && kept <= DECIMALS
    ensures IsWei(Reading(negative, m * Radix.Decimal.Pow(f - kept), -f),
                  Signed(negative, m * Radix.Decimal.Pow(DECIMALS - kept)))
  {
    KeptMagnitude(m, f, kept);
  }

  /** With at most 18 decimals left after stripping, the parts denote their wei. */
  lemma KeptParts(parts: Parts)
    requires WellFormed(parts) && |StripZeros(parts.fraction)| <= DECIMALS
    ensures IsWei(ReadParts(parts, 0), FromParts(parts).value)
  {
    var stripped := StripZeros(parts.fraction);
    DigitsOf(parts.whole, parts.fraction);
    MagnitudeOf(parts.whole, stripped);
    KeptReading(parts.negative, Radix.Decimal.Parse(parts.whole + stripped), |parts.fraction|, |stripped|);
  }

  lemma NotAMultiple(v: nat, m: nat, a: nat)
    requires a >= 1 && m % 10 != 0
    ensures v * Radix.Decimal.Pow(a) != m
  {
    var p := Radix.Decimal.Pow(a - 1);
    assert v * (10 * p) == 10 * (v * p);
  }

  lemma KeptDigit(parts: Parts)
    requires WellFormed(parts) && StripZeros(parts.fraction) != ""
    ensures Radix.Decimal.Parse(parts.whole + StripZeros(parts.fraction)) % 10 != 0
  {
    var stripped := StripZeros(parts.fraction);
    assert stripped == parts.fraction[..|stripped|];
    LastDigit(parts.whole + stripped);
  }

  /** With more than 18 decimals left after stripping, no integer is the number times 10^18. */
  lemma LostParts(parts: Parts, w: int)
    requires WellFormed(parts) && |StripZeros(parts.fraction)| > DECIMALS
    ensures !IsWei(ReadParts(parts, 0), w)
  {
    var f, kept := |parts.fraction|, |StripZeros(parts.fraction)|;
    var m := Radix.Decimal.Parse(parts.whole + StripZeros(parts.fraction));
    DigitsOf(parts.whole, parts.fraction);
    KeptDigit(parts);
    NotAMultiple(Abs(w), m, kept - DECIMALS);
    MulPow(Abs(w), kept - DECIMALS, f - kept);
    if Abs(w) * Radix.Decimal.Pow(f - DECIMALS) == m * Radix.Decimal.Pow(f - kept) {
      MulCancel(Abs(w) * Radix.Decimal.Pow(kept - DECIMALS), m, Radix.Decimal.Pow(f - kept));
      assert false;
    }
  }

  lemma WeiIsUnique(r: Reading, v: int, w: int)
    requires IsWei(r, v) && IsWei(r, w)
    ensures v == w
  {
    MulCancel(Abs(v), Abs(w), Pow10(-(r.power + DECIMALS)));
  }

  /** The parts of the text that expandExponent writes. */
  function Shifted(parts: Parts, exponent: int): Parts {
    var digits := parts.whole + parts.fraction;
    var point := |parts.whole| + exponent;
    if point <= 0 then Parts(parts.negative, "0", Zeros(-point) + digits)
    else if point >= |digits| then Parts(parts.negative, digits + Zeros(point - |digits|), "")
    else Parts(parts.negative, digits[..point], digits[point..])
  }

  lemma ShiftedTextOf(parts: Parts, exponent: int)
    requires WellFormed(parts)
    ensures ShiftedText(parts, exponent) == Text(Shifted(parts, exponent))
    ensures WellFormed(Shifted(parts, exponent))
  {
    var digits := parts.whole + parts.fraction;
    var point := |parts.whole| + exponent;
    var sign := Sign(parts.negative);
    if point <= 0 {
      assert sign + "0." + Zeros(-point) + digits == sign + ("0" + ("." + (Zeros(-point) + digits)));
    }
  }

  lemma ShiftKeepsNumber(parts: Parts, exponent: int)
    ensures SameNumber(ReadParts(parts, exponent), ReadParts(Shifted(parts, exponent), 0))
  {
    var digits := parts.whole + parts.fraction;
    var point := |parts.whole| + exponent;
    var shifted := Shifted(parts, exponent);
    if point <= 0 {
      assert shifted.whole + shifted.fraction == Zeros(1 - point) + digits;
      LeadingZeros(1 - point, digits);
    } else if point >= |digits| {
      assert shifted.whole + shifted.fraction == digits + Zeros(point - |digits|);
      ParseWithZeros(Radix.Decimal, digits, point - |digits|);
    } else {
      assert shifted.whole + shifted.fraction == digits;
    }
  }

  /** expandExponent yields plain decimal text that denotes the same number. */
  lemma ExpansionKeepsNumber(text: string)
    requires Read(text).Some? && ExponentInRange(text)
    ensures ExpandExponent(text).Ok?
    ensures var plain := ExpandExponent(text).value;
            && MatchDecimal(plain).Some?
            && WellFormed(MatchDecimal(plain).value)
            && SameNumber(Read(text).value, ReadParts(MatchDecimal(plain).value, 0))
  {
    match MatchExponent(text)
    case Some((parts, exponent)) =>
      PartsOfExponent(text);
      ShiftedTextOf(parts, exponent);
      MatchText(Shifted(parts, exponent));
      ShiftKeepsNumber(parts, exponent);
    case None =>
      TextOfMatch(text);
  }

  lemma LeadingZeros(n: nat, s: string)
    ensures Radix.Decimal.Parse(Zeros(n) + s) == Radix.Decimal.Parse(s)
  {
    ParseConcat(Radix.Decimal, Zeros(n), s);
    ParseZeros(Radix.Decimal, n);
  }

  /** Texts of one number have the same wei. */
  lemma SameNumberSameWei(r: Reading, s: Reading, w: int)
    requires SameNumber(r, s)
    ensures IsWei(r, w) <==> IsWei(s, w)
  {
    if r.power >= s.power {
      ShiftedWei(r, s, w);
    } else {
      ShiftedWei(s, r, w);
    }
  }

  lemma ShiftedWei(r: Reading, s: Reading, w: int)
    requires SameNumber(r, s) && r.power >= s.power
    ensures IsWei(r, w) <==> IsWei(s, w)
  {
    var d := r.power - s.power;
    var rp, sp := r.power + DECIMALS, s.power + DECIMALS;
    assert s.digits == r.digits * Pow10(d);
    if sp >= 0 {
      MulPow(r.digits, d, sp);
      assert Pow10(d) == Radix.Decimal.Pow(d) && Pow10(sp) == Radix.Decimal.Pow(sp);
    } else if rp >= 0 {
      MulPow(r.digits, rp, -sp);
      assert Pow10(rp) == Radix.Decimal.Pow(rp) && Pow10(-sp) == Radix.Decimal.Pow(-sp);
      if Abs(w) * Pow10(-sp) == s.digits {
        MulCancel(Abs(w), r.digits * Radix.Decimal.Pow(rp), Radix.Decimal.Pow(-sp));
      }
    } else {
      MulPow(Abs(w), -rp, d);
      assert Pow10(-rp) == Radix.Decimal.Pow(-rp) && Pow10(d) == Radix.Decimal.Pow(d);
      if Abs(w) * Pow10(-sp) == s.digits {
        MulCancel(Abs(w) * Radix.Decimal.Pow(-rp), r.digits, Radix.Decimal.Pow(d));
      }
    }
  }

  lemma PartsAreExact(parts: Parts, r: Reading)
    requires WellFormed(parts) && SameNumber(r, ReadParts(parts, 0))
    ensures FromParts(parts).Ok? <==> exists w :: IsWei(r, w)
    ensures FromParts(parts).Ok? ==> IsWei(r, FromParts(parts).value)
  {
    var s := ReadParts(parts, 0);
    if |StripZeros(parts.fraction)| <= DECIMALS {
      KeptParts(parts);
      SameNumberSameWei(r, s, FromParts(parts).value);
    } else {
      forall w
        ensures !IsWei(r, w)
      {
        LostParts(parts, w);
        SameNumberSameWei(r, s, w);
      }
    }
  }

  /**
   Parsing is exact: on decimal text, or exponent text within the expanded range, it accepts
   precisely when the number times 10^18 is an integer, and returns that integer. Everything else
   is rejected.
   */
  lemma ParsingIsExact(text: string)
    ensures Read(text).None? || !ExponentInRange(text) ==> From(text).Err?
    ensures Read(text).Some? && ExponentInRange(text) ==>
              (From(text).Ok? <==> exists w :: IsWei(Read(text).value, w))
    ensures From(text).Ok? ==> IsWei(Read(text).value, From(text).value)
  {
    if Read(text).Some? && ExponentInRange(text) {
      ExpansionKeepsNumber(text);
      var parts := MatchDecimal(ExpandExponent(text).value).value;
      assert From(text) == FromParts(parts);
      PartsAreExact(parts, Read(text).value);
    }
  }

  // ---------------------------------------------------------------------------------------------
  // Printing
  // ---------------------------------------------------------------------------------------------

  function FractionDigits(wei: int): (s: string)
    ensures AreDigits(s) && |s| >= DECIMALS
  {
    ParsePadStart(Radix.Decimal, Radix.Decimal.Print(Abs(wei) % SCALE), DECIMALS);
    PadStart(Radix.Decimal.Print(Abs(wei) % SCALE), DECIMALS)
  }

  function Whole(wei: int): string {
    Radix.Decimal.Print(Abs(wei) / SCALE)
  }

  function ToPlain(wei: int): string {
    var fraction := StripZeros(FractionDigits(wei));
    Sign(wei < 0) + Whole(wei) + if fraction == "" then "" else "." + fraction
  }

  /** toString; `plain.includes('.')` is whether toPlain printed a fraction. */
  function ToString(wei: int): string {
    var plain := ToPlain(wei);
    if '.' in plain then plain else plain + ".0"
  }

  function ToFixed(wei: int): string {
    Sign(wei < 0) + Whole(wei) + "." + FractionDigits(wei)
  }

  lemma FractionWidth(wei: int)
    ensures |FractionDigits(wei)| == DECIMALS
    ensures Radix.Decimal.Parse(FractionDigits(wei)) == Abs(wei) % SCALE
  {
    Scale18();
    FixedWidth(Radix.Decimal, Abs(wei) % SCALE, DECIMALS);
  }

  /** Any text with the printed whole part and fraction, zeros aside, parses to the amount. */
  lemma PrintedParts(wei: int, fraction: string)
    requires StripZeros(fraction) == StripZeros(FractionDigits(wei))
    ensures FromParts(Parts(wei < 0, Whole(wei), fraction)) == Ok(wei)
  {
    FractionWidth(wei);
    PadStripped(FractionDigits(wei));
    ParsePrint(Radix.Decimal, Abs(wei) / SCALE);
    Recombine(Abs(wei));
  }

  lemma PadStripped(s: string)
    requires |s| == DECIMALS
    ensures PadEnd(StripZeros(s), DECIMALS) == s
  {
    StrippedZeros(s);
    assert s + Zeros(0) == s;
  }

  lemma Recombine(n: nat)
    ensures (n / SCALE) * SCALE + n % SCALE == n
  {
  }

  lemma PrintedText(wei: int, fraction: string)
    requires AreDigits(fraction) && StripZeros(fraction) == StripZeros(FractionDigits(wei))
    ensures From(Text(Parts(wei < 0, Whole(wei), fraction))) == Ok(wei)
  {
    PrintedParts(wei, fraction);
    FromText(Parts(wei < 0, Whole(wei), fraction));
  }

  lemma PlainText(wei: int)
    ensures ToPlain(wei) == Text(Parts(wei < 0, Whole(wei), StripZeros(FractionDigits(wei))))
    ensures AreDigits(StripZeros(FractionDigits(wei)))
    ensures StripZeros(StripZeros(FractionDigits(wei))) == StripZeros(FractionDigits(wei))
  {
    var stripped := StripZeros(FractionDigits(wei));
    assert stripped == FractionDigits(wei)[..|stripped|];
  }

  lemma DotInPlain(wei: int)
    ensures '.' in ToPlain(wei) <==> StripZeros(FractionDigits(wei)) != ""
  {
    var fraction := StripZeros(FractionDigits(wei));
    var front := Sign(wei < 0) + Whole(wei);
    assert forall i | 0 <= i < |Whole(wei)| :: Radix.Decimal.IsDigit(Whole(wei)[i]);
    assert forall i | 0 <= i < |front| :: front[i] != '.';
    if fraction != "" {
      assert ToPlain(wei)[|front|] == '.';
    } else {
      assert ToPlain(wei) == front;
    }
  }

  lemma StringText(wei: int)
    ensures var stripped := StripZeros(FractionDigits(wei));
            ToString(wei) == Text(Parts(wei < 0, Whole(wei), if stripped == "" then "0" else stripped))
  {
    PlainText(wei);
    DotInPlain(wei);
  }

  lemma FixedText(wei: int)
    ensures ToFixed(wei) == Text(Parts(wei < 0, Whole(wei), FractionDigits(wei)))
  {
  }

  /** A whole part without leading zeros. */
  predicate IsWhole(whole: string) {
    AreDigits(whole) && |whole| > 0 && (|whole| > 1 ==> whole[0] != '0')
  }

  lemma {:induction false} PrintHasNoZeros(n: nat)
    ensures IsWhole(Radix.Decimal.Print(n))
  {
  }

  /**
   The printed forms: the sign, the whole part, and a fraction; toString keeps one digit of it and no
   zero after that, toFixed prints eighteen.
   */
  lemma PrintedShapes(wei: int) returns (whole: string, fraction: string, all: string)
    ensures IsWhole(whole) && AreDigits(fraction) && AreDigits(all) && |all| == 18
    ensures |fraction| >= 1 && (|fraction| > 1 ==> fraction[|fraction| - 1] != '0')
    ensures ToString(wei) == (if wei < 0 then "-" else "") + (whole + ("." + fraction))
    ensures ToFixed(wei) == (if wei < 0 then "-" else "") + (whole + ("." + all))
  {
    var stripped := StripZeros(FractionDigits(wei));
    PlainText(wei);
    StringText(wei);
    FixedText(wei);
    FractionWidth(wei);
    PrintHasNoZeros(Abs(wei) / SCALE);
    whole, fraction, all := Whole(wei), if stripped == "" then "0" else stripped, FractionDigits(wei);
  }

  /** All three printed forms of any amount parse back to it. */
  lemma PrintingRoundTrips(wei: int)
    ensures From(ToPlain(wei)) == Ok(wei)
    ensures From(ToString(wei)) == Ok(wei)
    ensures From(ToFixed(wei)) == Ok(wei)
  {
    PlainRoundTrips(wei);
    StringRoundTrips(wei);
    FixedText(wei);
    PrintedText(wei, FractionDigits(wei));
  }

  lemma PlainRoundTrips(wei: int)
    ensures From(ToPlain(wei)) == Ok(wei)
  {
    PlainText(wei);
    PrintedText(wei, StripZeros(FractionDigits(wei)));
  }

  lemma StringRoundTrips(wei: int)
    ensures From(ToString(wei)) == Ok(wei)
  {
    var stripped := StripZeros(FractionDigits(wei));
    PlainText(wei);
    StringText(wei);
    if stripped == "" {
      assert StripZeros("0") == StripZeros("0"[..0]) == "";
      PrintedText(wei, "0");
    } else {
      PrintedText(wei, stripped);
    }
  }

  lemma {:induction false} StripPadded(s: string, n: nat)
    requires |s| > 0 ==> s[|s| - 1] != '0'
    ensures StripZeros(s + Zeros(n)) == s
  {
    if n == 0 {
      assert s + Zeros(0) == s;
    } else {
      assert (s + Zeros(n))[..|s| + n - 1] == s + Zeros(n - 1);
      StripPadded(s, n - 1);
    }
  }

  /** The whole part and the padded fraction of parts are those of the amount they parse to. */
  lemma PartsOfWei(parts: Parts, wei: int)
    requires WellFormed(parts) && FromParts(parts) == Ok(wei)
    ensures Radix.Decimal.Parse(parts.whole) == Abs(wei) / SCALE
    ensures StripZeros(FractionDigits(wei)) == StripZeros(parts.fraction)
    ensures wei < 0 ==> parts.negative
  {
    hide PadEnd, FractionDigits, StripZeros;
    var fraction := StripZeros(parts.fraction);
    var padded := PadEnd(fraction, DECIMALS);
    PaddedDigits(parts.fraction);
    ParseBelow(Radix.Decimal, padded);
    Scale18();
    Divide(Abs(wei), Radix.Decimal.Parse(parts.whole), Radix.Decimal.Parse(padded));
    FractionWidth(wei);
    ParseInjective(Radix.Decimal, padded, FractionDigits(wei));
    StripPadded(fraction, DECIMALS - |fraction|);
  }

  lemma PaddedDigits(fraction: string)
    requires AreDigits(fraction) && |StripZeros(fraction)| <= DECIMALS
    ensures var stripped := StripZeros(fraction);
            && AreDigits(PadEnd(stripped, DECIMALS))
            && PadEnd(stripped, DECIMALS) == stripped + Zeros(DECIMALS - |stripped|)
  {
    var stripped := StripZeros(fraction);
    assert stripped == fraction[..|stripped|];
    assert stripped + Zeros(0) == stripped;
  }

  lemma Divide(n: nat, q: nat, r: nat)
    requires n == q * SCALE + r && r < SCALE
    ensures n / SCALE == q && n % SCALE == r
  {
  }

  /** toPlain is the shortest plain decimal text of its amount. */
  lemma PlainIsShortest(text: string, wei: int)
    requires MatchDecimal(text).Some? && From(text) == Ok(wei)
    ensures |ToPlain(wei)| <= |text|
  {
    var parts := MatchDecimal(text).value;
    TextOfMatch(text);
    FromText(parts);
    PartsOfWei(parts, wei);
    PrintShortest(Radix.Decimal, parts.whole);
    PlainText(wei);
    PlainLength(parts, Parts(wei < 0, Whole(wei), StripZeros(parts.fraction)));
  }

  lemma PlainLength(longer: Parts, shorter: Parts)
    requires shorter.negative ==> longer.negative
    requires |shorter.whole| <= |longer.whole| && |shorter.fraction| <= |longer.fraction|
    ensures |Text(shorter)| <= |Text(longer)|
  {
  }

  // ---------------------------------------------------------------------------------------------
  // Sums
  // ---------------------------------------------------------------------------------------------

  function WeiOf(read: string -> Result<int, AmountError>, text: string): int {
    var wei := read(text);
    if wei.Ok? then wei.value else 0
  }

  /** The sum of what a reader makes of each text. */
  function Total(read: string -> Result<int, AmountError>, values: seq<string>): int {
    if |values| == 0 then 0 else Total(read, values[..|values| - 1]) + WeiOf(read, values[|values| - 1])
  }

  /** One amount more; nothing adds up to zero. */
  lemma TotalOfOneMore(values: seq<string>, text: string)
    ensures Total(From, []) == 0
    ensures From(text).Ok? ==> Total(From, values + [text]) == Total(From, values) + From(text).value
  {
    assert (values + [text])[..|values|] == values;
  }

  method Accumulate(read: string -> Result<int, AmountError>, values: seq<string>)
      returns (total: Result<int, AmountError>)
    ensures total.Ok? <==> forall i | 0 <= i < |values| :: read(values[i]).Ok?
    ensures total.Ok? ==> total.value == Total(read, values)
    ensures total.Err? ==>
              exists k | 0 <= k < |values| :: read(values[k]) == total && forall i | 0 <= i < k :: read(values[i]).Ok?
  {
    var sum := 0;
    for k := 0 to |values|
      invariant forall i | 0 <= i < k :: read(values[i]).Ok?
      invariant sum == Total(read, values[..k])
    {
      var wei := read(values[k]);
      if wei.Err? {
        return wei;
      }
      assert values[..k + 1][..k] == values[..k];
      sum := sum + wei.value;
    }
    assert values[..|values|] == values;
    return Ok(sum);
  }

  /** Amount.sum: adds the amounts of all texts, or throws at the first that is not one. */
  method Sum(values: seq<string>) returns (total: Result<int, AmountError>)
    ensures total.Ok? <==> forall i | 0 <= i < |values| :: From(values[i]).Ok?
    ensures total.Ok? ==> total.value == Total(From, values)
    ensures total.Err? ==>
              exists k | 0 <= k < |values| :: From(values[k]) == total && forall i | 0 <= i < k :: From(values[i]).Ok?
  {
    total := Accumulate(From, values);
  }

  // ---------------------------------------------------------------------------------------------
  // Arithmetic
  // ---------------------------------------------------------------------------------------------

  /** What is left after taking `other`: a subtraction that stops at zero. */
  function MinusFloored(wei: int, other: int): (left: int)
    ensures left >= 0
    ensures left + other >= wei && (left == 0 || left + other == wei)
    ensures wei >= 0 && other >= 0 ==> left + Min(wei, other) == wei
  {
    if wei - other > 0 then wei - other else 0
  }

  /** BigInt division: truncation toward zero, where Dafny's own operator is Euclidean. */
  function Truncated(n: int, d: int): (q: int)
    requires d != 0
  {
    var q := Abs(n) / Abs(d);
    if (n < 0) == (d < 0) then q else -q
  }

  /** this * numerator / denominator; None is the RangeError of a division by zero. */
  function MulDiv(wei: int, numerator: int, denominator: int): Option<int> {
    if denominator == 0 then None else Some(Truncated(wei * numerator, denominator))
  }

  /** mulDiv drops less than one unit, always toward zero. */
  lemma MulDivTruncates(wei: int, numerator: int, denominator: int)
    requires denominator != 0
    ensures var q := MulDiv(wei, numerator, denominator).value;
            var lost := wei * numerator - q * denominator;
            && Abs(lost) < Abs(denominator)
            && (lost != 0 ==> (lost < 0 <==> wei * numerator < 0))
  {
    TruncationLoss(wei * numerator, denominator);
  }

  lemma TruncationLoss(n: int, d: int)
    requires d != 0
    ensures n - Truncated(n, d) * d == Signed(n < 0, Abs(n) % Abs(d))
  {
    DivMod(Abs(n), Abs(d));
    SignedLoss(n, d, Abs(n) / Abs(d), Abs(n) % Abs(d));
  }

  lemma DivMod(n: nat, d: nat)
    requires d > 0
    ensures n == (n / d) * d + n % d
  {
  }

  lemma SignedLoss(n: int, d: int, q: int, r: int)
    requires Abs(n) == q * Abs(d) + r
    ensures n - (if (n < 0) == (d < 0) then q else -q) * d == Signed(n < 0, r)
  {
    assert (-q) * d == q * (-d) == -(q * d);
  }
}
