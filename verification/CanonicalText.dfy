/** The canonical text of a body, character by character, in terms of the value alone. */
module CanonicalText {
  import opened CanonicalJson

  function Ascii(s: string): (t: Text)
    requires forall i | 0 <= i < |s| :: s[i] < 128 as char
    ensures |t| == |s| && forall i | 0 <= i < |s| :: t[i] as int == s[i] as int
  {
    seq(|s|, i requires 0 <= i < |s| => s[i] as CodeUnit)
  }

  /** The texts with commas between them. */
  function Separated(texts: seq<Text>): Text {
    if |texts| == 0 then []
    else if |texts| == 1 then texts[0]
    else Separated(texts[..|texts| - 1]) + Ascii(",") + texts[|texts| - 1]
  }

  /** The smaller key: a proper prefix, or the smaller code unit where they first differ. */
  ghost predicate ComesFirst(a: Text, b: Text) {
    || a < b
    || exists k: nat :: k < |a| && k < |b| && a[..k] == b[..k] && a[k] < b[k]
  }

  lemma {:induction false} BeforeIff(a: Text, b: Text)
    ensures Before(a, b) <==> ComesFirst(a, b)
  {
    forall k | 0 < k <= |a| && k <= |b| && a[..k] == b[..k]
      ensures a[0] == b[0]
    {
      assert a[..k][0] == b[..k][0];
    }
    if |a| > 0 && |b| > 0 && a[0] == b[0] {
      BeforeIff(a[1..], b[1..]);
      assert a == [a[0]] + a[1..] && b == [b[0]] + b[1..];
      if k: nat :| k < |a[1..]| && k < |b[1..]| && a[1..][..k] == b[1..][..k] && a[1..][k] < b[1..][k] {
        assert a[..k + 1] == [a[0]] + a[1..][..k] && b[..k + 1] == [b[0]] + b[1..][..k];
        assert a[k + 1] < b[k + 1];
      }
      if k: nat :| k < |a| && k < |b| && a[..k] == b[..k] && a[k] < b[k] {
        assert a[1..][..k - 1] == a[..k][1..] && b[1..][..k - 1] == b[..k][1..];
        assert a[1..][k - 1] < b[1..][k - 1];
      }
    } else if |a| > 0 && |b| > 0 {
      assert a[0] < b[0] ==> a[..0] == b[..0];
    }
  }

  // ---------------------------------------------------------------------------------------------
  // Arrays
  // ---------------------------------------------------------------------------------------------

  function TextsOf(items: seq<Json>): (texts: seq<Text>)
    ensures |texts| == |items| && forall i | 0 <= i < |items| :: texts[i] == Canonical(items[i])
  {
    seq(|items|, i requires 0 <= i < |items| => Canonical(items[i]))
  }

  lemma {:induction false} JoinIsSeparated(texts: seq<Text>)
    ensures Join(texts) == Separated(texts)
  {
    if |texts| > 1 {
      var n := |texts| - 1;
      JoinIsSeparated(texts[..n]);
      JoinSnoc(texts[..n], texts[n]);
      assert texts == texts[..n] + [texts[n]] && Ascii(",") == [COMMA];
    }
  }

  lemma {:induction false} JoinSnoc(texts: seq<Text>, last: Text)
    requires |texts| > 0
    ensures Join(texts + [last]) == Join(texts) + [COMMA] + last
  {
    if |texts| == 1 {
      assert (texts + [last])[1..] == [last];
    } else {
      JoinSnoc(texts[1..], last);
      assert (texts + [last])[1..] == texts[1..] + [last];
    }
  }

  lemma {:induction false} ItemsAreTexts(items: seq<Json>)
    ensures CanonicalItems(items) == TextsOf(items)
  {
    if |items| > 0 {
      ItemsAreTexts(items[1..]);
      assert TextsOf(items) == [Canonical(items[0])] + TextsOf(items[1..]);
    }
  }

  // ---------------------------------------------------------------------------------------------
  // Objects
  // ---------------------------------------------------------------------------------------------

  function EntryTexts(ms: seq<Keyed<Json>>): (texts: seq<Text>)
    ensures |texts| == |ms|
    ensures forall i | 0 <= i < |ms| :: texts[i] == Quote(ms[i].key) + Ascii(":") + Canonical(ms[i].value)
  {
    seq(|ms|, i requires 0 <= i < |ms| => Quote(ms[i].key) + Ascii(":") + Canonical(ms[i].value))
  }

  function Sorted(ms: seq<Keyed<Json>>): seq<Keyed<Json>> {
    if |ms| == 0 then [] else Insert(ms[0], Sorted(ms[1..]))
  }

  lemma {:induction false} SortedIs(ms: seq<Keyed<Json>>)
    requires DistinctKeys(ms)
    ensures IsSorted(Sorted(ms)) && |Sorted(ms)| == |ms| && forall e :: e in Sorted(ms) <==> e in ms
  {
    if |ms| > 0 {
      SortedIs(ms[1..]);
      assert ms == [ms[0]] + ms[1..];
      forall k | 0 <= k < |Sorted(ms[1..])|
        ensures Sorted(ms[1..])[k].key != ms[0].key
      {
        assert Sorted(ms[1..])[k] in ms[1..];
      }
      InsertKeepsSorted(ms[0], Sorted(ms[1..]));
      InsertAddsOne(ms[0], Sorted(ms[1..]));
    }
  }

  lemma {:induction false} InsertAddsOne<T>(m: Keyed<T>, ms: seq<Keyed<T>>)
    ensures |Insert(m, ms)| == |ms| + 1
  {
    if |ms| > 0 && !CanonicalJson.Before(m.key, ms[0].key) {
      InsertAddsOne(m, ms[1..]);
    }
  }

  function AllCanonical(ms: seq<Keyed<Json>>): (r: seq<Keyed<Text>>)
    ensures |r| == |ms| && forall i | 0 <= i < |ms| :: r[i] == CanonicalMember(ms[i])
  {
    seq(|ms|, i requires 0 <= i < |ms| => CanonicalMember(ms[i]))
  }

  lemma {:induction false} InsertMapped(m: Keyed<Json>, ms: seq<Keyed<Json>>)
    ensures Insert(CanonicalMember(m), AllCanonical(ms)) == AllCanonical(Insert(m, ms))
  {
    if |ms| > 0 {
      assert AllCanonical(ms)[1..] == AllCanonical(ms[1..]);
      InsertMapped(m, ms[1..]);
      var rest := Insert(m, ms[1..]);
      assert AllCanonical([ms[0]] + rest) == [CanonicalMember(ms[0])] + AllCanonical(rest);
      assert AllCanonical([m] + ms) == [CanonicalMember(m)] + AllCanonical(ms);
    }
  }

  lemma {:induction false} MembersAreSorted(ms: seq<Keyed<Json>>)
    ensures CanonicalMembers(ms) == AllCanonical(Sorted(ms))
  {
    if |ms| > 0 {
      MembersAreSorted(ms[1..]);
      InsertMapped(ms[0], Sorted(ms[1..]));
    }
  }

  lemma {:induction false} EntriesAreTexts(ms: seq<Keyed<Json>>)
    ensures Entries(AllCanonical(ms)) == EntryTexts(ms)
  {
    if |ms| > 0 {
      EntriesAreTexts(ms[1..]);
      assert AllCanonical(ms)[1..] == AllCanonical(ms[1..]);
      assert EntryTexts(ms) == [EntryTexts(ms)[0]] + EntryTexts(ms[1..]);
      assert Ascii(":") == [COLON];
    }
  }

  // ---------------------------------------------------------------------------------------------
  // The text
  // ---------------------------------------------------------------------------------------------

  /** The members of an object, each once, by ascending keys. */
  ghost predicate IsByKey(sorted: seq<Keyed<Json>>, ms: seq<Keyed<Json>>) {
    && |sorted| == |ms| && (forall e :: e in sorted <==> e in ms)
    && forall i, j | 0 <= i < j < |sorted| :: ComesFirst(sorted[i].key, sorted[j].key)
  }

  lemma ObjectText(ms: seq<Keyed<Json>>) returns (sorted: seq<Keyed<Json>>)
    requires DistinctKeys(ms)
    ensures IsByKey(sorted, ms)
    ensures Canonical(Object(ms)) == Ascii("{") + Separated(EntryTexts(sorted)) + Ascii("}")
  {
    sorted := Sorted(ms);
    SortedIs(ms);
    forall i, j | 0 <= i < j < |sorted|
      ensures ComesFirst(sorted[i].key, sorted[j].key)
    {
      BeforeIff(sorted[i].key, sorted[j].key);
    }
    MembersAreSorted(ms);
    EntriesAreTexts(sorted);
    JoinIsSeparated(EntryTexts(sorted));
    assert Ascii("{") == [OPEN_OBJECT] && Ascii("}") == [CLOSE_OBJECT];
  }

  /** The text of a value: its parts in brackets with commas, an object's members by ascending keys. */
  lemma TextIs(v: Json)
    requires WellFormed(v)
    ensures match v
            case Null => Canonical(v) == Ascii("null")
            case Bool(flag) => Canonical(v) == if flag then Ascii("true") else Ascii("false")
            case Number(printed) => Canonical(v) == printed
            case String(units) => Canonical(v) == Quote(units)
            case Array(items) => Canonical(v) == Ascii("[") + Separated(TextsOf(items)) + Ascii("]")
            case Object(ms) =>
              exists sorted :: IsByKey(sorted, ms)
                && Canonical(v) == Ascii("{") + Separated(EntryTexts(sorted)) + Ascii("}")
  {
    match v
    case Array(items) =>
      ItemsAreTexts(items);
      JoinIsSeparated(TextsOf(items));
      assert Ascii("[") == [OPEN_ARRAY] && Ascii("]") == [CLOSE_ARRAY];
    case Object(ms) =>
      var sorted := ObjectText(ms);
    case Null => assert Ascii("null") == NULL_TEXT;
    case Bool(flag) => assert Ascii("true") == TRUE_TEXT && Ascii("false") == FALSE_TEXT;
    case _ =>
  }

  // ---------------------------------------------------------------------------------------------
  // Strings
  // ---------------------------------------------------------------------------------------------

  const DIGITS: string := "0123456789abcdef"

  /** The code unit in four hex digits. */
  function FourDigits(c: CodeUnit): Text {
    Ascii([DIGITS[c as int / 4096], DIGITS[c as int / 256 % 16], DIGITS[c as int / 16 % 16], DIGITS[c as int % 16]])
  }

  /** A code unit on its own: the two-character escapes, \u for other controls and lone surrogates. */
  function UnitText(c: CodeUnit): Text {
    match c as int
    case 34 => Ascii("\\\"")
    case 92 => Ascii("\\\\")
    case 8 => Ascii("\\b")
    case 9 => Ascii("\\t")
    case 10 => Ascii("\\n")
    case 12 => Ascii("\\f")
    case 13 => Ascii("\\r")
    case _ => if c < 32 || 0xD800 <= c <= 0xDFFF then Ascii("\\u") + FourDigits(c) else [c]
  }

  /** The units of a string, surrogate pairs as they are. */
  function Units(s: Text): Text
    decreases |s|
  {
    if |s| == 0 then []
    else if |s| > 1 && 0xD800 <= s[0] <= 0xDBFF && 0xDC00 <= s[1] <= 0xDFFF then s[..2] + Units(s[2..])
    else UnitText(s[0]) + Units(s[1..])
  }

  lemma DigitIs(v: CodeUnit)
    requires v < 16
    ensures HexDigit(v) as int == DIGITS[v] as int
  {
  }

  lemma Quarters(c: int)
    requires 0 <= c < 65536
    ensures c / 16 / 16 / 16 == c / 4096 < 16 && c / 16 / 16 % 16 == c / 256 % 16
  {
  }

  lemma HexIs(c: CodeUnit)
    ensures UnicodeEscape(c) == Ascii("\\u") + FourDigits(c)
  {
    var letters := [DIGITS[c as int / 4096], DIGITS[c as int / 256 % 16], DIGITS[c as int / 16 % 16],
                    DIGITS[c as int % 16]];
    Quarters(c as int);
    DigitIs(c / 16 / 16 / 16);
    DigitIs(c / 16 / 16 % 16);
    DigitIs(c / 16 % 16);
    DigitIs(c % 16);
    assert Ascii("\\u") == [92, 117];
    assert FourDigits(c) == Ascii(letters);
  }

  lemma UnitIs(c: CodeUnit)
    ensures EscapeUnit(c) == UnitText(c)
  {
    hide UnicodeEscape, FourDigits;
    assert Ascii("\\\"") == [92, 34] && Ascii("\\\\") == [92, 92] && Ascii("\\b") == [92, 98];
    assert Ascii("\\t") == [92, 116] && Ascii("\\n") == [92, 110] && Ascii("\\f") == [92, 102];
    assert Ascii("\\r") == [92, 114];
    HexIs(c);
  }

  lemma PairThen(s: Text, tail: Text, rest: Text)
    requires |s| > 1
    ensures s[..2] + tail + rest == [s[0]] + ([s[1]] + (tail + rest)) && s[1..][1..] == s[2..] && s[1..][0] == s[1]
  {
  }

  lemma {:induction false} UnitsAre(s: Text, rest: Text)
    ensures Escape(false, s, rest) == Units(s) + rest
    decreases |s|
  {
    hide EscapeUnit, UnitText;
    if |s| > 1 && 0xD800 <= s[0] <= 0xDBFF && 0xDC00 <= s[1] <= 0xDFFF {
      UnitsAre(s[2..], rest);
      PairThen(s, Units(s[2..]), rest);
    } else if |s| > 0 {
      UnitsAre(s[1..], rest);
      UnitIs(s[0]);
      Associate(UnitText(s[0]), Units(s[1..]), rest);
    }
  }

  lemma Associate(a: Text, b: Text, c: Text)
    ensures a + b + c == a + (b + c)
  {
  }

  /** A quoted string, character by character. */
  lemma QuoteIs(s: Text)
    ensures Quote(s) == Ascii("\"") + Units(s) + Ascii("\"")
  {
    UnitsAre(s, [QUOTE]);
    assert Ascii("\"") == [QUOTE];
  }
}
