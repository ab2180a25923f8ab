/**
 The text that request bodies are hashed by: JSON with the keys of every object sorted, so that
 the order of properties does not change the hash. Text is a sequence of UTF-16 code units.
 */
module CanonicalJson {

  newtype CodeUnit = x: int | 0 <= x < 65536

  type Text = seq<CodeUnit>

  const QUOTE: CodeUnit := 34
  const COMMA: CodeUnit := 44
  const COLON: CodeUnit := 58
  const BACKSLASH: CodeUnit := 92
  const OPEN_ARRAY: CodeUnit := 91
  const CLOSE_ARRAY: CodeUnit := 93
  const OPEN_OBJECT: CodeUnit := 123
  const CLOSE_OBJECT: CodeUnit := 125
  const LETTER_U: CodeUnit := 117

  const NULL_TEXT: Text := [110, 117, 108, 108]
  const TRUE_TEXT: Text := [116, 114, 117, 101]
  const FALSE_TEXT: Text := [102, 97, 108, 115, 101]

  datatype Keyed<T> = Keyed(key: Text, value: T)

  /** A parsed body. A number is represented by the text JavaScript prints it as. */
  datatype Json =
    | Null
    | Bool(flag: bool)
    | Number(printed: Text)
    | String(units: Text)
    | Array(items: seq<Json>)
    | Object(members: seq<Keyed<Json>>)

  predicate IsNumberUnit(c: CodeUnit) {
    48 <= c <= 57 || c == 43 || c == 45 || c == 46 || c == 101
  }

  predicate IsNumberText(t: Text) {
    |t| > 0 && (t[0] == 45 || 48 <= t[0] <= 57) && forall i | 0 <= i < |t| :: IsNumberUnit(t[i])
  }

  predicate DistinctKeys<T>(ms: seq<Keyed<T>>) {
    forall i, j | 0 <= i < j < |ms| :: ms[i].key != ms[j].key
  }

  /** What JSON.parse can return: printable numbers, and objects without repeated keys. */
  predicate WellFormed(v: Json) {
    match v
    case Number(t) => IsNumberText(t)
    case Array(items) => forall i | 0 <= i < |items| :: WellFormed(items[i])
    case Object(ms) => DistinctKeys(ms) && forall i | 0 <= i < |ms| :: WellFormed(ms[i].value)
    case _ => true
  }

  /** Equal once the keys of every object, at every depth, may be listed in another order. */
  ghost predicate SameUpToKeyOrder(v: Json, w: Json)
    decreases v
  {
    match (v, w)
    case (Array(a), Array(b)) =>
      |a| == |b| && forall i | 0 <= i < |a| :: SameUpToKeyOrder(a[i], b[i])
    case (Object(a), Object(b)) =>
      && (forall i | 0 <= i < |a| :: ReachesSecond(a[i], b))
      && (forall j | 0 <= j < |b| :: ReachesFirst(a, b[j]))
    case (_, _) => v == w
  }

  ghost predicate ReachesSecond(m: Keyed<Json>, b: seq<Keyed<Json>>)
    decreases m, 1
  {
    exists j | 0 <= j < |b| :: SameMember(m, b[j])
  }

  ghost predicate ReachesFirst(a: seq<Keyed<Json>>, n: Keyed<Json>)
    decreases a
  {
    exists i | 0 <= i < |a| :: SameMember(a[i], n)
  }

  ghost predicate SameMember(m: Keyed<Json>, n: Keyed<Json>)
    decreases m, 0
  {
    m.key == n.key && SameUpToKeyOrder(m.value, n.value)
  }

  // ---------------------------------------------------------------------------------------------
  // Strings
  // ---------------------------------------------------------------------------------------------

  predicate IsHighSurrogate(c: CodeUnit) {
    0xD800 <= c <= 0xDBFF
  }

  predicate IsLowSurrogate(c: CodeUnit) {
    0xDC00 <= c <= 0xDFFF
  }

  function HexDigit(v: CodeUnit): (d: CodeUnit)
    requires v < 16
    ensures HexValue(d) == v
  {
    if v < 10 then 48 + v else 87 + v
  }

  function HexValue(d: CodeUnit): (v: CodeUnit)
    ensures v < 16
  {
    if 48 <= d <= 57 then d - 48 else if 97 <= d <= 102 then d - 87 else 0
  }

  function UnicodeEscape(c: CodeUnit): Text {
    [BACKSLASH, LETTER_U, HexDigit(c / 16 / 16 / 16), HexDigit(c / 16 / 16 % 16), HexDigit(c / 16 % 16),
     HexDigit(c % 16)]
  }

  /** JSON.stringify of one code unit that is not half of a surrogate pair. */
  function EscapeUnit(c: CodeUnit): Text {
    if c == QUOTE || c == BACKSLASH then [BACKSLASH, c]
    else if c == 8 then [BACKSLASH, 98]
    else if c == 9 then [BACKSLASH, 116]
    else if c == 10 then [BACKSLASH, 110]
    else if c == 12 then [BACKSLASH, 102]
    else if c == 13 then [BACKSLASH, 114]
    else if c < 32 || IsHighSurrogate(c) || IsLowSurrogate(c) then UnicodeEscape(c)
    else [c]
  }

  /**
   The escaped string followed by `rest`. `paired` says that the first unit is the low half of a
   surrogate pair whose high half was just written: pairs are copied, lone halves are escaped.
   */
  function Escape(paired: bool, s: Text, rest: Text): Text
    decreases |s|
  {
    if |s| == 0 then rest
    else if paired then [s[0]] + Escape(false, s[1..], rest)
    else if |s| > 1 && IsHighSurrogate(s[0]) && IsLowSurrogate(s[1]) then [s[0]] + Escape(true, s[1..], rest)
    else EscapeUnit(s[0]) + Escape(false, s[1..], rest)
  }

  /** JSON.stringify of a string. */
  function Quote(s: Text): Text {
    [QUOTE] + Escape(false, s, [QUOTE])
  }

  /** Reads back one escaped unit. */
  function ReadUnit(t: Text): (CodeUnit, Text) {
    if |t| == 0 then (0, t)
    else if t[0] != BACKSLASH then (t[0], t[1..])
    else if |t| == 1 then (0, t)
    else if t[1] == 98 then (8, t[2..])
    else if t[1] == 116 then (9, t[2..])
    else if t[1] == 110 then (10, t[2..])
    else if t[1] == 102 then (12, t[2..])
    else if t[1] == 114 then (13, t[2..])
    else if t[1] == LETTER_U && |t| >= 6 then
      (16 * (16 * (16 * HexValue(t[2]) + HexValue(t[3])) + HexValue(t[4])) + HexValue(t[5]), t[6..])
    else (t[1], t[2..])
  }

  lemma ReadUnicodeEscape(c: CodeUnit, rest: Text)
    ensures ReadUnit(UnicodeEscape(c) + rest) == (c, rest)
  {
    assert (UnicodeEscape(c) + rest)[6..] == rest;
  }

  lemma ReadEscapedUnit(c: CodeUnit, rest: Text)
    ensures ReadUnit(EscapeUnit(c) + rest) == (c, rest)
    ensures (EscapeUnit(c) + rest)[0] != QUOTE
  {
    ReadUnicodeEscape(c, rest);
    var t := EscapeUnit(c);
    assert (t + rest)[|t|..] == rest;
  }

  predicate PairedStart(paired: bool, s: Text) {
    paired ==> |s| > 0 && IsLowSurrogate(s[0])
  }

  /** The next flag after the first unit of a string. */
  function NextPaired(paired: bool, s: Text): bool {
    !paired && |s| > 1 && IsHighSurrogate(s[0]) && IsLowSurrogate(s[1])
  }

  lemma ReadEscaped(paired: bool, s: Text, rest: Text)
    requires |s| > 0 && PairedStart(paired, s)
    ensures ReadUnit(Escape(paired, s, rest)) == (s[0], Escape(NextPaired(paired, s), s[1..], rest))
    ensures PairedStart(NextPaired(paired, s), s[1..])
    ensures |Escape(paired, s, rest)| > 0 && Escape(paired, s, rest)[0] != QUOTE
  {
    var tail := Escape(NextPaired(paired, s), s[1..], rest);
    if paired || NextPaired(paired, s) {
      assert ([s[0]] + tail)[1..] == tail;
    } else {
      ReadEscapedUnit(s[0], tail);
    }
  }

  /** A quoted string ends where its text says: it determines both the string and what follows. */
  lemma {:induction false} EscapeIsInjective(p: bool, s: Text, x: Text, q: bool, t: Text, y: Text)
    requires PairedStart(p, s) && PairedStart(q, t)
    requires Escape(p, s, [QUOTE] + x) == Escape(q, t, [QUOTE] + y)
    ensures s == t && x == y
    decreases |s|
  {
    if |s| > 0 {
      ReadEscaped(p, s, [QUOTE] + x);
    }
    if |t| > 0 {
      ReadEscaped(q, t, [QUOTE] + y);
    }
    if |s| > 0 && |t| > 0 {
      EscapeIsInjective(NextPaired(p, s), s[1..], x, NextPaired(q, t), t[1..], y);
      assert s == [s[0]] + s[1..] && t == [t[0]] + t[1..];
    } else {
      assert ([QUOTE] + x)[1..] == x && ([QUOTE] + y)[1..] == y;
    }
  }

  lemma {:induction false} EscapeAppends(p: bool, s: Text, x: Text, y: Text)
    ensures Escape(p, s, x + y) == Escape(p, s, x) + y
    decreases |s|
  {
    if |s| > 0 {
      EscapeAppends(NextPaired(p, s), s[1..], x, y);
      var tail := Escape(NextPaired(p, s), s[1..], x);
      var head := if p || NextPaired(p, s) then [s[0]] else EscapeUnit(s[0]);
      assert head + (tail + y) == (head + tail) + y;
    }
  }

  // ---------------------------------------------------------------------------------------------
  // Sorting by key
  // ---------------------------------------------------------------------------------------------

  /** The order of `sort()` on strings: lexicographic by code unit. */
  predicate Before(a: Text, b: Text) {
    |b| > 0 && (|a| == 0 || a[0] < b[0] || (a[0] == b[0] && Before(a[1..], b[1..])))
  }

  lemma {:induction false} BeforeIsTotal(a: Text, b: Text)
    ensures a != b ==> Before(a, b) || Before(b, a)
    ensures Before(a, b) ==> !Before(b, a) && a != b
  {
    if |a| > 0 && |b| > 0 && a[0] == b[0] {
      BeforeIsTotal(a[1..], b[1..]);
      assert a == [a[0]] + a[1..] && b == [b[0]] + b[1..];
    }
  }

  lemma {:induction false} BeforeIsTransitive(a: Text, b: Text, c: Text)
    requires Before(a, b) && Before(b, c)
    ensures Before(a, c)
  {
    if |a| > 0 && a[0] == b[0] == c[0] {
      BeforeIsTransitive(a[1..], b[1..], c[1..]);
    }
  }

  predicate IsSorted<T>(ms: seq<Keyed<T>>) {
    forall i, j | 0 <= i < j < |ms| :: Before(ms[i].key, ms[j].key)
  }

  function Insert<T>(m: Keyed<T>, ms: seq<Keyed<T>>): seq<Keyed<T>> {
    if |ms| == 0 || Before(m.key, ms[0].key) then [m] + ms else [ms[0]] + Insert(m, ms[1..])
  }

  predicate IsNewKey<T>(key: Text, ms: seq<Keyed<T>>) {
    forall i | 0 <= i < |ms| :: ms[i].key != key
  }

  lemma {:induction false} InsertKeepsSorted<T(!new)>(m: Keyed<T>, ms: seq<Keyed<T>>)
    requires IsSorted(ms) && IsNewKey(m.key, ms)
    ensures IsSorted(Insert(m, ms))
    ensures forall e :: e in Insert(m, ms) <==> e == m || e in ms
  {
    if |ms| == 0 {
    } else if Before(m.key, ms[0].key) {
      forall j | 0 <= j < |ms|
        ensures Before(m.key, ms[j].key)
      {
        if j > 0 { BeforeIsTransitive(m.key, ms[0].key, ms[j].key); }
      }
    } else {
      BeforeIsTotal(m.key, ms[0].key);
      InsertKeepsSorted(m, ms[1..]);
      var rest := Insert(m, ms[1..]);
      assert ms == [ms[0]] + ms[1..];
      forall e | e in rest
        ensures Before(ms[0].key, e.key)
      {
        if e != m {
          assert e in ms[1..];
        }
      }
    }
  }

  lemma FirstIsElement<T>(a: seq<T>)
    ensures |a| > 0 ==> a[0] in a
  {
  }

  /** A strictly sorted list is determined by its elements. */
  lemma {:induction false} SortedIsUnique<T(!new)>(a: seq<Keyed<T>>, b: seq<Keyed<T>>)
    requires IsSorted(a) && IsSorted(b)
    requires forall e :: e in a <==> e in b
    ensures a == b
  {
    if |a| == 0 {
      FirstIsElement(b);
    } else {
      assert a[0] in b;
      assert b[0] in a;
      var i :| 0 <= i < |b| && b[i] == a[0];
      var j :| 0 <= j < |a| && a[j] == b[0];
      BeforeIsTotal(a[0].key, b[0].key);
      assert a[0] == b[0];
      forall e
        ensures e in a[1..] <==> e in b[1..]
      {
        TailElements(a, e);
        TailElements(b, e);
      }
      SortedIsUnique(a[1..], b[1..]);
      assert a == [a[0]] + a[1..] && b == [b[0]] + b[1..];
    }
  }

  lemma TailElements<T>(a: seq<Keyed<T>>, e: Keyed<T>)
    requires |a| > 0 && IsSorted(a)
    ensures e in a[1..] <==> e in a && e != a[0]
  {
    assert a == [a[0]] + a[1..];
    BeforeIsTotal(a[0].key, a[0].key);
  }

  // ---------------------------------------------------------------------------------------------
  // canonicalJson
  // ---------------------------------------------------------------------------------------------

  /** `texts.join(',')`. */
  function Join(texts: seq<Text>): Text {
    if |texts| == 0 then []
    else if |texts| == 1 then texts[0]
    else texts[0] + [COMMA] + Join(texts[1..])
  }

  /** canonicalJson. */
  function Canonical(v: Json): Text {
    match v
    case Null => NULL_TEXT
    case Bool(flag) => if flag then TRUE_TEXT else FALSE_TEXT
    case Number(t) => t
    case String(s) => Quote(s)
    case Array(items) => [OPEN_ARRAY] + Join(CanonicalItems(items)) + [CLOSE_ARRAY]
    case Object(ms) => [OPEN_OBJECT] + Join(Entries(CanonicalMembers(ms))) + [CLOSE_OBJECT]
  }

  function CanonicalItems(items: seq<Json>): seq<Text> {
    if |items| == 0 then [] else [Canonical(items[0])] + CanonicalItems(items[1..])
  }

  /** The canonical texts of the members, sorted by key. */
  function CanonicalMembers(ms: seq<Keyed<Json>>): seq<Keyed<Text>> {
    if |ms| == 0 then [] else Insert(CanonicalMember(ms[0]), CanonicalMembers(ms[1..]))
  }

  function CanonicalMember(m: Keyed<Json>): Keyed<Text> {
    Keyed(m.key, Canonical(m.value))
  }

  function Entries(ms: seq<Keyed<Text>>): seq<Text> {
    if |ms| == 0 then [] else [Quote(ms[0].key) + [COLON] + ms[0].value] + Entries(ms[1..])
  }

  // ---------------------------------------------------------------------------------------------
  // The value with every object's keys sorted
  // ---------------------------------------------------------------------------------------------

  function Ordered(v: Json): Json {
    match v
    case Array(items) => Array(OrderedItems(items))
    case Object(ms) => Object(OrderedMembers(ms))
    case _ => v
  }

  function OrderedItems(items: seq<Json>): (r: seq<Json>)
    ensures |r| == |items| && forall i | 0 <= i < |items| :: r[i] == Ordered(items[i])
  {
    if |items| == 0 then [] else [Ordered(items[0])] + OrderedItems(items[1..])
  }

  function OrderedMembers(ms: seq<Keyed<Json>>): seq<Keyed<Json>> {
    if |ms| == 0 then [] else Insert(OrderedMember(ms[0]), OrderedMembers(ms[1..]))
  }

  function OrderedMember(m: Keyed<Json>): Keyed<Json> {
    Keyed(m.key, Ordered(m.value))
  }

  ghost predicate Comes(e: Keyed<Json>, ms: seq<Keyed<Json>>) {
    exists i :: 0 <= i < |ms| && e == OrderedMember(ms[i])
  }

  /** The ordered members are sorted, and are the members with ordered values. */
  lemma {:induction false} OrderedMembersAre(ms: seq<Keyed<Json>>)
    requires DistinctKeys(ms)
    ensures IsSorted(OrderedMembers(ms))
    ensures forall e :: e in OrderedMembers(ms) <==> Comes(e, ms)
  {
    if |ms| > 0 {
      var first := OrderedMember(ms[0]);
      OrderedMembersAre(ms[1..]);
      var rest := OrderedMembers(ms[1..]);
      forall k | 0 <= k < |rest|
        ensures rest[k].key != first.key
      {
        assert rest[k] in rest;
        var i :| 0 <= i < |ms[1..]| && rest[k] == OrderedMember(ms[1..][i]);
        assert ms[1..][i] == ms[i + 1];
      }
      InsertKeepsSorted(first, rest);
      forall e
        ensures Comes(e, ms) <==> e == first || Comes(e, ms[1..])
      {
        ComesSplit(e, ms);
      }
    }
  }

  lemma ComesSplit(e: Keyed<Json>, ms: seq<Keyed<Json>>)
    requires |ms| > 0
    ensures Comes(e, ms) <==> e == OrderedMember(ms[0]) || Comes(e, ms[1..])
  {
    if Comes(e, ms) {
      var i :| 0 <= i < |ms| && e == OrderedMember(ms[i]);
      if i > 0 {
        assert ms[1..][i - 1] == ms[i];
      }
    }
    if Comes(e, ms[1..]) {
      var i :| 0 <= i < |ms[1..]| && e == OrderedMember(ms[1..][i]);
      assert ms[i + 1] == ms[1..][i];
    }
  }

  /** Two values have one ordered form exactly when they are the same up to key order. */
  lemma {:induction false} OrderedIffSame(v: Json, w: Json)
    requires WellFormed(v) && WellFormed(w)
    ensures Ordered(v) == Ordered(w) <==> SameUpToKeyOrder(v, w)
    decreases v
  {
    match (v, w)
    case (Array(a), Array(b)) =>
      if |a| == |b| {
        forall i | 0 <= i < |a|
          ensures Ordered(a[i]) == Ordered(b[i]) <==> SameUpToKeyOrder(a[i], b[i])
        {
          OrderedIffSame(a[i], b[i]);
        }
        assert SameUpToKeyOrder(v, w) ==> OrderedItems(a) == OrderedItems(b);
        if OrderedItems(a) == OrderedItems(b) {
          forall i | 0 <= i < |a|
            ensures SameUpToKeyOrder(a[i], b[i])
          {
            assert OrderedItems(a)[i] == OrderedItems(b)[i];
          }
        }
      }
    case (Object(a), Object(b)) =>
      forall i, j | 0 <= i < |a| && 0 <= j < |b|
        ensures OrderedMember(a[i]) == OrderedMember(b[j]) <==> SameMember(a[i], b[j])
      {
        OrderedIffSame(a[i].value, b[j].value);
      }
      OrderedIffSameMembers(a, b);
      OrderedObjects(a, b);
    case (_, _) =>
  }

  /** The two lists of members have the same ordered members. */
  ghost predicate SameMembers(a: seq<Keyed<Json>>, b: seq<Keyed<Json>>) {
    && (forall i | 0 <= i < |a| :: Comes(OrderedMember(a[i]), b))
    && (forall j | 0 <= j < |b| :: Comes(OrderedMember(b[j]), a))
  }

  lemma OrderedIffSameMembers(a: seq<Keyed<Json>>, b: seq<Keyed<Json>>)
    requires DistinctKeys(a) && DistinctKeys(b)
    ensures OrderedMembers(a) == OrderedMembers(b) <==> SameMembers(a, b)
  {
    OrderedMembersAre(a);
    OrderedMembersAre(b);
    if SameMembers(a, b) {
      SortedIsUnique(OrderedMembers(a), OrderedMembers(b));
    }
    if OrderedMembers(a) == OrderedMembers(b) {
      forall i | 0 <= i < |a|
        ensures Comes(OrderedMember(a[i]), b)
      {
        assert Comes(OrderedMember(a[i]), a);
      }
      forall j | 0 <= j < |b|
        ensures Comes(OrderedMember(b[j]), a)
      {
        assert Comes(OrderedMember(b[j]), b);
      }
    }
  }

  lemma ComesInSecond(m: Keyed<Json>, b: seq<Keyed<Json>>)
    requires forall j | 0 <= j < |b| :: OrderedMember(m) == OrderedMember(b[j]) <==> SameMember(m, b[j])
    ensures Comes(OrderedMember(m), b) <==> ReachesSecond(m, b)
  {
    if Comes(OrderedMember(m), b) {
      var j :| 0 <= j < |b| && OrderedMember(m) == OrderedMember(b[j]);
      assert SameMember(m, b[j]);
    }
  }

  lemma ComesInFirst(a: seq<Keyed<Json>>, n: Keyed<Json>)
    requires forall i | 0 <= i < |a| :: OrderedMember(a[i]) == OrderedMember(n) <==> SameMember(a[i], n)
    ensures Comes(OrderedMember(n), a) <==> ReachesFirst(a, n)
  {
    if Comes(OrderedMember(n), a) {
      var i :| 0 <= i < |a| && OrderedMember(n) == OrderedMember(a[i]);
      assert SameMember(a[i], n);
    }
  }

  lemma OrderedObjects(a: seq<Keyed<Json>>, b: seq<Keyed<Json>>)
    requires forall i, j | 0 <= i < |a| && 0 <= j < |b| ::
               OrderedMember(a[i]) == OrderedMember(b[j]) <==> SameMember(a[i], b[j])
    ensures SameMembers(a, b) <==> SameUpToKeyOrder(Object(a), Object(b))
  {
    forall i | 0 <= i < |a|
      ensures Comes(OrderedMember(a[i]), b) <==> ReachesSecond(a[i], b)
    {
      ComesInSecond(a[i], b);
    }
    forall j | 0 <= j < |b|
      ensures Comes(OrderedMember(b[j]), a) <==> ReachesFirst(a, b[j])
    {
      ComesInFirst(a, b[j]);
    }
  }

  // ---------------------------------------------------------------------------------------------
  // Printing determines the ordered value
  // ---------------------------------------------------------------------------------------------

  /** A value printed with its members in the order they are listed, followed by `rest`. */
  function Print(v: Json, rest: Text): Text {
    match v
    case Null => NULL_TEXT + rest
    case Bool(flag) => (if flag then TRUE_TEXT else FALSE_TEXT) + rest
    case Number(t) => t + rest
    case String(s) => [QUOTE] + Escape(false, s, [QUOTE] + rest)
    case Array(items) => [OPEN_ARRAY] + PrintItems(items, [CLOSE_ARRAY] + rest)
    case Object(ms) => [OPEN_OBJECT] + PrintMembers(ms, [CLOSE_OBJECT] + rest)
  }

  function PrintItems(items: seq<Json>, rest: Text): Text
    decreases items, 1
  {
    if |items| == 0 then rest else Print(items[0], MoreItems(items[1..], rest))
  }

  function MoreItems(items: seq<Json>, rest: Text): Text
    decreases items, 0
  {
    if |items| == 0 then rest else [COMMA] + Print(items[0], MoreItems(items[1..], rest))
  }

  function PrintMember(m: Keyed<Json>, rest: Text): Text {
    [QUOTE] + Escape(false, m.key, [QUOTE] + ([COLON] + Print(m.value, rest)))
  }

  function PrintMembers(ms: seq<Keyed<Json>>, rest: Text): Text
    decreases ms, 1
  {
    if |ms| == 0 then rest else PrintMember(ms[0], MoreMembers(ms[1..], rest))
  }

  function MoreMembers(ms: seq<Keyed<Json>>, rest: Text): Text
    decreases ms, 0
  {
    if |ms| == 0 then rest else [COMMA] + PrintMember(ms[0], MoreMembers(ms[1..], rest))
  }

  // ---------------------------------------------------------------------------------------------
  // canonicalJson prints the ordered value
  // ---------------------------------------------------------------------------------------------

  lemma {:induction false} CanonicalPrintsOrdered(v: Json, rest: Text)
    ensures Canonical(v) + rest == Print(Ordered(v), rest)
    decreases v, 1
  {
    match v
    case String(s) =>
      EscapeAppends(false, s, [QUOTE], rest);
    case Array(items) =>
      ItemsPrint(items, [CLOSE_ARRAY] + rest);
      var joined := Join(CanonicalItems(items));
      assert [OPEN_ARRAY] + joined + [CLOSE_ARRAY] + rest == [OPEN_ARRAY] + (joined + ([CLOSE_ARRAY] + rest));
    case Object(ms) =>
      MembersPrint(ms);
      EntriesPrint(CanonicalMembers(ms), OrderedMembers(ms), [CLOSE_OBJECT] + rest);
      var joined := Join(Entries(CanonicalMembers(ms)));
      assert [OPEN_OBJECT] + joined + [CLOSE_OBJECT] + rest == [OPEN_OBJECT] + (joined + ([CLOSE_OBJECT] + rest));
    case _ =>
  }

  lemma {:induction false} ItemsPrint(items: seq<Json>, rest: Text)
    ensures Join(CanonicalItems(items)) + rest == PrintItems(OrderedItems(items), rest)
    decreases items, 0
  {
    if |items| > 0 {
      var first, more := Canonical(items[0]), Join(CanonicalItems(items[1..]));
      CanonicalPrintsOrdered(items[0], MoreItems(OrderedItems(items[1..]), rest));
      if |items| > 1 {
        ItemsPrint(items[1..], rest);
        assert first + [COMMA] + more + rest == first + ([COMMA] + (more + rest));
      }
    }
  }

  ghost predicate PrintsAs(c: Keyed<Text>, o: Keyed<Json>) {
    c.key == o.key && forall rest :: c.value + rest == Print(o.value, rest)
  }

  ghost predicate AllPrintAs(cs: seq<Keyed<Text>>, os: seq<Keyed<Json>>) {
    |cs| == |os| && forall i | 0 <= i < |cs| :: PrintsAs(cs[i], os[i])
  }

  lemma {:induction false} InsertBoth(c: Keyed<Text>, cs: seq<Keyed<Text>>, o: Keyed<Json>, os: seq<Keyed<Json>>)
    requires PrintsAs(c, o) && AllPrintAs(cs, os)
    ensures AllPrintAs(Insert(c, cs), Insert(o, os))
  {
    if |cs| > 0 && !Before(c.key, cs[0].key) {
      assert PrintsAs(cs[0], os[0]);
      InsertBoth(c, cs[1..], o, os[1..]);
    } else {
      assert |cs| > 0 ==> PrintsAs(cs[0], os[0]);
    }
  }

  lemma {:induction false} MembersPrint(ms: seq<Keyed<Json>>)
    ensures AllPrintAs(CanonicalMembers(ms), OrderedMembers(ms))
    decreases ms, 0
  {
    if |ms| > 0 {
      MemberPrints(ms[0]);
      MembersPrint(ms[1..]);
      InsertBoth(CanonicalMember(ms[0]), CanonicalMembers(ms[1..]), OrderedMember(ms[0]), OrderedMembers(ms[1..]));
    }
  }

  lemma {:induction false} MemberPrints(m: Keyed<Json>)
    ensures PrintsAs(CanonicalMember(m), OrderedMember(m))
    decreases m, 2
  {
    forall rest
      ensures Canonical(m.value) + rest == Print(Ordered(m.value), rest)
    {
      CanonicalPrintsOrdered(m.value, rest);
    }
  }

  lemma EntryPrints(c: Keyed<Text>, o: Keyed<Json>, rest: Text)
    requires PrintsAs(c, o)
    ensures Quote(c.key) + [COLON] + c.value + rest == PrintMember(o, rest)
  {
    var tail := [COLON] + Print(o.value, rest);
    EscapeAppends(false, c.key, [QUOTE], tail);
    assert Quote(c.key) + [COLON] + c.value + rest == Quote(c.key) + ([COLON] + (c.value + rest));
    assert [QUOTE] + Escape(false, c.key, [QUOTE]) + tail == [QUOTE] + (Escape(false, c.key, [QUOTE]) + tail);
  }

  lemma {:induction false} EntriesPrint(cs: seq<Keyed<Text>>, os: seq<Keyed<Json>>, rest: Text)
    requires AllPrintAs(cs, os)
    ensures Join(Entries(cs)) + rest == PrintMembers(os, rest)
  {
    if |cs| > 0 {
      var first, more := Quote(cs[0].key) + [COLON] + cs[0].value, Join(Entries(cs[1..]));
      assert PrintsAs(cs[0], os[0]);
      EntryPrints(cs[0], os[0], MoreMembers(os[1..], rest));
      if |cs| > 1 {
        EntriesPrint(cs[1..], os[1..], rest);
        assert first + [COMMA] + more + rest == first + ([COMMA] + (more + rest));
      }
    }
  }

  // ---------------------------------------------------------------------------------------------
  // The printed text determines the value and where it ends
  // ---------------------------------------------------------------------------------------------

  predicate Printable(v: Json) {
    match v
    case Number(t) => IsNumberText(t)
    case Array(items) => forall i | 0 <= i < |items| :: Printable(items[i])
    case Object(ms) => forall i | 0 <= i < |ms| :: Printable(ms[i].value)
    case _ => true
  }

  /** Whatever follows a value cannot continue a number. */
  predicate EndsNumber(rest: Text) {
    |rest| > 0 ==> !IsNumberUnit(rest[0])
  }

  function LeadingNumberUnits(t: Text): nat {
    if |t| > 0 && IsNumberUnit(t[0]) then 1 + LeadingNumberUnits(t[1..]) else 0
  }

  lemma {:induction false} NumberRun(t: Text, rest: Text)
    requires (forall i | 0 <= i < |t| :: IsNumberUnit(t[i])) && EndsNumber(rest)
    ensures LeadingNumberUnits(t + rest) == |t|
  {
    if |t| == 0 {
      assert t + rest == rest;
    } else {
      assert (t + rest)[1..] == t[1..] + rest;
      NumberRun(t[1..], rest);
    }
  }

  lemma NumberEnds(t: Text, x: Text, u: Text, y: Text)
    requires IsNumberText(t) && IsNumberText(u) && EndsNumber(x) && EndsNumber(y)
    requires t + x == u + y
    ensures t == u && x == y
  {
    NumberRun(t, x);
    NumberRun(u, y);
    assert (t + x)[..|t|] == t && (u + y)[..|u|] == u;
    assert (t + x)[|t|..] == x && (u + y)[|u|..] == y;
  }

  /** The first unit of a printed value tells which kind of value it is. */
  function Kind(v: Json): nat {
    match v
    case Null => 0
    case Bool(flag) => if flag then 1 else 2
    case Number(_) => 3
    case String(_) => 4
    case Array(_) => 5
    case Object(_) => 6
  }

  function KindOf(c: CodeUnit): nat {
    if c == NULL_TEXT[0] then 0
    else if c == TRUE_TEXT[0] then 1
    else if c == FALSE_TEXT[0] then 2
    else if c == QUOTE then 4
    else if c == OPEN_ARRAY then 5
    else if c == OPEN_OBJECT then 6
    else 3
  }

  lemma FirstUnit(v: Json, rest: Text)
    requires Printable(v)
    ensures |Print(v, rest)| > 0
    ensures var c := Print(v, rest)[0];
            KindOf(c) == Kind(v) && c != COMMA && c != CLOSE_ARRAY && c != CLOSE_OBJECT
  {
  }

  lemma {:induction false} PrintIsInjective(v: Json, x: Text, w: Json, y: Text)
    requires Printable(v) && Printable(w) && EndsNumber(x) && EndsNumber(y)
    requires Print(v, x) == Print(w, y)
    ensures v == w && x == y
    decreases v, 1
  {
    FirstUnit(v, x);
    FirstUnit(w, y);
    match (v, w)
    case (Null, Null) => SamePrefix(NULL_TEXT, x, y);
    case (Bool(flag), Bool(_)) => SamePrefix(if flag then TRUE_TEXT else FALSE_TEXT, x, y);
    case (Number(t), Number(u)) => NumberEnds(t, x, u, y);
    case (String(s), String(t)) =>
      SamePrefix([QUOTE], Escape(false, s, [QUOTE] + x), Escape(false, t, [QUOTE] + y));
      EscapeIsInjective(false, s, x, false, t, y);
    case (Array(a), Array(b)) =>
      SamePrefix([OPEN_ARRAY], PrintItems(a, [CLOSE_ARRAY] + x), PrintItems(b, [CLOSE_ARRAY] + y));
      ItemsAreInjective(a, x, b, y);
    case (Object(a), Object(b)) =>
      SamePrefix([OPEN_OBJECT], PrintMembers(a, [CLOSE_OBJECT] + x), PrintMembers(b, [CLOSE_OBJECT] + y));
      MembersAreInjective(a, x, b, y);
    case (_, _) =>
  }

  lemma SamePrefix(p: Text, x: Text, y: Text)
    requires p + x == p + y
    ensures x == y
  {
    assert (p + x)[|p|..] == x && (p + y)[|p|..] == y;
  }

  lemma {:induction false} ItemsAreInjective(a: seq<Json>, x: Text, b: seq<Json>, y: Text)
    requires (forall i | 0 <= i < |a| :: Printable(a[i])) && (forall i | 0 <= i < |b| :: Printable(b[i]))
    requires PrintItems(a, [CLOSE_ARRAY] + x) == PrintItems(b, [CLOSE_ARRAY] + y)
    ensures a == b && x == y
    decreases a, 1
  {
    var u, v := [CLOSE_ARRAY] + x, [CLOSE_ARRAY] + y;
    if |a| > 0 {
      FirstUnit(a[0], MoreItems(a[1..], u));
    }
    if |b| > 0 {
      FirstUnit(b[0], MoreItems(b[1..], v));
    }
    if |a| > 0 && |b| > 0 {
      PrintIsInjective(a[0], MoreItems(a[1..], u), b[0], MoreItems(b[1..], v));
      MoreItemsAreInjective(a[1..], x, b[1..], y);
      assert a == [a[0]] + a[1..] && b == [b[0]] + b[1..];
    } else {
      SamePrefix([CLOSE_ARRAY], x, y);
    }
  }

  lemma {:induction false} MoreItemsAreInjective(a: seq<Json>, x: Text, b: seq<Json>, y: Text)
    requires (forall i | 0 <= i < |a| :: Printable(a[i])) && (forall i | 0 <= i < |b| :: Printable(b[i]))
    requires MoreItems(a, [CLOSE_ARRAY] + x) == MoreItems(b, [CLOSE_ARRAY] + y)
    ensures a == b && x == y
    decreases a, 0
  {
    var u, v := [CLOSE_ARRAY] + x, [CLOSE_ARRAY] + y;
    assert MoreItems(a, u)[0] == if |a| > 0 then COMMA else CLOSE_ARRAY;
    assert MoreItems(b, v)[0] == if |b| > 0 then COMMA else CLOSE_ARRAY;
    if |a| > 0 && |b| > 0 {
      SamePrefix([COMMA], Print(a[0], MoreItems(a[1..], u)), Print(b[0], MoreItems(b[1..], v)));
      PrintIsInjective(a[0], MoreItems(a[1..], u), b[0], MoreItems(b[1..], v));
      MoreItemsAreInjective(a[1..], x, b[1..], y);
      assert a == [a[0]] + a[1..] && b == [b[0]] + b[1..];
    } else {
      SamePrefix([CLOSE_ARRAY], x, y);
    }
  }

  lemma {:induction false} MemberIsInjective(m: Keyed<Json>, x: Text, n: Keyed<Json>, y: Text)
    requires Printable(m.value) && Printable(n.value) && EndsNumber(x) && EndsNumber(y)
    requires PrintMember(m, x) == PrintMember(n, y)
    ensures m == n && x == y
    decreases m, 2
  {
    var p, q := [COLON] + Print(m.value, x), [COLON] + Print(n.value, y);
    SamePrefix([QUOTE], Escape(false, m.key, [QUOTE] + p), Escape(false, n.key, [QUOTE] + q));
    EscapeIsInjective(false, m.key, p, false, n.key, q);
    SamePrefix([COLON], Print(m.value, x), Print(n.value, y));
    PrintIsInjective(m.value, x, n.value, y);
  }

  lemma {:induction false} MembersAreInjective(a: seq<Keyed<Json>>, x: Text, b: seq<Keyed<Json>>, y: Text)
    requires (forall i | 0 <= i < |a| :: Printable(a[i].value)) && (forall i | 0 <= i < |b| :: Printable(b[i].value))
    requires PrintMembers(a, [CLOSE_OBJECT] + x) == PrintMembers(b, [CLOSE_OBJECT] + y)
    ensures a == b && x == y
    decreases a, 1
  {
    var u, v := [CLOSE_OBJECT] + x, [CLOSE_OBJECT] + y;
    assert PrintMembers(a, u)[0] == if |a| > 0 then QUOTE else CLOSE_OBJECT;
    assert PrintMembers(b, v)[0] == if |b| > 0 then QUOTE else CLOSE_OBJECT;
    if |a| > 0 && |b| > 0 {
      MemberIsInjective(a[0], MoreMembers(a[1..], u), b[0], MoreMembers(b[1..], v));
      MoreMembersAreInjective(a[1..], x, b[1..], y);
      assert a == [a[0]] + a[1..] && b == [b[0]] + b[1..];
    } else {
      SamePrefix([CLOSE_OBJECT], x, y);
    }
  }

  lemma {:induction false} MoreMembersAreInjective(a: seq<Keyed<Json>>, x: Text, b: seq<Keyed<Json>>, y: Text)
    requires (forall i | 0 <= i < |a| :: Printable(a[i].value)) && (forall i | 0 <= i < |b| :: Printable(b[i].value))
    requires MoreMembers(a, [CLOSE_OBJECT] + x) == MoreMembers(b, [CLOSE_OBJECT] + y)
    ensures a == b && x == y
    decreases a, 0
  {
    var u, v := [CLOSE_OBJECT] + x, [CLOSE_OBJECT] + y;
    assert MoreMembers(a, u)[0] == if |a| > 0 then COMMA else CLOSE_OBJECT;
    assert MoreMembers(b, v)[0] == if |b| > 0 then COMMA else CLOSE_OBJECT;
    if |a| > 0 && |b| > 0 {
      SamePrefix([COMMA], PrintMember(a[0], MoreMembers(a[1..], u)), PrintMember(b[0], MoreMembers(b[1..], v)));
      MemberIsInjective(a[0], MoreMembers(a[1..], u), b[0], MoreMembers(b[1..], v));
      MoreMembersAreInjective(a[1..], x, b[1..], y);
      assert a == [a[0]] + a[1..] && b == [b[0]] + b[1..];
    } else {
      SamePrefix([CLOSE_OBJECT], x, y);
    }
  }

  // ---------------------------------------------------------------------------------------------
  // The theorem
  // ---------------------------------------------------------------------------------------------

  lemma {:induction false} OrderedIsPrintable(v: Json)
    requires WellFormed(v)
    ensures Printable(Ordered(v))
  {
    match v
    case Array(items) =>
      forall i | 0 <= i < |items|
        ensures Printable(OrderedItems(items)[i])
      {
        OrderedIsPrintable(items[i]);
      }
    case Object(ms) =>
      OrderedMembersAre(ms);
      var os := OrderedMembers(ms);
      forall k | 0 <= k < |os|
        ensures Printable(os[k].value)
      {
        assert os[k] in os;
        var i :| 0 <= i < |ms| && os[k] == OrderedMember(ms[i]);
        OrderedIsPrintable(ms[i].value);
      }
    case _ =>
  }

  /** Two bodies have one canonical text exactly when they differ at most in the order of keys. */
  lemma CanonicalIsInjective(v: Json, w: Json)
    requires WellFormed(v) && WellFormed(w)
    ensures Canonical(v) == Canonical(w) <==> SameUpToKeyOrder(v, w)
  {
    CanonicalPrintsOrdered(v, []);
    CanonicalPrintsOrdered(w, []);
    assert Canonical(v) + [] == Canonical(v) && Canonical(w) + [] == Canonical(w);
    OrderedIffSame(v, w);
    if Canonical(v) == Canonical(w) {
      OrderedIsPrintable(v);
      OrderedIsPrintable(w);
      PrintIsInjective(Ordered(v), [], Ordered(w), []);
    }
  }
}
