/**
 CSV cells and lines as the settlement export writes them, and a reader for the format of section 2
 of RFC 4180 that recovers them.
 */
module Csv {
  import opened Base

  /** A cell of a record: null, a string, or a number by its printed digits. */
  datatype Cell = Null | Text(text: string) | Number(digits: string)

  // ---------------------------------------------------------------------------------------------
  // Writing
  // ---------------------------------------------------------------------------------------------

  /** The characters a spreadsheet may take for the start of a formula. */
  predicate StartsFormula(text: string) {
    && |text| > 0
    && (|| text[0] == '=' || text[0] == '+' || text[0] == '-' || text[0] == '@'
        || text[0] == '\t' || text[0] == '\r')
  }

  predicate IsSpecial(c: char) {
    c == '"' || c == ',' || c == '\r' || c == '\n'
  }

  predicate NeedsQuotes(text: string) {
    exists i :: 0 <= i < |text| && IsSpecial(text[i])
  }

  /** `text.replace(/"/g, '""')`. */
  function DoubleQuotes(text: string): string {
    if |text| == 0 then "" else (if text[0] == '"' then "\"\"" else [text[0]]) + DoubleQuotes(text[1..])
  }

  /** What a cell says: nothing for null, and strings guarded against formula injection. */
  function Guarded(cell: Cell): string {
    match cell
    case Null => ""
    case Number(digits) => digits
    case Text(text) => if StartsFormula(text) then "'" + text else text
  }

  function Quoted(text: string): string {
    if NeedsQuotes(text) then "\"" + (DoubleQuotes(text) + "\"") else text
  }

  /** csvCell. */
  function CsvCell(cell: Cell): string {
    match cell
    case Null => ""
    case _ => Quoted(Guarded(cell))
  }

  lemma {:induction false} DoublingLengthens(text: string)
    ensures |DoubleQuotes(text)| >= |text|
  {
    if |text| > 0 {
      DoublingLengthens(text[1..]);
    }
  }

  /** A cell is written as it stands exactly when it holds no quote, comma or line break. */
  lemma PlainIff(digits: string, text: string)
    ensures CsvCell(Number(digits)) == digits
            <==> '"' !in digits && ',' !in digits && '\r' !in digits && '\n' !in digits
    ensures Guarded(Text(text)) == text <==> !(|text| > 0 && text[0] in ['=', '+', '-', '@', '\t', '\r'])
    ensures Guarded(Text(text)) == text || Guarded(Text(text)) == ['\''] + text
  {
    DoublingLengthens(digits);
    assert NeedsQuotes(digits) <==> '"' in digits || ',' in digits || '\r' in digits || '\n' in digits by {
      if '"' in digits || ',' in digits || '\r' in digits || '\n' in digits {
        var i :| 0 <= i < |digits| && IsSpecial(digits[i]);
      }
    }
  }

  /** `texts.join(',')`. */
  function Join(texts: seq<string>): string {
    if |texts| == 0 then "" else if |texts| == 1 then texts[0] else texts[0] + ("," + Join(texts[1..]))
  }

  function CellTexts(cells: seq<Cell>): (texts: seq<string>)
    ensures |texts| == |cells| && forall i | 0 <= i < |cells| :: texts[i] == CsvCell(cells[i])
  {
    seq(|cells|, i requires 0 <= i < |cells| => CsvCell(cells[i]))
  }

  /** toCsvLine. */
  function Line(cells: seq<Cell>): string {
    Join(CellTexts(cells)) + "\r\n"
  }

  function LineTexts(records: seq<seq<Cell>>): (texts: seq<string>)
    ensures |texts| == |records| && forall i | 0 <= i < |records| :: texts[i] == Line(records[i])
  {
    seq(|records|, i requires 0 <= i < |records| => Line(records[i]))
  }

  /** `records.map(toCsvLine).join('')`. */
  function Lines(records: seq<seq<Cell>>): string {
    Concat(LineTexts(records))
  }

  function GuardedAll(cells: seq<Cell>): (texts: seq<string>)
    ensures |texts| == |cells| && forall i | 0 <= i < |cells| :: texts[i] == Guarded(cells[i])
  {
    seq(|cells|, i requires 0 <= i < |cells| => Guarded(cells[i]))
  }

  function GuardedRecords(records: seq<seq<Cell>>): (rows: seq<seq<string>>)
    ensures |rows| == |records| && forall i | 0 <= i < |records| :: rows[i] == GuardedAll(records[i])
  {
    seq(|records|, i requires 0 <= i < |records| => GuardedAll(records[i]))
  }

  // ---------------------------------------------------------------------------------------------
  // Reading
  // ---------------------------------------------------------------------------------------------

  /** A quoted field after its opening quote: two quotes stand for one, a single one closes it. */
  function ReadQuoted(text: string): (r: Option<(string, string)>)
    ensures r.Some? ==> |r.value.1| < |text|
  {
    if |text| == 0 then None
    else if text[0] != '"' then Prefixed(text[0], ReadQuoted(text[1..]))
    else if |text| > 1 && text[1] == '"' then Prefixed('"', ReadQuoted(text[2..]))
    else Some(("", text[1..]))
  }

  function Prefixed(c: char, read: Option<(string, string)>): Option<(string, string)> {
    match read
    case None => None
    case Some((field, rest)) => Some(([c] + field, rest))
  }

  /** How long a field without quotes is. */
  function PlainLength(text: string): (n: nat)
    ensures n <= |text|
  {
    if |text| == 0 || IsSpecial(text[0]) then 0 else 1 + PlainLength(text[1..])
  }

  function ReadField(text: string): (r: Option<(string, string)>)
    ensures r.Some? ==> |r.value.1| <= |text|
  {
    if |text| > 0 && text[0] == '"' then ReadQuoted(text[1..])
    else Some((text[..PlainLength(text)], text[PlainLength(text)..]))
  }

  /** A record: fields between commas, ended by CRLF or by the end of the file. */
  function ReadRecord(text: string): (r: Option<(seq<string>, string)>)
    ensures r.Some? ==> |r.value.1| <= |text| && (|text| > 0 ==> |r.value.1| < |text|)
    decreases |text|
  {
    match ReadField(text)
    case None => None
    case Some((field, rest)) =>
      if |rest| == 0 then Some(([field], rest))
      else if rest[0] == ',' then
        match ReadRecord(rest[1..])
        case None => None
        case Some((fields, after)) => Some(([field] + fields, after))
      else if |rest| > 1 && rest[0] == '\r' && rest[1] == '\n' then Some(([field], rest[2..]))
      else None
  }

  function ReadFile(text: string): Option<seq<seq<string>>>
    decreases |text|
  {
    if |text| == 0 then Some([])
    else
      match ReadRecord(text)
      case None => None
      case Some((record, rest)) =>
        match ReadFile(rest)
        case None => None
        case Some(records) => Some([record] + records)
  }

  // ---------------------------------------------------------------------------------------------
  // The reader recovers what was written
  // ---------------------------------------------------------------------------------------------

  lemma {:induction false} QuotedReadsBack(text: string, rest: string)
    requires |rest| > 0 ==> rest[0] != '"'
    ensures ReadQuoted(DoubleQuotes(text) + ("\"" + rest)) == Some((text, rest))
  {
    var whole := DoubleQuotes(text) + ("\"" + rest);
    if |text| == 0 {
      assert whole == "\"" + rest;
      assert whole[1..] == rest;
    } else {
      var tail := DoubleQuotes(text[1..]) + ("\"" + rest);
      QuotedReadsBack(text[1..], rest);
      assert text == [text[0]] + text[1..];
      if text[0] == '"' {
        assert whole == "\"\"" + tail;
        assert whole[2..] == tail;
      } else {
        assert whole == [text[0]] + tail;
        assert whole[1..] == tail;
      }
    }
  }

  lemma {:induction false} PlainReadsBack(text: string, rest: string)
    requires !NeedsQuotes(text) && |rest| > 0 && IsSpecial(rest[0])
    ensures PlainLength(text + rest) == |text|
  {
    if |text| == 0 {
      assert text + rest == rest;
    } else {
      assert (text + rest)[1..] == text[1..] + rest;
      forall i | 0 <= i < |text[1..]|
        ensures !IsSpecial(text[1..][i])
      {
        assert text[1..][i] == text[i + 1];
      }
      PlainReadsBack(text[1..], rest);
    }
  }

  /** A cell reads back as what it says, up to the separator that follows it. */
  lemma FieldReadsBack(cell: Cell, rest: string)
    requires |rest| > 0 && (rest[0] == ',' || rest[0] == '\r')
    ensures ReadField(CsvCell(cell) + rest) == Some((Guarded(cell), rest))
  {
    var text := Guarded(cell);
    assert CsvCell(cell) == Quoted(text);
    if NeedsQuotes(text) {
      QuotedReadsBack(text, rest);
      assert (Quoted(text) + rest)[1..] == DoubleQuotes(text) + ("\"" + rest);
    } else {
      PlainReadsBack(text, rest);
      assert (text + rest)[..|text|] == text && (text + rest)[|text|..] == rest;
      assert |text| > 0 ==> !IsSpecial(text[0]);
    }
  }

  lemma SplitLine(first: string, more: string, rest: string)
    ensures first + ("," + more) + "\r\n" + rest == first + ("," + (more + "\r\n" + rest))
  {
  }

  lemma {:induction false} LineReadsBack(cells: seq<Cell>, rest: string)
    requires |cells| > 0
    ensures ReadRecord(Line(cells) + rest) == Some((GuardedAll(cells), rest))
  {
    var texts := CellTexts(cells);
    if |cells| == 1 {
      var tail := "\r\n" + rest;
      assert Line(cells) + rest == CsvCell(cells[0]) + tail;
      FieldReadsBack(cells[0], tail);
      assert tail[2..] == rest;
      assert GuardedAll(cells) == [Guarded(cells[0])];
    } else {
      var more := Line(cells[1..]) + rest;
      LineReadsBack(cells[1..], rest);
      assert texts[1..] == CellTexts(cells[1..]);
      SplitLine(CsvCell(cells[0]), Join(texts[1..]), rest);
      FieldReadsBack(cells[0], "," + more);
      assert ("," + more)[1..] == more;
      assert GuardedAll(cells) == [Guarded(cells[0])] + GuardedAll(cells[1..]);
    }
  }

  lemma LinesCons(record: seq<Cell>, records: seq<seq<Cell>>)
    ensures Lines([record] + records) == Line(record) + Lines(records)
  {
    assert LineTexts([record] + records) == [Line(record)] + LineTexts(records);
    ConcatCons(Line(record), LineTexts(records));
  }

  lemma ReadFirst(record: seq<Cell>, rest: string)
    requires |record| > 0 && ReadFile(rest).Some?
    ensures ReadFile(Line(record) + rest) == Some([GuardedAll(record)] + ReadFile(rest).value)
  {
    LineReadsBack(record, rest);
    assert |Line(record)| >= 2;
  }

  lemma GuardedCons(record: seq<Cell>, records: seq<seq<Cell>>)
    ensures GuardedRecords([record] + records) == [GuardedAll(record)] + GuardedRecords(records)
  {
  }

  /** Reading written records gives back every guarded cell. */
  lemma {:induction false} FileReadsBack(records: seq<seq<Cell>>)
    requires forall i | 0 <= i < |records| :: |records[i]| > 0
    ensures ReadFile(Lines(records)) == Some(GuardedRecords(records))
  {
    if |records| == 0 {
      assert LineTexts(records) == [];
      assert GuardedRecords(records) == [];
    } else {
      FileReadsBack(records[1..]);
      ReadFirst(records[0], Lines(records[1..]));
      LinesCons(records[0], records[1..]);
      GuardedCons(records[0], records[1..]);
      assert records == [records[0]] + records[1..];
    }
  }

  /** Only a number cell can reach a spreadsheet as a formula: one that starts with a sign. */
  lemma FormulaOnlyFromNumber(cell: Cell)
    ensures StartsFormula(Guarded(cell)) <==> cell.Number? && StartsFormula(cell.digits)
  {
  }

  /** The guard merges two texts exactly when one is the other with the apostrophe already in front. */
  lemma GuardMergesIff(a: string, b: string)
    ensures Guarded(Text(a)) == Guarded(Text(b)) <==>
              a == b || (StartsFormula(a) && b == "'" + a) || (StartsFormula(b) && a == "'" + b)
  {
    assert ("'" + a)[1..] == a && ("'" + b)[1..] == b;
    assert ("'" + a)[0] == '\'' && ("'" + b)[0] == '\'';
  }
}
