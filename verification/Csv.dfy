/** The CSV writer, and a reader for the format of section 2 of RFC 4180 that undoes it.

    The reader takes any character but quote, comma, CR and LF as TEXTDATA, and wants every
    record to end in CRLF. */
module Csv {
  import opened Wrappers
  import opened Numerals
  import opened Sequences

  /** A cell: null or undefined, or a string (numbers arrive as their text). */
  datatype Cell = Absent | Text(value: string)

  const BOM: char := '\U{FEFF}'
  const CRLF := "\r\n"

  // ---------- which values a spreadsheet would evaluate ----------

  predicate IsFormulaPrefix(c: char) {
    c == '=' || c == '+' || c == '-' || c == '@' || c == '\t' || c == '\r'
  }

  function Pow2(n: nat): (p: nat)
    ensures p > 0
  {
    if n == 0 then 1 else 2 * Pow2(n - 1)
  }

  /** The least magnitude that rounds to infinity: halfway from the largest double to 2^1024. */
  function FiniteLimit(): int {
    Pow2(1024) - Pow2(970)
  }

  function DropSign(s: string): string {
    if s != "" && (s[0] == '+' || s[0] == '-') then s[1..] else s
  }

  function ExponentStart(s: string): (k: nat)
    ensures k <= |s| && (k < |s| ==> s[k] == 'e' || s[k] == 'E')
  {
    if s == "" || s[0] == 'e' || s[0] == 'E' then 0 else 1 + ExponentStart(s[1..])
  }

  predicate IsMantissa(s: string) {
    var point := IndexOf('.', s);
    && AllDigits(s[..point])
    && (point < |s| ==> AllDigits(s[point + 1..]))
    && (point > 0 || point + 1 < |s|)
  }

  predicate IsExponent(s: string) {
    s == "" || (DropSign(s[1..]) != "" && AllDigits(DropSign(s[1..])))
  }

  predicate IsFinite(mantissa: string, exponent: string)
    requires IsMantissa(mantissa) && IsExponent(exponent)
  {
    var point := IndexOf('.', mantissa);
    var fraction := if point < |mantissa| then mantissa[point + 1..] else "";
    var digits := NatOf(mantissa[..point] + fraction);
    var power := if exponent == "" then 0 else NatOf(DropSign(exponent[1..]));
    var e := (if |exponent| > 1 && exponent[1] == '-' then -power else power) - |fraction|;
    IsBelow(digits, e, FiniteLimit())
  }

  /** `digits` times ten to the `e` is below the limit. */
  predicate IsBelow(digits: nat, e: int, limit: int) {
    if e >= 0 then digits * Pow10(e) < limit else digits < limit * Pow10(-e)
  }

  predicate IsLiteral(s: string) {
    IsMantissa(s[..ExponentStart(s)]) && IsExponent(s[ExponentStart(s)..])
  }

  /** A decimal literal that reads as a finite number, with space allowed around it. */
  predicate IsPlainNumber(value: string) {
    var literal := DropSign(Trim(value));
    IsLiteral(literal) && IsFinite(literal[..ExponentStart(literal)], literal[ExponentStart(literal)..])
  }

  predicate NeedsQuoteMark(value: string) {
    value != "" && IsFormulaPrefix(value[0]) && !(value[0] == '-' && IsPlainNumber(value))
  }

  function Neutralise(value: string): string {
    if NeedsQuoteMark(value) then "'" + value else value
  }

  // ---------- the writer ----------

  predicate IsSpecial(c: char) {
    c == '"' || c == ',' || c == '\n' || c == '\r'
  }

  function DoubleQuotes(s: string): string {
    if s == "" then "" else (if s[0] == '"' then "\"\"" else [s[0]]) + DoubleQuotes(s[1..])
  }

  function QuoteField(raw: string): string {
    if exists c <- raw :: IsSpecial(c) then "\"" + DoubleQuotes(raw) + "\"" else raw
  }

  function CsvField(cell: Cell): string {
    match cell
    case Absent => ""
    case Text(value) => QuoteField(Neutralise(value))
  }

  function Join(parts: seq<string>, separator: string): string {
    if parts == [] then "" else if |parts| == 1 then parts[0]
    else parts[0] + separator + Join(parts[1..], separator)
  }

  function CsvFields(fields: seq<Cell>): seq<string> {
    seq(|fields|, i requires 0 <= i < |fields| => CsvField(fields[i]))
  }

  function CsvRow(fields: seq<Cell>): string {
    Join(CsvFields(fields), ",")
  }

  function CsvRows(rows: seq<seq<Cell>>): seq<string> {
    seq(|rows|, i requires 0 <= i < |rows| => CsvRow(rows[i]))
  }

  function ToCsv(header: seq<Cell>, rows: seq<seq<Cell>>): string {
    [BOM] + Join([CsvRow(header)] + CsvRows(rows), CRLF) + CRLF
  }

  // ---------- the reader ----------

  datatype Split<T> = Split(head: T, rest: string)

  /** The inside of an escaped field, up to and including its closing quote. */
  function ReadQuoted(s: string): (r: Option<Split<string>>)
    ensures r.Some? ==> |r.value.rest| < |s|
  {
    if s == "" then None
    else if s[0] == '"' then
      if |s| > 1 && s[1] == '"' then
        match ReadQuoted(s[2..])
        case None => None
        case Some(Split(head, rest)) => Some(Split("\"" + head, rest))
      else Some(Split("", s[1..]))
    else
      match ReadQuoted(s[1..])
      case None => None
      case Some(Split(head, rest)) => Some(Split([s[0]] + head, rest))
  }

  function ReadPlain(s: string): (r: Split<string>)
    ensures |r.rest| <= |s|
  {
    if s == "" || IsSpecial(s[0]) then Split("", s)
    else
      var Split(head, rest) := ReadPlain(s[1..]);
      Split([s[0]] + head, rest)
  }

  function ReadField(s: string): (r: Option<Split<string>>)
    ensures r.Some? ==> |r.value.rest| <= |s|
  {
    if s != "" && s[0] == '"' then ReadQuoted(s[1..]) else Some(ReadPlain(s))
  }

  function ReadRecord(s: string): (r: Option<Split<seq<string>>>)
    ensures r.Some? ==> |r.value.rest| < |s|
    decreases |s|
  {
    match ReadField(s)
    case None => None
    case Some(Split(field, rest)) =>
      if "," <= rest then
        match ReadRecord(rest[1..])
        case None => None
        case Some(Split(fields, rest')) => Some(Split([field] + fields, rest'))
      else if CRLF <= rest then Some(Split([field], rest[2..]))
      else None
  }

  function ReadRecords(s: string): Option<seq<seq<string>>>
    decreases |s|
  {
    if s == "" then Some([])
    else
      match ReadRecord(s)
      case None => None
      case Some(Split(record, rest)) =>
        match ReadRecords(rest)
        case None => None
        case Some(records) => Some([record] + records)
  }

  /** A document is a byte order mark and records. */
  function ReadCsv(s: string): Option<seq<seq<string>>> {
    if [BOM] <= s then ReadRecords(s[1..]) else None
  }

  // ---------- what should come back ----------

  function CellText(cell: Cell): string {
    match cell
    case Absent => ""
    case Text(value) => Neutralise(value)
  }

  function RowText(fields: seq<Cell>): seq<string> {
    seq(|fields|, i requires 0 <= i < |fields| => CellText(fields[i]))
  }

  function TableText(rows: seq<seq<Cell>>): seq<seq<string>> {
    seq(|rows|, i requires 0 <= i < |rows| => RowText(rows[i]))
  }

  /** A row of no fields prints as the empty line, which is one empty field. */
  function RecoveredRow(fields: seq<Cell>): seq<string> {
    if fields == [] then [""] else RowText(fields)
  }

  function Recovered(rows: seq<seq<Cell>>): seq<seq<string>> {
    seq(|rows|, i requires 0 <= i < |rows| => RecoveredRow(rows[i]))
  }

  // ---------- reading undoes writing ----------

  lemma {:induction false} ReadDoubled(s: string, rest: string)
    requires rest == "" || rest[0] != '"'
    ensures ReadQuoted(DoubleQuotes(s) + "\"" + rest) == Some(Split(s, rest))
    decreases |s|
  {
    var text := DoubleQuotes(s) + "\"" + rest;
    if s == "" {
      assert text == "\"" + rest;
    } else {
      var tail := DoubleQuotes(s[1..]) + "\"" + rest;
      ReadDoubled(s[1..], rest);
      if s[0] == '"' {
        assert text == "\"\"" + tail;
        assert text[2..] == tail;
      } else {
        assert text == [s[0]] + tail;
        assert text[1..] == tail;
      }
      assert s == [s[0]] + s[1..];
    }
  }

  lemma {:induction false} ReadBare(s: string, rest: string)
    requires forall c <- s :: !IsSpecial(c)
    requires rest == "" || IsSpecial(rest[0])
    ensures ReadPlain(s + rest) == Split(s, rest)
    decreases |s|
  {
    if s == "" {
      assert s + rest == rest;
    } else {
      assert (s + rest)[0] == s[0] && (s + rest)[1..] == s[1..] + rest;
      ReadBare(s[1..], rest);
      assert s == [s[0]] + s[1..];
    }
  }

  predicate EndsField(rest: string) {
    "," <= rest || CRLF <= rest
  }

  lemma OpenQuote(tail: string)
    ensures ReadField("\"" + tail) == ReadQuoted(tail)
  {
    assert ("\"" + tail)[1..] == tail;
  }

  lemma QuotedReadsBack(raw: string, rest: string)
    requires EndsField(rest)
    ensures ReadField("\"" + DoubleQuotes(raw) + "\"" + rest) == Some(Split(raw, rest))
  {
    ReadDoubled(raw, rest);
    var tail := DoubleQuotes(raw) + "\"" + rest;
    OpenQuote(tail);
    Regroup("\"", DoubleQuotes(raw) + "\"", rest);
    Regroup("\"", DoubleQuotes(raw), "\"");
  }

  lemma FieldReadsBack(cell: Cell, rest: string)
    requires EndsField(rest)
    ensures ReadField(CsvField(cell) + rest) == Some(Split(CellText(cell), rest))
  {
    var raw := CellText(cell);
    assert CsvField(cell) == QuoteField(raw);
    if exists c <- raw :: IsSpecial(c) {
      QuotedReadsBack(raw, rest);
    } else {
      ReadBare(raw, rest);
      assert raw != "" ==> (raw + rest)[0] == raw[0];
    }
  }

  lemma ReadLast(s: string, field: string, rest: string)
    requires ReadField(s) == Some(Split(field, CRLF + rest))
    ensures ReadRecord(s) == Some(Split([field], rest))
  {
    assert (CRLF + rest)[2..] == rest;
  }

  lemma ReadNext(s: string, field: string, tail: string, fields: seq<string>, rest: string)
    requires ReadField(s) == Some(Split(field, "," + tail)) && ReadRecord(tail) == Some(Split(fields, rest))
    ensures ReadRecord(s) == Some(Split([field] + fields, rest))
  {
    assert ("," + tail)[1..] == tail;
  }

  lemma LastReadsBack(cell: Cell, rest: string)
    ensures ReadRecord(CsvRow([cell]) + CRLF + rest) == Some(Split([CellText(cell)], rest))
  {
    FieldReadsBack(cell, CRLF + rest);
    var text := CsvRow([cell]) + CRLF + rest;
    assert text == CsvField(cell) + (CRLF + rest);
    ReadLast(text, CellText(cell), rest);
  }

  lemma PrependReadsBack(cell: Cell, more: string, fields: seq<string>, rest: string)
    requires ReadRecord(more + CRLF + rest) == Some(Split(fields, rest))
    ensures ReadRecord(CsvField(cell) + "," + more + CRLF + rest) == Some(Split([CellText(cell)] + fields, rest))
  {
    var tail := more + CRLF + rest;
    var text := CsvField(cell) + "," + more + CRLF + rest;
    var field := CsvField(cell);
    Regroup(field, ",", more);
    Regroup(field, "," + more, CRLF);
    Regroup(field, "," + more + CRLF, rest);
    assert "," + more + CRLF + rest == "," + tail;
    FieldReadsBack(cell, "," + tail);
    ReadNext(text, CellText(cell), tail, fields, rest);
  }

  lemma RowSplits(fields: seq<Cell>)
    requires |fields| > 1
    ensures CsvRow(fields) == CsvField(fields[0]) + "," + CsvRow(fields[1..])
    ensures RowText(fields) == [CellText(fields[0])] + RowText(fields[1..])
  {
    assert CsvFields(fields)[1..] == CsvFields(fields[1..]);
  }

  lemma {:induction false} RowReadsBack(fields: seq<Cell>, rest: string)
    requires fields != []
    ensures ReadRecord(CsvRow(fields) + CRLF + rest) == Some(Split(RowText(fields), rest))
    decreases |fields|
  {
    if |fields| == 1 {
      assert fields == [fields[0]];
      LastReadsBack(fields[0], rest);
      assert RowText(fields) == [CellText(fields[0])];
    } else {
      RowReadsBack(fields[1..], rest);
      RowSplits(fields);
      PrependReadsBack(fields[0], CsvRow(fields[1..]), RowText(fields[1..]), rest);
    }
  }

  lemma RecordReadsBack(fields: seq<Cell>, rest: string)
    ensures ReadRecord(CsvRow(fields) + CRLF + rest) == Some(Split(RecoveredRow(fields), rest))
  {
    if fields == [] {
      assert CsvRow([]) == CsvField(Absent) == "";
      assert CsvRow([Absent]) == "";
      RowReadsBack([Absent], rest);
      assert RowText([Absent]) == [""];
    } else {
      RowReadsBack(fields, rest);
    }
  }

  lemma RowsApart(rows: seq<seq<Cell>>)
    requires rows != []
    ensures CsvRows(rows)[0] == CsvRow(rows[0]) && CsvRows(rows)[1..] == CsvRows(rows[1..])
    ensures Recovered(rows) == [RecoveredRow(rows[0])] + Recovered(rows[1..])
  {
  }

  lemma FirstRowApart(rows: seq<seq<Cell>>)
    requires rows != []
    ensures var tail := if |rows| == 1 then "" else Join(CsvRows(rows[1..]), CRLF) + CRLF;
            Join(CsvRows(rows), CRLF) + CRLF == CsvRow(rows[0]) + CRLF + tail
    ensures Recovered(rows) == [RecoveredRow(rows[0])] + Recovered(rows[1..])
  {
    RowsApart(rows);
    if |rows| > 1 {
      Regroup(CsvRow(rows[0]) + CRLF, Join(CsvRows(rows[1..]), CRLF), CRLF);
    }
  }

  lemma {:induction false} RowsReadBack(rows: seq<seq<Cell>>)
    requires rows != []
    ensures ReadRecords(Join(CsvRows(rows), CRLF) + CRLF) == Some(Recovered(rows))
    decreases |rows|
  {
    FirstRowApart(rows);
    if |rows| == 1 {
      RecordReadsBack(rows[0], "");
      assert ReadRecords("") == Some([]);
    } else {
      RecordReadsBack(rows[0], Join(CsvRows(rows[1..]), CRLF) + CRLF);
      RowsReadBack(rows[1..]);
    }
  }

  /** Reading the document gives back every row and every field, neutralised. */
  lemma CsvReadsBack(header: seq<Cell>, rows: seq<seq<Cell>>)
    ensures ReadCsv(ToCsv(header, rows)) == Some(Recovered([header] + rows))
  {
    RowsReadBack([header] + rows);
    HeaderFirst(header, rows);
    var body := Join(CsvRows([header] + rows), CRLF) + CRLF;
    assert ([BOM] + body)[1..] == body;
  }

  lemma HeaderFirst(header: seq<Cell>, rows: seq<seq<Cell>>)
    ensures ToCsv(header, rows) == [BOM] + (Join(CsvRows([header] + rows), CRLF) + CRLF)
  {
    assert CsvRows([header] + rows) == [CsvRow(header)] + CsvRows(rows);
    Regroup([BOM], Join(CsvRows([header] + rows), CRLF), CRLF);
  }

  /** The shape survives exactly when no row is without fields. */
  lemma ShapeSurvives(header: seq<Cell>, rows: seq<seq<Cell>>)
    ensures ReadCsv(ToCsv(header, rows)) == Some(TableText([header] + rows))
            <==> header != [] && [] !in rows
  {
    CsvReadsBack(header, rows);
    var table := [header] + rows;
    if header != [] && [] !in rows {
      assert forall i | 0 <= i < |table| :: table[i] != [];
      assert Recovered(table) == TableText(table);
    } else {
      var i := if header == [] then 0 else var j :| 0 <= j < |rows| && rows[j] == []; j + 1;
      assert table[i] == [];
      assert |Recovered(table)[i]| == 1 && |TableText(table)[i]| == 0;
    }
  }

  lemma SameRecoveredSameRows(table: seq<seq<Cell>>, table': seq<seq<Cell>>)
    requires Recovered(table) == Recovered(table')
    ensures CsvRows(table) == CsvRows(table')
  {
    assert |table| == |Recovered(table)| == |table'|;
    forall i | 0 <= i < |table| ensures CsvRow(table[i]) == CsvRow(table'[i]) {
      assert Recovered(table)[i] == Recovered(table')[i];
      SameTextSameRow(table[i], table'[i]);
    }
  }

  /** Two documents are the same text exactly when their recovered tables agree. */
  lemma PrintsAlike(header: seq<Cell>, rows: seq<seq<Cell>>, header': seq<Cell>, rows': seq<seq<Cell>>)
    ensures ToCsv(header, rows) == ToCsv(header', rows')
            <==> Recovered([header] + rows) == Recovered([header'] + rows')
  {
    CsvReadsBack(header, rows);
    CsvReadsBack(header', rows');
    if Recovered([header] + rows) == Recovered([header'] + rows') {
      SameRecoveredSameRows([header] + rows, [header'] + rows');
      HeaderFirst(header, rows);
      HeaderFirst(header', rows');
    }
  }

  lemma SameTextSameRow(fields: seq<Cell>, fields': seq<Cell>)
    requires RecoveredRow(fields) == RecoveredRow(fields')
    ensures CsvRow(fields) == CsvRow(fields')
  {
    var a := if fields == [] then [Absent] else fields;
    var b := if fields' == [] then [Absent] else fields';
    assert CsvRow([Absent]) == "" == CsvRow([]);
    SameTextSameFields(a, b);
  }

  lemma SameTextSameFields(a: seq<Cell>, b: seq<Cell>)
    requires RowText(a) == RowText(b)
    ensures CsvRow(a) == CsvRow(b)
  {
    assert |a| == |RowText(a)| == |b|;
    forall i | 0 <= i < |a| ensures CsvField(a[i]) == CsvField(b[i]) {
      assert RowText(a)[i] == RowText(b)[i];
    }
    assert CsvFields(a) == CsvFields(b);
  }

  // ---------- what a spreadsheet can make of a field ----------

  /** Harmless: no formula prefix, or a whole negative number and nothing else. */
  predicate IsHarmless(field: string) {
    field == "" || !IsFormulaPrefix(field[0]) || (field[0] == '-' && IsPlainNumber(field))
  }

  lemma RowHarmless(fields: seq<Cell>)
    ensures forall field <- RecoveredRow(fields) :: IsHarmless(field)
  {
    forall j | 0 <= j < |RecoveredRow(fields)| ensures IsHarmless(RecoveredRow(fields)[j]) {
      assert fields != [] ==> RecoveredRow(fields)[j] == CellText(fields[j]);
    }
  }

  lemma EveryFieldHarmless(header: seq<Cell>, rows: seq<seq<Cell>>)
    ensures var table := ReadCsv(ToCsv(header, rows));
            table.Some? && forall row <- table.value, field <- row :: IsHarmless(field)
  {
    CsvReadsBack(header, rows);
    var table := [header] + rows;
    forall i | 0 <= i < |table| ensures forall field <- Recovered(table)[i] :: IsHarmless(field) {
      RowHarmless(table[i]);
    }
  }

  function RawText(cell: Cell): string {
    match cell
    case Absent => ""
    case Text(value) => value
  }

  function RawRow(fields: seq<Cell>): seq<string> {
    seq(|fields|, i requires 0 <= i < |fields| => RawText(fields[i]))
  }

  function RawTable(rows: seq<seq<Cell>>): seq<seq<string>> {
    seq(|rows|, i requires 0 <= i < |rows| => RawRow(rows[i]))
  }

  ghost predicate PlainRow(fields: seq<Cell>) {
    fields != [] && forall cell <- fields :: IsHarmless(RawText(cell))
  }

  lemma RowExact(fields: seq<Cell>)
    ensures RecoveredRow(fields) == RawRow(fields) <==> PlainRow(fields)
  {
    forall i | 0 <= i < |fields| ensures CellText(fields[i]) == RawText(fields[i]) <==> IsHarmless(RawText(fields[i])) {
      HarmlessUntouched(RawText(fields[i]));
    }
    if fields != [] && RecoveredRow(fields) == RawRow(fields) {
      forall i | 0 <= i < |fields| ensures IsHarmless(RawText(fields[i])) {
        assert RowText(fields)[i] == RawRow(fields)[i];
      }
    }
    if fields == [] {
      assert |RecoveredRow(fields)| != |RawRow(fields)|;
    }
  }

  /** The very table comes back exactly when every row has a field and no field is harmful. */
  lemma ReadsBackExactly(header: seq<Cell>, rows: seq<seq<Cell>>)
    ensures ReadCsv(ToCsv(header, rows)) == Some(RawTable([header] + rows))
            <==> forall row <- [header] + rows :: PlainRow(row)
  {
    CsvReadsBack(header, rows);
    var table := [header] + rows;
    forall i | 0 <= i < |table| ensures Recovered(table)[i] == RawTable(table)[i] <==> PlainRow(table[i]) {
      RowExact(table[i]);
    }
    if Recovered(table) == RawTable(table) {
      forall row | row in table ensures PlainRow(row) {
        var i :| 0 <= i < |table| && table[i] == row;
        assert Recovered(table)[i] == RawTable(table)[i];
      }
    }
  }

  // ---------- writing undoes reading ----------

  function AsCells(fields: seq<string>): seq<Cell> {
    seq(|fields|, i requires 0 <= i < |fields| => Text(fields[i]))
  }

  function AsTable(rows: seq<seq<string>>): seq<seq<Cell>> {
    seq(|rows|, i requires 0 <= i < |rows| => AsCells(rows[i]))
  }

  lemma RecoveredTwice(fields: seq<Cell>)
    ensures RecoveredRow(AsCells(RecoveredRow(fields))) == RecoveredRow(fields)
  {
    var text := RecoveredRow(fields);
    forall i | 0 <= i < |text| ensures Neutralise(text[i]) == text[i] {
      if fields != [] && fields[i].Text? {
        NeutraliseCollides(fields[i].value, fields[i].value);
      }
    }
  }

  function AgainOf(text: seq<seq<string>>): seq<seq<Cell>>
    requires text != []
  {
    [AsCells(text[0])] + AsTable(text[1..])
  }

  lemma AgainAt(text: seq<seq<string>>, i: nat)
    requires i < |text|
    ensures |AgainOf(text)| == |text| && AgainOf(text)[i] == AsCells(text[i])
  {
  }

  lemma RecoveredAgain(table: seq<seq<Cell>>)
    requires table != []
    ensures Recovered(AgainOf(Recovered(table))) == Recovered(table)
  {
    var text := Recovered(table);
    forall i: nat | i < |text| ensures |AgainOf(text)| == |text| && RecoveredRow(AgainOf(text)[i]) == text[i] {
      AgainAt(text, i);
      RecoveredTwice(table[i]);
    }
  }

  /** Writing what was read from a document gives the document back, character for character. */
  lemma WritesBack(header: seq<Cell>, rows: seq<seq<Cell>>)
    ensures var table := ReadCsv(ToCsv(header, rows));
            table.Some? && table.value != []
            && ToCsv(AsCells(table.value[0]), AsTable(table.value[1..])) == ToCsv(header, rows)
  {
    CsvReadsBack(header, rows);
    var text := Recovered([header] + rows);
    RecoveredAgain([header] + rows);
    PrintsAlike(AsCells(text[0]), AsTable(text[1..]), header, rows);
  }

  /** Only a harmful field is changed, so negative amounts stay numbers. */
  lemma HarmlessUntouched(value: string)
    ensures Neutralise(value) == value <==> IsHarmless(value)
    ensures IsHarmless(Neutralise(value))
  {
    assert |"'" + value| == |value| + 1;
  }

  predicate IsNumberChar(c: char) {
    IsDigit(c) || c == '.' || c == 'e' || c == 'E' || c == '+' || c == '-' || IsSpace(c)
  }

  lemma LiteralChars(trimmed: string)
    requires IsLiteral(DropSign(trimmed))
    ensures forall c <- trimmed :: IsNumberChar(c)
  {
    var literal := DropSign(trimmed);
    var k := ExponentStart(literal);
    assert literal == literal[..k] + literal[k..];
    MantissaChars(literal[..k]);
    ExponentChars(literal[k..]);
    assert trimmed == literal || trimmed == [trimmed[0]] + literal;
  }

  /** A number has room for digits, one point, an exponent and space: no names, no operators
      between numbers, no brackets, no cell references. */
  lemma PlainNumberHasNoPayload(value: string)
    requires IsPlainNumber(value)
    ensures forall c <- value :: IsNumberChar(c)
  {
    LiteralChars(Trim(value));
    var lead := TrimStartParts(value);
    var trail := TrimEndParts(TrimStart(value));
    assert value == lead + (Trim(value) + trail);
  }

  lemma MantissaChars(s: string)
    requires IsMantissa(s)
    ensures forall c <- s :: IsNumberChar(c)
  {
    var point := IndexOf('.', s);
    if point < |s| {
      assert s == s[..point] + "." + s[point + 1..];
    } else {
      assert s == s[..point];
    }
  }

  lemma ExponentChars(s: string)
    requires IsExponent(s) && (s != "" ==> s[0] == 'e' || s[0] == 'E')
    ensures forall c <- s :: IsNumberChar(c)
  {
    if s != "" {
      var digits := DropSign(s[1..]);
      assert s[1..] == digits || s[1..] == [s[1]] + digits;
      assert s == [s[0]] + s[1..];
    }
  }

  /** Neutralising loses one thing: whether the quote mark was there already. */
  lemma NeutraliseCollides(v: string, w: string)
    ensures Neutralise(v) == Neutralise(w)
            <==> v == w || (NeedsQuoteMark(w) && v == "'" + w) || (NeedsQuoteMark(v) && w == "'" + v)
    ensures Neutralise(Neutralise(v)) == Neutralise(v)
  {
    assert ("'" + v)[1..] == v && ("'" + w)[1..] == w;
  }

  // ---------- the same in plain characters ----------

  predicate AreFigures(s: string) {
    forall c <- s :: '0' <= c <= '9'
  }

  /** A minus, figures with at most one point among them, perhaps an exponent, then blanks. */
  ghost predicate NegativeShape(field: string, whole: string, point: string, fraction: string, exponent: string, blanks: string) {
    && field == "-" + (whole + point + fraction) + exponent + blanks
    && AreFigures(whole) && AreFigures(fraction) && whole + fraction != ""
    && (point == "." || (point == "" && fraction == ""))
    && (exponent == "" || ExponentShape(exponent))
    && forall c <- blanks :: IsBlank(c)
  }

  ghost predicate ExponentShape(exponent: string) {
    exists mark: string, sign: string, figures: string ::
      && exponent == mark + sign + figures
      && (mark == "e" || mark == "E") && (sign == "" || sign == "+" || sign == "-")
      && AreFigures(figures) && figures != ""
  }

  ghost predicate IsNegativeNumeral(field: string) {
    exists whole, point, fraction, exponent, blanks :: NegativeShape(field, whole, point, fraction, exponent, blanks)
  }

  lemma ExponentHasShape(s: string)
    requires s != "" && (s[0] == 'e' || s[0] == 'E') && IsExponent(s)
    ensures ExponentShape(s)
  {
    var figures := DropSign(s[1..]);
    var sign := if s[1..] == figures then "" else [s[1]];
    assert s == [s[0]] + sign + figures;
  }

  lemma MantissaHasShape(s: string) returns (whole: string, point: string, fraction: string)
    requires IsMantissa(s)
    ensures s == whole + point + fraction && AreFigures(whole) && AreFigures(fraction) && whole + fraction != ""
    ensures point == "." || (point == "" && fraction == "")
  {
    var k := IndexOf('.', s);
    whole := s[..k];
    if k < |s| {
      point, fraction := ".", s[k + 1..];
      assert s == whole + point + fraction;
    } else {
      point, fraction := "", "";
      assert s == whole + point + fraction;
    }
  }

  lemma TrimMinus(field: string) returns (blanks: string)
    requires field != "" && field[0] == '-'
    ensures Trim(field) != "" && Trim(field)[0] == '-'
    ensures field == Trim(field) + blanks && forall c <- blanks :: IsBlank(c)
  {
    TrimEndKeepsFirst(field);
    blanks := TrimEndParts(field);
  }

  lemma LiteralHasShape(literal: string) returns (whole: string, point: string, fraction: string, exponent: string)
    requires IsLiteral(literal)
    ensures literal == (whole + point + fraction) + exponent
    ensures AreFigures(whole) && AreFigures(fraction) && whole + fraction != ""
    ensures point == "." || (point == "" && fraction == "")
    ensures exponent == "" || ExponentShape(exponent)
  {
    var k := ExponentStart(literal);
    var mantissa := literal[..k];
    exponent := literal[k..];
    assert literal == mantissa + exponent;
    whole, point, fraction := MantissaHasShape(mantissa);
    if exponent != "" {
      ExponentHasShape(exponent);
    }
  }

  lemma MinusApart(field: string) returns (literal: string, blanks: string)
    requires field != "" && field[0] == '-'
    ensures literal == DropSign(Trim(field)) && field == "-" + literal + blanks
    ensures forall c <- blanks :: IsBlank(c)
  {
    blanks := TrimMinus(field);
    literal := Trim(field)[1..];
    assert Trim(field) == "-" + literal;
  }

  /** Whatever counts as a negative number is written like one. */
  lemma PlainNegativeHasShape(field: string)
    requires field != "" && field[0] == '-' && IsPlainNumber(field)
    ensures IsNegativeNumeral(field)
  {
    var literal, blanks := MinusApart(field);
    var whole, point, fraction, exponent := LiteralHasShape(literal);
    Regroup("-", whole + point + fraction, exponent);
    assert NegativeShape(field, whole, point, fraction, exponent, blanks);
  }

  // ---------- ordinary negative amounts are exempt ----------

  lemma {:induction false} ThousandsBelowPowers(k: nat)
    ensures Pow10(3 * k) <= Pow2(10 * k)
  {
    if k > 0 {
      ThousandsBelowPowers(k - 1);
      var t, p := Pow10(3 * k - 3), Pow2(10 * k - 10);
      assert Pow10(3 * k) == 10 * Pow10(3 * k - 1) == 100 * Pow10(3 * k - 2) == 1000 * t;
      Pow2Ten(10 * k - 10);
    }
  }

  lemma Pow2Ten(n: nat)
    ensures Pow2(n + 10) == 1024 * Pow2(n)
  {
    assert Pow2(n + 5) == 2 * Pow2(n + 4) == 4 * Pow2(n + 3) == 8 * Pow2(n + 2) == 16 * Pow2(n + 1) == 32 * Pow2(n);
    assert Pow2(n + 10) == 2 * Pow2(n + 9) == 4 * Pow2(n + 8) == 8 * Pow2(n + 7) == 16 * Pow2(n + 6) == 32 * Pow2(n + 5);
  }

  lemma {:induction false} Pow2Grows(m: nat, n: nat)
    requires m <= n
    ensures Pow2(m) <= Pow2(n)
    decreases n
  {
    if m < n {
      Pow2Grows(m, n - 1);
    }
  }

  lemma LargestAmount()
    ensures Pow10(307) <= FiniteLimit()
  {
    ThousandsBelowPowers(102);
    Pow2Grows(970, 1020);
    assert Pow2(1024) == 2 * Pow2(1023) == 4 * Pow2(1022) == 8 * Pow2(1021) == 16 * Pow2(1020);
    assert Pow10(307) == 10 * Pow10(306);
  }

  lemma AmountFinite(whole: string, fraction: string)
    requires AllDigits(whole) && AllDigits(fraction) && |whole| <= 307
    ensures IsBelow(NatOf(whole + fraction), -|fraction|, FiniteLimit())
  {
    LargestAmount();
    AmountBelow(whole, fraction, 307, FiniteLimit());
  }

  lemma AmountDigits(whole: string, fraction: string) returns (n: int, a: int, p: int)
    requires AllDigits(whole) && AllDigits(fraction)
    ensures n == NatOf(whole + fraction) && a == Pow10(|whole|) && p == Pow10(|fraction|)
    ensures n < a * p
  {
    NatOfBound(whole + fraction);
    Pow10Adds(|whole|, |fraction|);
    n, a, p := NatOf(whole + fraction), Pow10(|whole|), Pow10(|fraction|);
    assert |whole + fraction| == |whole| + |fraction|;
  }

  lemma AmountBelow(whole: string, fraction: string, width: nat, limit: int)
    requires AllDigits(whole) && AllDigits(fraction) && |whole| <= width && Pow10(width) <= limit
    ensures IsBelow(NatOf(whole + fraction), -|fraction|, limit)
  {
    var n, a, p := AmountDigits(whole, fraction);
    Pow10Mono(|whole|, width);
    BelowProduct(n, a, p, limit);
    BelowPower(n, |fraction|, p, limit);
  }

  lemma BelowPower(n: nat, scale: nat, p: int, limit: int)
    requires p == Pow10(scale) && n < limit * p
    ensures IsBelow(n, -(scale as int), limit)
  {
    if scale == 0 {
      assert p == 1;
    }
  }

  lemma BelowProduct(n: int, a: int, p: int, limit: int)
    requires n < a * p && a <= limit && p > 0
    ensures n < limit * p
  {
    ProductBelow(a, limit, p);
  }

  lemma ProductBelow(a: int, b: int, p: int)
    requires a <= b && p > 0
    ensures a * p <= b * p
  {
  }

  lemma {:induction false} NoExponent(s: string)
    requires 'e' !in s && 'E' !in s
    ensures ExponentStart(s) == |s|
  {
    if s != "" {
      assert s[0] in s && s == [s[0]] + s[1..];
      NoExponent(s[1..]);
    }
  }

  lemma PointAfter(whole: string, fraction: string)
    requires AllDigits(whole)
    ensures IndexOf('.', whole + "." + fraction) == |whole| && IndexOf('.', whole) == |whole|
  {
    assert whole + "." + fraction == whole + ("." + fraction);
    IndexOfAfter('.', whole, "." + fraction);
    IndexOfAfter('.', whole, "");
    assert whole + "" == whole;
  }

  lemma FiguresAt(s: string)
    requires AreFigures(s)
    ensures forall i | 0 <= i < |s| :: '0' <= s[i] <= '9'
  {
    forall i | 0 <= i < |s| ensures '0' <= s[i] <= '9' {
      assert s[i] in s;
    }
  }

  /** A minus and figures is a number. */
  lemma OrdinaryWhole(whole: string)
    requires AreFigures(whole) && whole != "" && |whole| <= 307
    ensures IsPlainNumber("-" + whole)
  {
    FiguresAt(whole);
    WholeIsLiteral(whole);
    NumeralIsPlain(whole);
  }

  /** So is a minus and figures with a point and more figures. */
  lemma OrdinaryPointed(whole: string, fraction: string)
    requires AreFigures(whole) && AreFigures(fraction) && whole != "" && fraction != "" && |whole| <= 307
    ensures IsPlainNumber("-" + (whole + "." + fraction))
  {
    FiguresAt(whole);
    FiguresAt(fraction);
    PointedIsLiteral(whole, fraction);
    NumeralIsPlain(whole + "." + fraction);
  }

  lemma WholeIsLiteral(whole: string)
    requires AreFigures(whole) && whole != "" && |whole| <= 307
    ensures IsMantissa(whole) && IsFinite(whole, "")
  {
    WholeIsMantissa(whole);
    AmountFinite(whole, "");
  }

  lemma WholeIsMantissa(whole: string)
    requires AreFigures(whole) && whole != ""
    ensures IndexOf('.', whole) == |whole| && whole[..|whole|] + "" == whole + "" && IsMantissa(whole)
  {
    PointAfter(whole, "");
    assert whole[..|whole|] == whole;
  }

  lemma PointedIsLiteral(whole: string, fraction: string)
    requires AreFigures(whole) && AreFigures(fraction) && whole != "" && fraction != "" && |whole| <= 307
    ensures IsMantissa(whole + "." + fraction) && IsFinite(whole + "." + fraction, "")
  {
    var literal := whole + "." + fraction;
    PointAfter(whole, fraction);
    AmountFinite(whole, fraction);
    assert literal[..|whole|] == whole && literal[|whole| + 1..] == fraction;
  }

  ghost predicate NumeralChars(literal: string) {
    forall i | 0 <= i < |literal| :: '0' <= literal[i] <= '9' || literal[i] == '.'
  }

  lemma TrimNumeral(literal: string)
    requires literal != "" && NumeralChars(literal)
    ensures DropSign(Trim("-" + literal)) == literal
  {
    var value := "-" + literal;
    assert value[|value| - 1] == literal[|literal| - 1];
    TrimNothing(value);
    assert value[1..] == literal;
  }

  lemma NumeralHasNoExponent(literal: string)
    requires NumeralChars(literal)
    ensures literal[..ExponentStart(literal)] == literal && literal[ExponentStart(literal)..] == ""
  {
    NoExponent(literal);
  }

  lemma NumeralIsPlain(literal: string)
    requires literal != "" && NumeralChars(literal) && IsMantissa(literal) && IsFinite(literal, "")
    ensures IsPlainNumber("-" + literal)
  {
    TrimNumeral(literal);
    NumeralHasNoExponent(literal);
  }

  // ---------- what becomes of every field ----------

  /** What a document gives back for a text, by its first character. */
  ghost predicate Fate(text: string, back: string) {
    if text == "" || (text[0] != '=' && text[0] != '+' && text[0] != '-' && text[0] != '@' && text[0] != '\t' && text[0] != '\r')
    then back == text
    else if text[0] == '-'
    then (back == text && IsNegativeNumeral(text)) || back == "'" + text
    else back == "'" + text
  }

  lemma NeutraliseFate(text: string)
    ensures Fate(text, Neutralise(text))
  {
    if text != "" && text[0] == '-' && IsPlainNumber(text) {
      PlainNegativeHasShape(text);
    }
  }

  /** A written text comes back untouched when it begins with none of the six formula
      characters, behind a quote mark when it begins with one, except that a negative
      numeral comes back untouched: every ordinary one does. */
  lemma EveryFieldFate(header: seq<Cell>, rows: seq<seq<Cell>>, i: nat, j: nat)
    requires i < |[header] + rows| && j < |([header] + rows)[i]|
    ensures var table, cell := ReadCsv(ToCsv(header, rows)), ([header] + rows)[i][j];
            && table.Some? && i < |table.value| && j < |table.value[i]|
            && (cell.Absent? ==> table.value[i][j] == "")
            && (cell.Text? ==> Fate(cell.value, table.value[i][j]))
            && (forall whole, fraction | cell == Text("-" + whole + "." + fraction) || cell == Text("-" + whole) ::
                  AreFigures(whole) && AreFigures(fraction) && whole != "" && fraction != "" && |whole| <= 307
                  ==> table.value[i][j] == cell.value)
  {
    CsvReadsBack(header, rows);
    var table, cell := [header] + rows, ([header] + rows)[i][j];
    assert Recovered(table)[i][j] == CellText(cell);
    if cell.Text? {
      NeutraliseFate(cell.value);
    }
    forall whole, fraction |
      (cell == Text("-" + whole + "." + fraction) || cell == Text("-" + whole))
      && AreFigures(whole) && AreFigures(fraction) && whole != "" && fraction != "" && |whole| <= 307
      ensures CellText(cell) == cell.value
    {
      OrdinaryWhole(whole);
      OrdinaryPointed(whole, fraction);
      Regroup("-", whole + ".", fraction);
      Regroup("-", whole, ".");
    }
  }

  /** No field of a document begins like a formula, but for negative numerals. */
  lemma NoFormulaReadBack(header: seq<Cell>, rows: seq<seq<Cell>>)
    ensures var table := ReadCsv(ToCsv(header, rows));
            table.Some? && forall row <- table.value, field <- row | field != "" ::
              && field[0] != '=' && field[0] != '+' && field[0] != '@' && field[0] != '\t' && field[0] != '\r'
              && (field[0] == '-' ==> IsNegativeNumeral(field))
  {
    EveryFieldHarmless(header, rows);
    var table := ReadCsv(ToCsv(header, rows)).value;
    forall row <- table, field <- row | field != ""
      ensures && field[0] != '=' && field[0] != '+' && field[0] != '@' && field[0] != '\t' && field[0] != '\r'
              && (field[0] == '-' ==> IsNegativeNumeral(field))
    {
      assert IsHarmless(field);
      if field[0] == '-' {
        PlainNegativeHasShape(field);
      }
    }
  }

  /** The marks around the fields: the byte order mark, commas, and a carriage return and
      line feed after every record. */
  lemma DocumentMarks(a: string, b: string, c: string)
    requires (forall x <- a :: 'a' <= x <= 'z') && (forall x <- b :: 'a' <= x <= 'z') && (forall x <- c :: 'a' <= x <= 'z')
    ensures ToCsv([Text(a), Text(b)], [[Text(c)]]) == "\U{FEFF}" + a + "," + b + "\r\n" + c + "\r\n"
  {
    var row, next := [Text(a), Text(b)], [Text(c)];
    RowMarks(a, b, c);
    assert CsvRows([next]) == [CsvRow(next)];
    assert [CsvRow(row)] + [CsvRow(next)] == [CsvRow(row), CsvRow(next)];
    TwoLines(CsvRow(row), CsvRow(next));
    DocumentText(a + "," + b, c);
  }

  lemma TwoLines(x: string, y: string)
    ensures Join([x, y], CRLF) == x + "\r\n" + y
  {
    assert [x, y][1..] == [y];
  }

  lemma DocumentText(x: string, y: string)
    ensures [BOM] + (x + "\r\n" + y) + CRLF == "\U{FEFF}" + x + "\r\n" + y + "\r\n"
  {
    Regroup([BOM], x + "\r\n", y);
    Regroup([BOM], x, "\r\n");
  }

  lemma RowMarks(a: string, b: string, c: string)
    requires (forall x <- a :: 'a' <= x <= 'z') && (forall x <- b :: 'a' <= x <= 'z') && (forall x <- c :: 'a' <= x <= 'z')
    ensures CsvRow([Text(a), Text(b)]) == a + "," + b && CsvRow([Text(c)]) == c
  {
    PlainField(a);
    PlainField(b);
    PlainField(c);
    assert CsvFields([Text(a), Text(b)]) == [a, b] && CsvFields([Text(c)]) == [c];
    assert [a, b][1..] == [b];
    assert Join([a, b], ",") == a + "," + Join([b], ",");
  }

  lemma PlainField(a: string)
    requires forall x <- a :: 'a' <= x <= 'z'
    ensures CsvField(Text(a)) == a
  {
    assert a != "" ==> a[0] in a;
  }
}
