/**
  The shareable report: what it prints is read back by an independent reader of the quoted-field
  grammar of section 2 of RFC 4180, with a line feed ending each record.
 */
module ShareableCsv {
  import opened Prelude

  /** A finite number as Rust prints it, or None for an absent or non-finite one. */
  type Number = Option<string>

  datatype ShareableRow = ShareableRow(
    description: string,
    symbol: string,
    instrId: string,
    venueSystem: string,
    kind: string,
    currency: string,
    weightPerc: Number,
    profitLossPerc: Number)

  const HEADER :=
    "description" + "," + ("symbol" + "," + ("instrId" + "," + ("venueSystem" + "," +
    ("type" + "," + ("currencyCd" + "," + ("weightPerc" + "," + "profitLossPerc"))))))

  /** Rust prints a finite `f64` with digits, a sign and a point only. */
  predicate NumberOk(v: Number) {
    v.Some? ==> forall i :: 0 <= i < |v.value| ==> '0' <= v.value[i] <= '9' || v.value[i] == '-' || v.value[i] == '.'
  }

  predicate RowOk(r: ShareableRow) {
    NumberOk(r.weightPerc) && NumberOk(r.profitLossPerc)
  }

  /* ---- printing ---- */

  predicate IsFormulaTrigger(c: char) {
    c in {'=', '+', '-', '@', ' ', '\t', '\n', '\r', '\U{0C}'}
  }

  function NeutralizeFormula(value: string): string {
    if value != "" && IsFormulaTrigger(value[0]) then "'" + value else value
  }

  function DoubleQuotes(value: string): string {
    if value == "" then ""
    else (if value[0] == '"' then ['"', '"'] else [value[0]]) + DoubleQuotes(value[1..])
  }

  predicate IsSpecial(c: char) {
    c == ',' || c == '"' || c == '\n' || c == '\r'
  }

  predicate HasSpecial(value: string) {
    value != "" && (IsSpecial(value[0]) || HasSpecial(value[1..]))
  }

  function CsvQuote(value: string): string {
    if HasSpecial(value) then ['"'] + DoubleQuotes(value) + ['"'] else value
  }

  function CsvTextCell(value: string): string {
    CsvQuote(NeutralizeFormula(value))
  }

  function FmtNumber(v: Number): string {
    v.GetOr("")
  }

  function Cells(r: ShareableRow): seq<string> {
    [CsvTextCell(r.description), CsvTextCell(r.symbol), CsvTextCell(r.instrId), CsvTextCell(r.venueSystem),
     CsvTextCell(r.kind), CsvTextCell(r.currency), FmtNumber(r.weightPerc), FmtNumber(r.profitLossPerc)]
  }

  function JoinCommas(cells: seq<string>): string {
    if cells == [] then ""
    else if |cells| == 1 then cells[0]
    else cells[0] + "," + JoinCommas(cells[1..])
  }

  function Lines(rows: seq<ShareableRow>): string {
    if rows == [] then "" else "\n" + JoinCommas(Cells(rows[0])) + Lines(rows[1..])
  }

  function Csv(rows: seq<ShareableRow>): string {
    HEADER + Lines(rows)
  }

  lemma {:induction false} LinesAppend(rows: seq<ShareableRow>, r: ShareableRow)
    ensures Lines(rows + [r]) == Lines(rows) + ("\n" + JoinCommas(Cells(r)))
  {
    hide Cells, JoinCommas;
    if rows == [] {
      assert (rows + [r])[1..] == [];
    } else {
      assert (rows + [r])[1..] == rows[1..] + [r];
      LinesAppend(rows[1..], r);
    }
  }

  /** The report as it is written: one buffer, appended to row by row. */
  method ShareableRowsToCsv(rows: seq<ShareableRow>) returns (out: string)
    ensures out == Csv(rows)
  {
    hide Cells, JoinCommas;
    out := HEADER;
    for i := 0 to |rows|
      invariant out == HEADER + Lines(rows[..i])
    {
      assert rows[..i + 1] == rows[..i] + [rows[i]];
      LinesAppend(rows[..i], rows[i]);
      out := out + ("\n" + JoinCommas(Cells(rows[i])));
    }
    assert rows[..|rows|] == rows;
  }

  /* ---- reading: an independent parser ---- */

  datatype Mode = FieldStart | Unquoted | Quoted | QuoteSeen

  /** Parse `s` with `field` read so far in `record`; None when the text breaks the grammar. */
  function ParseFrom(s: string, mode: Mode, field: string, record: seq<string>): Option<seq<seq<string>>> {
    if s == "" then (if mode == Quoted then None else Some([record + [field]]))
    else
      var c, rest := s[0], s[1..];
      if mode == Quoted then
        if c == '"' then ParseFrom(rest, QuoteSeen, field, record) else ParseFrom(rest, Quoted, field + [c], record)
      else if c == ',' then ParseFrom(rest, FieldStart, "", record + [field])
      else if c == '\n' then Following([record + [field]], ParseFrom(rest, FieldStart, "", []))
      else if c == '"' then
        match mode
        case FieldStart => ParseFrom(rest, Quoted, field, record)
        case QuoteSeen => ParseFrom(rest, Quoted, field + [c], record)
        case _ => None
      else if c == '\r' || mode == QuoteSeen then None
      else ParseFrom(rest, Unquoted, field + [c], record)
  }

  function Following(first: seq<seq<string>>, others: Option<seq<seq<string>>>): Option<seq<seq<string>>> {
    match others
    case Some(records) => Some(first + records)
    case None => None
  }

  function Parse(s: string): Option<seq<seq<string>>> {
    ParseFrom(s, FieldStart, "", [])
  }

  /* ---- the report reads back ---- */

  predicate AtDelimiter(s: string) {
    s == "" || s[0] == ',' || s[0] == '\n'
  }

  lemma {:induction false} ReadUnquoted(v: string, rest: string, mode: Mode, field: string, record: seq<string>)
    requires !HasSpecial(v) && AtDelimiter(rest) && mode in {FieldStart, Unquoted}
    ensures ParseFrom(v + rest, mode, field, record) == ParseFrom(rest, QuoteSeen, field + v, record)
  {
    if v == "" {
      assert v + rest == rest && field + v == field;
    } else {
      assert (v + rest)[1..] == v[1..] + rest;
      ReadUnquoted(v[1..], rest, Unquoted, field + [v[0]], record);
      assert field + [v[0]] + v[1..] == field + v;
    }
  }

  lemma {:induction false} ReadQuoted(v: string, rest: string, field: string, record: seq<string>)
    requires AtDelimiter(rest)
    ensures ParseFrom(DoubleQuotes(v) + ['"'] + rest, Quoted, field, record)
         == ParseFrom(rest, QuoteSeen, field + v, record)
  {
    hide ParseFrom, DoubleQuotes;
    OneQuoted(v, ['"'] + rest);
    assert DoubleQuotes(v) + (['"'] + rest) == DoubleQuotes(v) + ['"'] + rest;
    if v == "" {
      InsideQuotes('"', rest, field, record);
      assert field + v == field;
    } else {
      var tail := DoubleQuotes(v[1..]) + ['"'] + rest;
      assert DoubleQuotes(v[1..]) + (['"'] + rest) == tail;
      ReadQuoted(v[1..], rest, field + [v[0]], record);
      assert field + [v[0]] + v[1..] == field + v;
      InsideQuotes(v[0], tail, field, record);
      EscapedQuote(tail, field, record);
    }
  }

  /** The first character of a quoted value as it is written. */
  lemma {:induction false} OneQuoted(v: string, rest: string)
    ensures v == "" ==> DoubleQuotes(v) + rest == rest
    ensures v != "" ==>
      DoubleQuotes(v) + rest == (if v[0] == '"' then ['"', '"'] else [v[0]]) + (DoubleQuotes(v[1..]) + rest)
  {
  }

  /** One character inside quotes. */
  lemma {:induction false} InsideQuotes(c: char, rest: string, field: string, record: seq<string>)
    ensures ParseFrom([c] + rest, Quoted, field, record)
         == if c == '"' then ParseFrom(rest, QuoteSeen, field, record) else ParseFrom(rest, Quoted, field + [c], record)
  {
    assert ([c] + rest)[1..] == rest;
  }

  lemma {:induction false} EscapedQuote(rest: string, field: string, record: seq<string>)
    ensures ParseFrom(['"', '"'] + rest, Quoted, field, record) == ParseFrom(rest, Quoted, field + ['"'], record)
  {
    var s := ['"'] + rest;
    assert ['"', '"'] + rest == ['"'] + s && (['"'] + s)[1..] == s && s[1..] == rest;
  }

  /** Any value at all survives quoting: whatever it holds, the reader gets it back and stops at the delimiter. */
  lemma {:induction false} ReadCell(v: string, rest: string, record: seq<string>)
    requires AtDelimiter(rest)
    ensures ParseFrom(CsvQuote(v) + rest, FieldStart, "", record) == ParseFrom(rest, QuoteSeen, v, record)
  {
    assert "" + v == v;
    if HasSpecial(v) {
      var body := DoubleQuotes(v) + ['"'] + rest;
      assert CsvQuote(v) + rest == ['"'] + body;
      assert (['"'] + body)[1..] == body;
      ReadQuoted(v, rest, "", record);
    } else {
      ReadUnquoted(v, rest, FieldStart, "", record);
    }
  }

  predicate ReadsAs(cell: string, value: string) {
    cell == CsvQuote(value)
  }

  lemma {:induction false} ReadRecord(cells: seq<string>, values: seq<string>, rest: string, record: seq<string>)
    requires |cells| == |values| > 0 && forall i :: 0 <= i < |cells| ==> ReadsAs(cells[i], values[i])
    requires rest == "" || rest[0] == '\n'
    ensures ParseFrom(JoinCommas(cells) + rest, FieldStart, "", record)
         == ParseFrom(rest, QuoteSeen, values[|values| - 1], record + values[..|values| - 1])
  {
    hide CsvQuote;
    assert ReadsAs(cells[0], values[0]);
    if |cells| == 1 {
      assert record + values[..0] == record;
      ReadCell(values[0], rest, record);
    } else {
      var tail := JoinCommas(cells[1..]) + rest;
      assert JoinCommas(cells) + rest == cells[0] + ("," + tail);
      ReadCell(values[0], "," + tail, record);
      assert ("," + tail)[1..] == tail;
      assert forall i :: 0 <= i < |cells[1..]| ==> cells[1..][i] == cells[i + 1] && values[1..][i] == values[i + 1];
      assert forall i :: 0 <= i < |cells[1..]| ==> ReadsAs(cells[1..][i], values[1..][i]);
      ReadRecord(cells[1..], values[1..], rest, record + [values[0]]);
      assert record + [values[0]] + values[1..][..|values| - 2] == record + values[..|values| - 1];
    }
  }

  /** What a reader should get for one row: neutralized texts and the numbers as printed. */
  function Record(r: ShareableRow): seq<string> {
    [NeutralizeFormula(r.description), NeutralizeFormula(r.symbol), NeutralizeFormula(r.instrId),
     NeutralizeFormula(r.venueSystem), NeutralizeFormula(r.kind), NeutralizeFormula(r.currency),
     FmtNumber(r.weightPerc), FmtNumber(r.profitLossPerc)]
  }

  function Records(rows: seq<ShareableRow>): seq<seq<string>> {
    if rows == [] then [] else [Record(rows[0])] + Records(rows[1..])
  }

  const HEADER_FIELDS :=
    ["description", "symbol", "instrId", "venueSystem", "type", "currencyCd", "weightPerc", "profitLossPerc"]

  lemma NumbersNeedNoQuotes(v: Number)
    requires NumberOk(v)
    ensures ReadsAs(FmtNumber(v), FmtNumber(v))
  {
    NumericIsPlain(FmtNumber(v));
  }

  lemma {:induction false} NumericIsPlain(s: string)
    requires forall i :: 0 <= i < |s| ==> '0' <= s[i] <= '9' || s[i] == '-' || s[i] == '.'
    ensures !HasSpecial(s)
  {
    if s == "" {
    } else {
      NumericIsPlain(s[1..]);
    }
  }

  lemma CellsReadAsRecord(r: ShareableRow)
    requires RowOk(r)
    ensures |Cells(r)| == |Record(r)| == 8
    ensures forall i :: 0 <= i < 8 ==> ReadsAs(Cells(r)[i], Record(r)[i])
  {
    NumbersNeedNoQuotes(r.weightPerc);
    NumbersNeedNoQuotes(r.profitLossPerc);
    TextReads(r.description);
    TextReads(r.symbol);
    TextReads(r.instrId);
    TextReads(r.venueSystem);
    TextReads(r.kind);
    TextReads(r.currency);
    hide NeutralizeFormula, CsvTextCell, FmtNumber, ReadsAs, NumberOk;
    EightReadAs(Cells(r), Record(r));
  }

  lemma EightReadAs(cells: seq<string>, values: seq<string>)
    requires |cells| == |values| == 8
    requires ReadsAs(cells[0], values[0]) && ReadsAs(cells[1], values[1]) && ReadsAs(cells[2], values[2])
    requires ReadsAs(cells[3], values[3]) && ReadsAs(cells[4], values[4]) && ReadsAs(cells[5], values[5])
    requires ReadsAs(cells[6], values[6]) && ReadsAs(cells[7], values[7])
    ensures forall i :: 0 <= i < 8 ==> ReadsAs(cells[i], values[i])
  {
    hide ReadsAs;
  }

  lemma TextReads(value: string)
    ensures ReadsAs(CsvTextCell(value), NeutralizeFormula(value))
  {
  }

  /** A line feed closes the record in hand, whatever is read after it. */
  lemma {:induction false} CloseRecord(values: seq<string>, others: string)
    requires values != []
    ensures ParseFrom("\n" + others, QuoteSeen, values[|values| - 1], values[..|values| - 1])
         == Following([values], Parse(others))
    ensures ParseFrom("", QuoteSeen, values[|values| - 1], values[..|values| - 1]) == Some([values])
  {
    assert ("\n" + others)[1..] == others;
    assert values[..|values| - 1] + [values[|values| - 1]] == values;
  }

  lemma {:induction false} ReadLines(values: seq<string>, rows: seq<ShareableRow>)
    requires values != [] && forall i :: 0 <= i < |rows| ==> RowOk(rows[i])
    ensures ParseFrom(Lines(rows), QuoteSeen, values[|values| - 1], values[..|values| - 1])
         == Some([values] + Records(rows))
    decreases |rows|
  {
    hide Cells, Record, JoinCommas, ParseFrom, RowOk;
    if rows == [] {
      CloseRecord(values, "");
      assert [values] + [] == [values];
    } else {
      var r, others := rows[0], Lines(rows[1..]);
      var line := JoinCommas(Cells(r));
      assert RowOk(r);
      CellsReadAsRecord(r);
      LinesShape(rows[1..]);
      assert "\n" + line + others == "\n" + (line + others);
      CloseRecord(values, line + others);
      ReadRecord(Cells(r), Record(r), others, []);
      ReadLines(Record(r), rows[1..]);
      assert [] + Record(r)[..7] == Record(r)[..7];
      assert [values] + ([Record(r)] + Records(rows[1..])) == [values] + Records(rows);
    }
  }

  lemma {:induction false} LinesShape(rows: seq<ShareableRow>)
    ensures Lines(rows) == "" || Lines(rows)[0] == '\n'
  {
  }

  lemma HeaderIsItsFields()
    ensures JoinCommas(HEADER_FIELDS) == HEADER
    ensures forall i :: 0 <= i < 8 ==> ReadsAs(HEADER_FIELDS[i], HEADER_FIELDS[i])
  {
    forall i | 0 <= i < 8
      ensures ReadsAs(HEADER_FIELDS[i], HEADER_FIELDS[i])
    {
      HeaderFieldIsPlain(i);
    }
    hide ReadsAs;
    var f := HEADER_FIELDS;
    assert JoinCommas(f[6..]) == f[6] + "," + f[7];
    assert f[4..][1..] == f[5..] && f[5..][1..] == f[6..];
    assert JoinCommas(f[4..]) == f[4] + "," + (f[5] + "," + JoinCommas(f[6..]));
    assert f[2..][1..] == f[3..] && f[3..][1..] == f[4..];
    assert JoinCommas(f[2..]) == f[2] + "," + (f[3] + "," + JoinCommas(f[4..]));
    assert JoinCommas(f) == f[0] + "," + (f[1] + "," + JoinCommas(f[2..])) by { assert f[1..][1..] == f[2..]; }
  }

  lemma HeaderFieldIsPlain(i: nat)
    requires i < 8
    ensures ReadsAs(HEADER_FIELDS[i], HEADER_FIELDS[i])
  {
    WordIsPlain(HEADER_FIELDS[i]);
  }

  lemma {:induction false} WordIsPlain(s: string)
    requires forall i :: 0 <= i < |s| ==> 'A' <= s[i] <= 'z'
    ensures !HasSpecial(s)
  {
    if s == "" {
    } else {
      WordIsPlain(s[1..]);
    }
  }

  /** The printed report is well formed and reads back as the header and one 8-field record per row. */
  lemma {:induction false} ReportReadsBack(rows: seq<ShareableRow>)
    requires forall i :: 0 <= i < |rows| ==> RowOk(rows[i])
    ensures Parse(Csv(rows)) == Some([HEADER_FIELDS] + Records(rows))
    ensures HEADER_FIELDS == ["description", "symbol", "instrId", "venueSystem", "type", "currencyCd", "weightPerc",
                              "profitLossPerc"]
    ensures |Records(rows)| == |rows|
    ensures forall i :: 0 <= i < |rows| ==> Records(rows)[i] == Record(rows[i])
  {
    RecordPerRow(rows);
    hide Lines, JoinCommas, ParseFrom, Record, Records, ReadsAs;
    HeaderIsItsFields();
    LinesShape(rows);
    ReadRecord(HEADER_FIELDS, HEADER_FIELDS, Lines(rows), []);
    ReadLines(HEADER_FIELDS, rows);
    assert [] + HEADER_FIELDS[..7] == HEADER_FIELDS[..7];
  }

  lemma {:induction false} RecordPerRow(rows: seq<ShareableRow>)
    ensures |Records(rows)| == |rows|
    ensures forall i :: 0 <= i < |rows| ==> Records(rows)[i] == Record(rows[i])
  {
    hide Record;
    if rows == [] {
    } else {
      RecordPerRow(rows[1..]);
    }
  }

  /** The characters that would make a spreadsheet take a cell for a formula, once leading white space is cut. */
  const DANGEROUS: set<char> := {'=', '+', '-', '@', ' ', '\t', '\n', '\r', '\U{0C}'}

  /** No text cell a reader gets starts with one of them; a value that did is told apart by one apostrophe only. */
  lemma NoTextCellIsAFormula(r: ShareableRow, i: nat)
    requires i < 6
    ensures Record(r)[i] == "" || Record(r)[i][0] !in DANGEROUS
    ensures var v := [r.description, r.symbol, r.instrId, r.venueSystem, r.kind, r.currency][i];
            Record(r)[i] == if v != "" && v[0] in DANGEROUS then "'" + v else v
  {
    var v := [r.description, r.symbol, r.instrId, r.venueSystem, r.kind, r.currency][i];
    assert Record(r)[i] == NeutralizeFormula(v);
    hide Record;
  }

  /** The two numbers come last, as Rust prints them; an absent one is an empty field. */
  lemma NumbersAreAsPrinted(r: ShareableRow)
    ensures |Record(r)| == 8
    ensures match r.weightPerc case Some(text) => Record(r)[6] == text case None => Record(r)[6] == ""
    ensures match r.profitLossPerc case Some(text) => Record(r)[7] == text case None => Record(r)[7] == ""
  {
  }
}
