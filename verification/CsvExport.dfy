/** The CSV export, and the reader of section 2 of RFC 4180 that undoes it. */
module CsvExport {
  import opened Text

  const QUOTE := '"'
  const COMMA := ','
  const CRLF := "\r\n"

  // --- Printing ----------------------------------------------------------------------------------------

  predicate StartsFormula(s: string) {
    s != "" && s[0] in {'=', '+', '-', '@', '\t', '\r'}
  }

  /** A leading apostrophe makes a spreadsheet read the cell as text. */
  function Guard(raw: string): (r: string)
    ensures !StartsFormula(r)
    ensures r == raw || r == "'" + raw
  {
    if StartsFormula(raw) then "'" + raw else raw
  }

  function Doubled(s: string): string {
    if s == "" then "" else (if s[0] == QUOTE then [QUOTE, QUOTE] else [s[0]]) + Doubled(s[1..])
  }

  /** Always quoted; a missing value is an empty cell. */
  function Cell(value: Option<string>): string {
    match value
    case None => [QUOTE, QUOTE]
    case Some(raw) => [QUOTE] + Doubled(Guard(raw)) + [QUOTE]
  }

  function Row(cells: seq<Option<string>>): string {
    if cells == [] then "" else if |cells| == 1 then Cell(cells[0]) else Cell(cells[0]) + [COMMA] + Row(cells[1..])
  }

  /** Every line ends with a line break, the last one too. */
  function Document(rows: seq<seq<Option<string>>>): string {
    if rows == [] then "" else Row(rows[0]) + CRLF + Document(rows[1..])
  }

  // --- Reading -----------------------------------------------------------------------------------------

  datatype Parsed<T> = Parsed(value: T, rest: string)

  /** escaped = DQUOTE *(TEXTDATA / COMMA / CR / LF / 2DQUOTE) DQUOTE, after its opening quote. */
  function ParseEscaped(s: string): (r: Option<Parsed<string>>)
    ensures r.Some? ==> |r.value.rest| < |s|
  {
    if s == "" then None
    else if s[0] != QUOTE then
      var more := ParseEscaped(s[1..]);
      if more.None? then None else Some(Parsed([s[0]] + more.value.value, more.value.rest))
    else if 1 < |s| && s[1] == QUOTE then
      var more := ParseEscaped(s[2..]);
      if more.None? then None else Some(Parsed([QUOTE] + more.value.value, more.value.rest))
    else Some(Parsed("", s[1..]))
  }

  /** non-escaped = *TEXTDATA */
  function ParsePlain(s: string): (r: Parsed<string>)
    ensures |r.rest| <= |s|
  {
    if s == "" || s[0] in {QUOTE, COMMA, '\r', '\n'} then Parsed("", s)
    else
      var more := ParsePlain(s[1..]);
      Parsed([s[0]] + more.value, more.rest)
  }

  function ParseField(s: string): (r: Option<Parsed<string>>)
    ensures r.Some? ==> |r.value.rest| <= |s|
  {
    if s != "" && s[0] == QUOTE then ParseEscaped(s[1..]) else Some(ParsePlain(s))
  }

  /** record = field *(COMMA field) */
  function ParseRecord(s: string): (r: Option<Parsed<seq<string>>>)
    ensures r.Some? ==> |r.value.rest| <= |s|
    decreases |s|
  {
    var field := ParseField(s);
    if field.None? then None
    else if field.value.rest != "" && field.value.rest[0] == COMMA then
      var more := ParseRecord(field.value.rest[1..]);
      if more.None? then None else Some(Parsed([field.value.value] + more.value.value, more.value.rest))
    else Some(Parsed([field.value.value], field.value.rest))
  }

  /** file = record *(CRLF record) [CRLF] */
  function ParseFile(s: string): Option<seq<seq<string>>>
    decreases |s|
  {
    var record := ParseRecord(s);
    if record.None? then None
    else
      var rest := record.value.rest;
      if rest == "" || rest == CRLF then Some([record.value.value])
      else if CRLF <= rest then
        var more := ParseFile(rest[2..]);
        if more.None? then None else Some([record.value.value] + more.value)
      else None
  }

  // --- The round trip ------------------------------------------------------------------------------------

  /** The text a cell holds once printed. */
  function Shown(value: Option<string>): string {
    if value.None? then "" else Guard(value.value)
  }

  function ShownRow(cells: seq<Option<string>>): seq<string> {
    seq(|cells|, i requires 0 <= i < |cells| => Shown(cells[i]))
  }

  function ShownRows(rows: seq<seq<Option<string>>>): seq<seq<string>> {
    seq(|rows|, i requires 0 <= i < |rows| => ShownRow(rows[i]))
  }

  lemma {:induction false} EscapedReadsBack(s: string, rest: string)
    requires rest == "" || rest[0] != QUOTE
    ensures ParseEscaped(Doubled(s) + [QUOTE] + rest) == Some(Parsed(s, rest))
  {
    var t := Doubled(s) + [QUOTE] + rest;
    if s == "" {
      assert t == [QUOTE] + rest;
      assert t[1..] == rest;
    } else {
      EscapedReadsBack(s[1..], rest);
      var tail := Doubled(s[1..]) + [QUOTE] + rest;
      if s[0] == QUOTE {
        assert t == [QUOTE, QUOTE] + tail;
        assert t[2..] == tail;
      } else {
        assert t == [s[0]] + tail;
        assert t[1..] == tail;
      }
      assert [s[0]] + s[1..] == s;
    }
  }

  lemma AfterTheQuote(body: string, rest: string)
    ensures ([QUOTE] + body + [QUOTE] + rest)[1..] == body + [QUOTE] + rest
    ensures ([QUOTE] + body + [QUOTE] + rest)[0] == QUOTE
  {
    assert [QUOTE] + body + [QUOTE] + rest == [QUOTE] + (body + [QUOTE] + rest);
  }

  lemma CellIsQuoted(value: Option<string>)
    ensures Cell(value) == [QUOTE] + Doubled(Shown(value)) + [QUOTE]
  {
    assert Doubled("") == "";
  }

  lemma CellReadsBack(value: Option<string>, rest: string)
    requires rest == "" || rest[0] != QUOTE
    ensures ParseField(Cell(value) + rest) == Some(Parsed(Shown(value), rest))
  {
    CellIsQuoted(value);
    AfterTheQuote(Doubled(Shown(value)), rest);
    EscapedReadsBack(Shown(value), rest);
  }

  lemma Regroup(a: string, b: string, c: string, d: string)
    ensures a + b + c + d == a + (b + (c + d))
    ensures (b + (c + d))[|b|..] == c + d
  {
  }

  /** One more field in front of a record that reads back. */
  lemma FieldThenRecord(first: Option<string>, more: string, values: seq<string>, rest: string)
    requires ParseRecord(more + rest) == Some(Parsed(values, rest))
    ensures ParseRecord(Cell(first) + [COMMA] + more + rest) == Some(Parsed([Shown(first)] + values, rest))
  {
    var after := [COMMA] + (more + rest);
    Regroup(Cell(first), [COMMA], more, rest);
    CellReadsBack(first, after);
  }

  lemma LastField(last: Option<string>, rest: string)
    requires rest == "" || rest[0] !in {QUOTE, COMMA}
    ensures ParseRecord(Cell(last) + rest) == Some(Parsed([Shown(last)], rest))
  {
    CellReadsBack(last, rest);
  }

  lemma ShownInTurn(cells: seq<Option<string>>)
    requires cells != []
    ensures ShownRow(cells) == [Shown(cells[0])] + ShownRow(cells[1..])
  {
  }

  lemma {:induction false} RowReadsBack(cells: seq<Option<string>>, rest: string)
    requires cells != [] && (rest == "" || rest[0] !in {QUOTE, COMMA})
    ensures ParseRecord(Row(cells) + rest) == Some(Parsed(ShownRow(cells), rest))
    decreases |cells|
  {
    if |cells| == 1 {
      LastField(cells[0], rest);
      assert ShownRow(cells) == [Shown(cells[0])];
    } else {
      var more, shown := Row(cells[1..]), ShownRow(cells[1..]);
      RowReadsBack(cells[1..], rest);
      assert Row(cells) == Cell(cells[0]) + [COMMA] + more;
      ShownInTurn(cells);
      FieldThenRecord(cells[0], more, shown, rest);
    }
  }

  /** One more record in front of a file that reads back. */
  lemma RecordThenFile(first: seq<Option<string>>, more: string, values: seq<seq<string>>)
    requires first != [] && more != "" && ParseFile(more) == Some(values)
    ensures ParseFile(Row(first) + CRLF + more) == Some([ShownRow(first)] + values)
  {
    var rest := CRLF + more;
    assert Row(first) + CRLF + more == Row(first) + rest;
    assert rest[0] == '\r' && |rest| > 2 && rest[2..] == more && CRLF <= rest;
    RowReadsBack(first, rest);
  }

  lemma LastRecord(last: seq<Option<string>>)
    requires last != []
    ensures ParseFile(Row(last) + CRLF) == Some([ShownRow(last)])
  {
    var t := Row(last) + CRLF;
    RowReadsBack(last, CRLF);
    var record := ParseRecord(t);
    assert record.value.value == ShownRow(last) && record.value.rest == CRLF;
  }

  /**
   * Whatever the cells hold, quotes, commas and line breaks included, reading the document returns the same rows
   * and columns and each cell's guarded text.
   */
  lemma {:induction false} DocumentReadsBack(rows: seq<seq<Option<string>>>)
    requires rows != [] && forall i :: 0 <= i < |rows| ==> rows[i] != []
    ensures ParseFile(Document(rows)) == Some(ShownRows(rows))
    decreases |rows|
  {
    assert ShownRows(rows) == [ShownRow(rows[0])] + ShownRows(rows[1..]);
    if |rows| == 1 {
      LastRecord(rows[0]);
      assert ShownRows(rows) == [ShownRow(rows[0])];
      assert rows[1..] == [] && Document(rows) == Row(rows[0]) + CRLF + "";
      assert Row(rows[0]) + CRLF + "" == Row(rows[0]) + CRLF;
    } else {
      DocumentReadsBack(rows[1..]);
      DocumentIsNotEmpty(rows[1..]);
      RecordThenFile(rows[0], Document(rows[1..]), ShownRows(rows[1..]));
    }
  }

  lemma DocumentIsNotEmpty(rows: seq<seq<Option<string>>>)
    requires rows != []
    ensures Document(rows) != ""
  {
    assert |Document(rows)| >= |CRLF|;
  }

  /** No cell that is read back starts a formula. */
  lemma NoFormulaSurvives(rows: seq<seq<Option<string>>>, i: nat, j: nat)
    requires rows != [] && forall k :: 0 <= k < |rows| ==> rows[k] != []
    requires i < |rows| && j < |rows[i]|
    ensures var read := ParseFile(Document(rows));
            read.Some? && |read.value| == |rows| && |read.value[i]| == |rows[i]| && !StartsFormula(read.value[i][j])
  {
    DocumentReadsBack(rows);
  }

  /** The guard can be undone except in one case: a text that already was another one's guarded form. */
  lemma GuardLosesExactly(a: string, b: string)
    ensures Guard(a) == Guard(b) <==> a == b || (a == "'" + b && StartsFormula(b)) || (b == "'" + a && StartsFormula(a))
  {
    if Guard(a) == Guard(b) && StartsFormula(a) && StartsFormula(b) {
      assert ("'" + a)[1..] == a && ("'" + b)[1..] == b;
    }
  }

  // --- The export ------------------------------------------------------------------------------------------

  /** A row as the query returns it: the selected columns, already as text. */
  datatype Observation = Observation(brand: Option<string>, provider: string, account: Option<string>, subjectType: string,
                                     title: Option<string>, metric: string, value: string, unit: string, granularity: string,
                                     periodStart: string, periodEnd: string, observedAt: string, source: string)

  const HEADER: seq<Option<string>> :=
    [Some("brand"), Some("platform"), Some("account"), Some("subject_type"), Some("content_title"), Some("metric"), Some("value"),
     Some("unit"), Some("granularity"), Some("period_start"), Some("period_end"), Some("observed_at"), Some("source")]

  function OrEmpty(value: Option<string>): Option<string> {
    if value.None? then Some("") else value
  }

  function Cells(o: Observation): (cells: seq<Option<string>>)
    ensures |cells| == |HEADER|
  {
    [OrEmpty(o.brand), Some(o.provider), OrEmpty(o.account), Some(o.subjectType), OrEmpty(o.title), Some(o.metric), Some(o.value),
     Some(o.unit), Some(o.granularity), Some(o.periodStart), Some(o.periodEnd), Some(o.observedAt), Some(o.source)]
  }

  function Table(header: seq<Option<string>>, rows: seq<Observation>): (t: seq<seq<Option<string>>>)
    ensures |t| == |rows| + 1
  {
    [header] + seq(|rows|, i requires 0 <= i < |rows| => Cells(rows[i]))
  }

  /** A reader who looks for a column by its name finds this text in a row. */
  ghost predicate Finds(t: seq<seq<string>>, i: nat, name: string, text: string)
    requires i + 1 < |t|
  {
    exists j :: 0 <= j < |t[0]| && j < |t[i + 1]| && t[0][j] == name && t[i + 1][j] == text
  }

  lemma Column(rows: seq<Observation>, i: nat, j: nat, name: string)
    requires i < |rows| && j < |HEADER| && HEADER[j] == Some(name) && !StartsFormula(name)
    ensures Finds(ShownRows(Table(HEADER, rows)), i, name, Shown(Cells(rows[i])[j]))
  {
    var t := ShownRows(Table(HEADER, rows));
    assert Table(HEADER, rows)[0] == HEADER && Table(HEADER, rows)[i + 1] == Cells(rows[i]);
    assert t[0] == ShownRow(HEADER) && t[i + 1] == ShownRow(Cells(rows[i]));
    assert t[0][j] == name && t[i + 1][j] == Shown(Cells(rows[i])[j]);
  }

  /** What a row states, field by field, each beside the name its column has. */
  function Titled(o: Observation): (fields: seq<(string, string)>)
    ensures |fields| == 13
  {
    [("brand", Shown(o.brand)), ("platform", Guard(o.provider)), ("account", Shown(o.account)),
     ("subject_type", Guard(o.subjectType)), ("content_title", Shown(o.title)), ("metric", Guard(o.metric)),
     ("value", Guard(o.value)), ("unit", Guard(o.unit)), ("granularity", Guard(o.granularity)),
     ("period_start", Guard(o.periodStart)), ("period_end", Guard(o.periodEnd)), ("observed_at", Guard(o.observedAt)),
     ("source", Guard(o.source))]
  }

  lemma CellBesideItsName(o: Observation, j: nat)
    requires j < 13
    ensures HEADER[j] == Some(Titled(o)[j].0) && Shown(Cells(o)[j]) == Titled(o)[j].1
    ensures !StartsFormula(Titled(o)[j].0)
  {
    assert Shown(Some("")) == "" == Shown(None);
  }

  /** Under each of the thirteen names stands the field it names; a missing brand, account or title is an empty cell. */
  lemma EachFieldUnderItsName(rows: seq<Observation>, i: nat)
    requires i < |rows|
    ensures forall j :: 0 <= j < 13 ==> Finds(ShownRows(Table(HEADER, rows)), i, Titled(rows[i])[j].0, Titled(rows[i])[j].1)
  {
    forall j | 0 <= j < 13
      ensures Finds(ShownRows(Table(HEADER, rows)), i, Titled(rows[i])[j].0, Titled(rows[i])[j].1)
    {
      CellBesideItsName(rows[i], j);
      Column(rows, i, j, Titled(rows[i])[j].0);
    }
  }

  lemma FormulasStartWith(c: char, s: string)
    ensures StartsFormula([c] + s) <==> c == '=' || c == '+' || c == '-' || c == '@' || c == '\t' || c == '\r'
    ensures !StartsFormula("")
  {
  }

  datatype Export = Exported(csv: string, rowCount: nat, containsMockData: bool) | TooLarge(limit: nat)

  lemma {:induction false} DocumentSnoc(rows: seq<seq<Option<string>>>, last: seq<Option<string>>)
    ensures Document(rows + [last]) == Document(rows) + Row(last) + CRLF
  {
    if rows == [] {
      assert [] + [last] == [last] && [last][1..] == [];
    } else {
      assert (rows + [last])[1..] == rows[1..] + [last];
      DocumentSnoc(rows[1..], last);
    }
  }

  lemma OneMoreRow(header: seq<Option<string>>, rows: seq<Observation>, n: nat)
    requires n < |rows|
    ensures Document(Table(header, rows[..n + 1])) == Document(Table(header, rows[..n])) + Row(Cells(rows[n])) + CRLF
  {
    assert Table(header, rows[..n + 1]) == Table(header, rows[..n]) + [Cells(rows[n])];
    DocumentSnoc(Table(header, rows[..n]), Cells(rows[n]));
  }

  lemma HeaderOnly(header: seq<Option<string>>)
    ensures Document(Table(header, [])) == Row(header) + CRLF
  {
    assert Table(header, []) == [] + [header];
    DocumentSnoc([], header);
    assert "" + Row(header) + CRLF == Row(header) + CRLF;
  }

  method AppendLine(csv: string, ghost header: seq<Option<string>>, rows: seq<Observation>, n: nat) returns (longer: string)
    requires n < |rows| && csv == Document(Table(header, rows[..n]))
    ensures longer == Document(Table(header, rows[..n + 1]))
  {
    OneMoreRow(header, rows, n);
    longer := csv + Row(Cells(rows[n])) + CRLF;
  }

  method PrintHeader(header: seq<Option<string>>, ghost rows: seq<Observation>) returns (csv: string)
    ensures csv == Document(Table(header, rows[..0]))
  {
    HeaderOnly(header);
    assert rows[..0] == [];
    csv := Row(header) + CRLF;
  }

  /** One line a row, noting whether any came from a mock source. */
  method PrintLines(header: seq<Option<string>>, rows: seq<Observation>) returns (csv: string, mock: bool)
    ensures csv == Document(Table(header, rows))
    ensures mock <==> exists i :: 0 <= i < |rows| && rows[i].source == "MOCK"
  {
    csv := PrintHeader(header, rows);
    mock := false;
    for i := 0 to |rows|
      invariant csv == Document(Table(header, rows[..i]))
      invariant mock <==> exists k :: 0 <= k < i && rows[k].source == "MOCK"
    {
      mock := mock || rows[i].source == "MOCK";
      csv := AppendLine(csv, header, rows, i);
    }
    assert rows[..|rows|] == rows;
  }

  lemma TableReadsBack(header: seq<Option<string>>, rows: seq<Observation>)
    requires header != []
    ensures ParseFile(Document(Table(header, rows))) == Some(ShownRows(Table(header, rows)))
  {
    DocumentReadsBack(Table(header, rows));
  }

  /** Refused whole when too large; otherwise every row, in a file the reader turns back into the same table. */
  method ToCsv(rows: seq<Observation>, maxRows: nat) returns (r: Export)
    ensures r.TooLarge? <==> |rows| > maxRows
    ensures r.Exported? ==> ParseFile(r.csv) == Some(ShownRows(Table(HEADER, rows))) && r.rowCount == |rows|
    ensures r.Exported? ==> (r.containsMockData <==> exists i :: 0 <= i < |rows| && rows[i].source == "MOCK")
  {
    if |rows| > maxRows {
      return TooLarge(maxRows);
    }
    var csv, mock := PrintLines(HEADER, rows);
    TableReadsBack(HEADER, rows);
    return Exported(csv, |rows|, mock);
  }
}
