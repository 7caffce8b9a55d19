/** The CSV export of the dashboard: every record written as one line of quoted fields under an
    unquoted header line, the period's initial balance first, and the byte-order mark in front
    of the downloaded file. */
module CsvExport {
  import opened Optional
  import opened Text
  import opened Numbers
  import opened Records

  /** A property value of an export row: a string, a number, or a day (the `Data` property,
      which the export holds as the text of the day in `toISOString()` form; the day is kept
      here and written as that text). */
  datatype Cell = Str(s: string) | Num(x: real) | Day(d: Date)

  /** An export row: the value under each header, when there is one. */
  type Row = map<string, Cell>

  /** The column headers, in the order the file lists them. */
  const Headers: seq<string> := ["Tipo", "Data", "Descrição", "Valor", "Categoria", "Usuário"]

  /** `row[header]`, `undefined` when the row has no such property. */
  function Get(row: Row, header: string): Option<Cell>
  {
    if header in row then Some(row[header]) else None
  }

  /** A falsy value: `undefined`, the empty string or the number 0. */
  predicate Falsy(v: Option<Cell>)
  {
    v.None? || v == Some(Str("")) || v == Some(Num(0.0))
  }

  /** `'' + (v || '')`: a falsy value becomes the empty string, a string stays as it is, a
      number is written as JavaScript writes it and a day as its ISO text. */
  function CellText(v: Option<Cell>): string
  {
    match v
    case None => ""
    case Some(Str(s)) => s
    case Some(Num(x)) => if x == 0.0 then "" else FormatNumber(x)
    case Some(Day(d)) => ExportDate(d)
  }

  /** A field is written empty exactly when its value is falsy; a 0 amount is among them. */
  lemma CellTextEmpty(v: Option<Cell>)
    ensures CellText(v) == "" <==> Falsy(v)
  {
    if v.Some? && v.value.Num? {
      FormatNumberText(v.value.x);
    }
    if v.Some? && v.value.Day? {
      IsoDateShape(v.value.d);
    }
  }

  /** `s.replace(/"/g, '""')`: every `"` doubled. */
  function Escape(s: string): string
  {
    if s == [] then [] else (if s[0] == '"' then "\"\"" else [s[0]]) + Escape(s[1..])
  }

  /** Reading a field back as section 2.7 of RFC 4180 prescribes: every doubled `"` is one. */
  function Unescape(s: string): string
  {
    if |s| >= 2 && s[0] == '"' && s[1] == '"' then "\"" + Unescape(s[2..])
    else if s == [] then []
    else [s[0]] + Unescape(s[1..])
  }

  /** Doubling the quotes is undone by reading the doubled quotes back as one. */
  lemma {:induction false} UnescapeEscape(s: string)
    ensures Unescape(Escape(s)) == s
  {
    if s != [] {
      UnescapeEscape(s[1..]);
      if s[0] == '"' {
        assert Escape(s) == "\"\"" + Escape(s[1..]);
      } else {
        assert Escape(s) == [s[0]] + Escape(s[1..]);
      }
    }
  }

  /** Doubling changes nothing but the quotes: with all quotes deleted, the escaped text is the
      text with all quotes deleted, and a text without quotes is escaped to itself. */
  lemma {:induction false} EscapeQuotesOnly(s: string)
    ensures RemoveAll(Escape(s), '"') == RemoveAll(s, '"')
    ensures '"' !in s ==> Escape(s) == s
    ensures forall c :: c != '"' ==> (c in Escape(s) <==> c in s)
  {
    if s != [] {
      EscapeQuotesOnly(s[1..]);
      var head := if s[0] == '"' then "\"\"" else [s[0]];
      RemoveAllConcat(head, Escape(s[1..]), '"');
      assert s == [s[0]] + s[1..];
      RemoveAllConcat([s[0]], s[1..], '"');
    }
  }

  /** A data field: the escaped text between two `"`. */
  function Quote(s: string): string
  {
    "\"" + Escape(s) + "\""
  }

  /** `headers.map(...)`: the quoted fields of one row. */
  function Fields(row: Row, headers: seq<string>): (fs: seq<string>)
    ensures |fs| == |headers|
    ensures forall i :: 0 <= i < |headers| ==> fs[i] == Quote(CellText(Get(row, headers[i])))
  {
    seq(|headers|, i requires 0 <= i < |headers| => Quote(CellText(Get(row, headers[i]))))
  }

  /** Each field starts and ends with `"`, and reading its inside back with doubled quotes
      as one gives the text of the header's value. */
  lemma FieldsRead(row: Row, headers: seq<string>, i: nat)
    requires i < |headers|
    ensures var f := Fields(row, headers)[i];
            |f| >= 2 && f[0] == '"' && f[|f| - 1] == '"'
            && Unescape(f[1..|f| - 1]) == CellText(Get(row, headers[i]))
  {
    var s := CellText(Get(row, headers[i]));
    var f := Fields(row, headers)[i];
    assert f[1..|f| - 1] == Escape(s);
    UnescapeEscape(s);
  }

  /** The line of a data row: its fields joined by `,`. */
  function DataLine(row: Row, headers: seq<string>): string
  {
    Join(Fields(row, headers), ',')
  }

  /** The lines of the CSV text: the headers joined by `,` without quoting, then a line per
      row. */
  function CsvLines(data: seq<Row>, headers: seq<string>): (lines: seq<string>)
    ensures |lines| == 1 + |data| && lines[0] == Join(headers, ',')
    ensures forall i :: 0 <= i < |data| ==> lines[i + 1] == DataLine(data[i], headers)
  {
    [Join(headers, ',')] + seq(|data|, i requires 0 <= i < |data| => DataLine(data[i], headers))
  }

  /** `convertToCsv`: the header line and one line per row, in the order given, joined by `\n`. */
  method ConvertToCsv(data: seq<Row>, headers: seq<string>) returns (csv: string)
    ensures csv == Join(CsvLines(data, headers), '\n')
  {
    var csvRows := [Join(headers, ',')];
    for i := 0 to |data|
      invariant csvRows == CsvLines(data[..i], headers)
    {
      var values := Fields(data[i], headers);
      csvRows := csvRows + [Join(values, ',')];
      assert data[..i + 1][..i] == data[..i];
    }
    assert data[..|data|] == data;
    csv := Join(csvRows, '\n');
  }

  /** A string that can be a line of the file: no `\n` inside. */
  predicate OneLine(s: string)
  {
    '\n' !in s
  }

  /** When no header and no field text holds a `\n`, splitting the CSV text at `\n` gives back
      its lines: one for the headers and one per row. */
  lemma CsvLinesSplit(data: seq<Row>, headers: seq<string>)
    requires forall i :: 0 <= i < |headers| ==> OneLine(headers[i])
    requires forall r, h :: r in data && h in headers ==> OneLine(CellText(Get(r, h)))
    ensures Split(Join(CsvLines(data, headers), '\n'), '\n') == CsvLines(data, headers)
    ensures |Split(Join(CsvLines(data, headers), '\n'), '\n')| == 1 + |data|
  {
    var lines := CsvLines(data, headers);
    JoinOneLine(headers, ',');
    forall i | 0 <= i < |lines| ensures '\n' !in lines[i] {
      if i > 0 {
        assert lines[i] == DataLine(data[i - 1], headers);
        assert data[i - 1] in data;
        DataLineOneLine(data[i - 1], headers);
      }
    }
    SplitJoin(lines, '\n');
  }

  /** A row whose field texts hold no `\n` is written on one line. */
  lemma DataLineOneLine(row: Row, headers: seq<string>)
    requires forall h :: h in headers ==> OneLine(CellText(Get(row, h)))
    ensures OneLine(DataLine(row, headers))
  {
    var fs := Fields(row, headers);
    forall j | 0 <= j < |fs| ensures OneLine(fs[j]) {
      assert headers[j] in headers;
      EscapeQuotesOnly(CellText(Get(row, headers[j])));
    }
    JoinOneLine(fs, ',');
  }

  /** Joining lines with a separator other than `\n` makes one line. */
  lemma {:induction false} JoinOneLine(parts: seq<string>, sep: char)
    requires sep != '\n'
    requires forall i :: 0 <= i < |parts| ==> OneLine(parts[i])
    ensures OneLine(Join(parts, sep))
  {
    if |parts| > 1 {
      JoinOneLine(parts[1..], sep);
    }
  }

  /** The day part of `toISOString()`, which is what `split('T')[0]` keeps. */
  function ExportDate(d: Date): string
  {
    IsoDate(d)
  }

  /** The row holding `cells[i]` under `headers[i]`; a header listed twice keeps its last
      cell, as repeated assignments to one property do. */
  function RowOf(headers: seq<string>, cells: seq<Cell>): Row
    requires |cells| == |headers|
  {
    if headers == [] then map[]
    else RowOf(headers[..|headers| - 1], cells[..|cells| - 1])[headers[|headers| - 1] := cells[|cells| - 1]]
  }

  /** The first row: the period's initial balance, dated on the day of the export. */
  function BalanceRow(today: Date, initialBalance: real): Row
  {
    RowOf(Headers, [Str("Saldo Inicial"), Day(today), Str("Saldo Inicial do Período"),
                    Num(initialBalance), Str(""), Str("")])
  }

  /** The row of an income (`tipo` is `Entrada`) or an expense (`Saída`). */
  function TransactionRow(tipo: string, t: Transaction): Row
  {
    RowOf(Headers, [Str(tipo), Day(t.date), Str(t.description), Num(t.amount),
                    Str(t.category), Str(t.transactionUser)])
  }

  /** The rows of the incomes or of the expenses, in order. */
  function TransactionRows(tipo: string, txs: seq<Transaction>): (rows: seq<Row>)
    ensures |rows| == |txs|
  {
    if txs == [] then [] else TransactionRows(tipo, txs[..|txs| - 1]) + [TransactionRow(tipo, txs[|txs| - 1])]
  }

  lemma {:induction false} TransactionRowsAt(tipo: string, txs: seq<Transaction>, i: nat)
    requires i < |txs|
    ensures TransactionRows(tipo, txs)[i] == TransactionRow(tipo, txs[i])
  {
    if i < |txs| - 1 {
      TransactionRowsAt(tipo, txs[..|txs| - 1], i);
    }
  }

  /** The rows of the export: the initial balance, then every income, then every expense. */
  function ExportRows(today: Date, initialBalance: real, incomes: seq<Transaction>, expenses: seq<Transaction>): seq<Row>
  {
    [BalanceRow(today, initialBalance)] + TransactionRows("Entrada", incomes) + TransactionRows("Saída", expenses)
  }

  /** The contents of the downloaded file: a byte-order mark, then the CSV text. */
  function WithBom(csv: string): (r: string)
    ensures |r| == |csv| + 1 && r[0] == '\U{FEFF}' && r[1..] == csv
  {
    "\U{FEFF}" + csv
  }

  /** `handleExportCsv`: collects the rows (the initial balance, the incomes, the expenses),
      converts them and prefixes the byte-order mark. `today` is the clock's day. */
  method HandleExportCsv(today: Date, initialBalance: real, incomes: seq<Transaction>, expenses: seq<Transaction>)
    returns (file: string)
    ensures file == WithBom(Join(CsvLines(ExportRows(today, initialBalance, incomes, expenses), Headers), '\n'))
  {
    var dataToExport := [BalanceRow(today, initialBalance)];
    dataToExport := PushRows(dataToExport, "Entrada", incomes);
    dataToExport := PushRows(dataToExport, "Saída", expenses);
    var csvString := ConvertToCsv(dataToExport, Headers);
    file := WithBom(csvString);
  }

  /** `txs.forEach(t => dataToExport.push(...))`: appends the row of every transaction. */
  method PushRows(dataToExport: seq<Row>, tipo: string, txs: seq<Transaction>) returns (r: seq<Row>)
    ensures r == dataToExport + TransactionRows(tipo, txs)
  {
    r := dataToExport;
    for i := 0 to |txs|
      invariant r == dataToExport + TransactionRows(tipo, txs[..i])
    {
      assert txs[..i + 1][..i] == txs[..i];
      r := r + [TransactionRow(tipo, txs[i])];
    }
    assert txs[..|txs|] == txs;
  }

  /** The export lists the initial balance, then every income in order, then every expense in
      order. */
  lemma ExportRowsOrder(today: Date, initialBalance: real, incomes: seq<Transaction>, expenses: seq<Transaction>)
    ensures var rows := ExportRows(today, initialBalance, incomes, expenses);
            |rows| == 1 + |incomes| + |expenses|
            && rows[0] == BalanceRow(today, initialBalance)
            && (forall i :: 0 <= i < |incomes| ==> rows[1 + i] == TransactionRow("Entrada", incomes[i]))
            && (forall j :: 0 <= j < |expenses| ==> rows[1 + |incomes| + j] == TransactionRow("Saída", expenses[j]))
  {
    var rows := ExportRows(today, initialBalance, incomes, expenses);
    var ri, re := TransactionRows("Entrada", incomes), TransactionRows("Saída", expenses);
    assert rows == [BalanceRow(today, initialBalance)] + ri + re;
    forall i | 0 <= i < |incomes| ensures rows[1 + i] == TransactionRow("Entrada", incomes[i]) {
      TransactionRowsAt("Entrada", incomes, i);
      assert rows[1 + i] == ri[i];
    }
    forall j | 0 <= j < |expenses| ensures rows[1 + |incomes| + j] == TransactionRow("Saída", expenses[j]) {
      TransactionRowsAt("Saída", expenses, j);
      assert rows[1 + |incomes| + j] == re[j];
    }
  }
}
