/** What the CSV import makes of a file the CSV export wrote: every transaction with a non-zero
    amount comes back as a write of the same kind, texts and amount, with its day as ISO text,
    provided the texts hold no `"`, no line break and no white space at their ends. */
module ExportImport {
  import opened Optional
  import opened Text
  import opened Numbers
  import opened Records
  import opened CsvExport
  import opened CsvImport
  import opened Seqs

  // ---------------------------------------------------------------------------------------
  // Fields the import reads back unchanged

  /** A text with no `"` and no line terminator. */
  predicate Plain(v: string)
  {
    forall i :: 0 <= i < |v| ==> v[i] != '"' && !IsLineTerminator(v[i])
  }

  /** A text the export writes and the import reads back as it was. */
  predicate Safe(v: string)
  {
    Plain(v) && Trimmed(v)
  }

  /** A token of the form `"` plain text `"`. */
  predicate QuotedPlain(q: string)
  {
    |q| >= 2 && q[0] == '"' && q[|q| - 1] == '"' && Plain(q[1..|q| - 1])
  }

  /** After an opening `"`, the lazy match stops at the first `"` that ends the field: in a
      plain text, the one after it. */
  lemma {:induction false} CloseQuotePlain(v: string, rest: string)
    requires Plain(v) && FieldEnds(rest)
    ensures CloseQuote(v + "\"" + rest) == Some(|v| + 1)
  {
    var t := v + "\"" + rest;
    if v == [] {
      assert t[0] == '"' && t[1..] == rest;
    } else {
      assert t[0] == v[0] && v[0] != '"' && !IsLineTerminator(v[0]);
      assert t[1..] == v[1..] + "\"" + rest;
      PlainTail(v);
      CloseQuotePlain(v[1..], rest);
    }
  }

  lemma PlainTail(v: string)
    requires v != [] && Plain(v)
    ensures Plain(v[1..])
  {
    forall i | 0 <= i < |v[1..]| ensures v[1..][i] != '"' && !IsLineTerminator(v[1..][i]) {
      assert v[1..][i] == v[i + 1];
    }
  }

  lemma TokenOfQuoted(q: string, rest: string)
    requires QuotedPlain(q) && FieldEnds(rest)
    ensures TokenAt(q + rest) == Some(|q|)
  {
    var v := q[1..|q| - 1];
    assert (q + rest)[1..] == v + "\"" + rest;
    CloseQuotePlain(v, rest);
  }

  /** Tokenising fields of plain text joined by `,` gives the fields back. */
  lemma {:induction false} ScanJoined(qs: seq<string>)
    requires |qs| >= 1 && forall i :: 0 <= i < |qs| ==> QuotedPlain(qs[i])
    ensures Scan(Join(qs, ',')) == qs
  {
    var q := qs[0];
    if |qs| == 1 {
      ScanLast(q);
    } else {
      var tail := Join(qs[1..], ',');
      assert Join(qs, ',') == q + ([','] + tail);
      ScanFirst(q, tail);
      ScanJoined(qs[1..]);
      FirstSplit(qs);
    }
  }

  /** A quoted plain field alone is one token. */
  lemma ScanLast(q: string)
    requires QuotedPlain(q)
    ensures Scan(q) == [q]
  {
    TokenOfQuoted(q, []);
    assert q + [] == q;
    ScanMatch(q, |q|);
    assert q[..|q|] == q && q[|q|..] == [];
  }

  /** A quoted plain field followed by `,` is one token, and tokenising goes on after the
      `,`. */
  lemma ScanFirst(q: string, tail: string)
    requires QuotedPlain(q)
    ensures Scan(q + ([','] + tail)) == [q] + Scan(tail)
  {
    var rest := [','] + tail;
    assert TrimStart(rest) == rest;
    TokenOfQuoted(q, rest);
    var t := q + rest;
    ScanMatch(t, |q|);
    assert t[..|q|] == q && t[|q|..] == rest;
    assert BareRun(rest) == 0;
    ScanSkip(rest);
    assert rest[1..] == tail;
  }

  lemma ScanMatch(t: string, n: nat)
    requires TokenAt(t) == Some(n)
    ensures Scan(t) == [t[..n]] + Scan(t[n..])
  {
  }

  lemma ScanSkip(t: string)
    requires t != [] && TokenAt(t) == None
    ensures Scan(t) == Scan(t[1..])
  {
  }

  /** Deleting the quotes and trimming a quoted safe text gives the text. */
  lemma CleanQuoted(v: string)
    requires Safe(v)
    ensures Clean("\"" + v + "\"") == v
  {
    var q, quote := "\"" + v + "\"", "\"";
    assert q == quote + (v + quote);
    assert RemoveAll(quote, '"') == [];
    RemoveAllConcat(quote, v + quote, '"');
    RemoveAllConcat(v, quote, '"');
    assert '"' !in v;
    RemoveAllAbsent(v, '"');
    assert RemoveAll(q, '"') == v;
    TrimOfTrimmed(v);
  }

  // ---------------------------------------------------------------------------------------
  // Lines

  /** The texts a row's fields hold, header by header. */
  function Texts(row: Row, headers: seq<string>): (ts: seq<string>)
    ensures |ts| == |headers|
    ensures forall i :: 0 <= i < |headers| ==> ts[i] == CellText(Get(row, headers[i]))
  {
    seq(|headers|, i requires 0 <= i < |headers| => CellText(Get(row, headers[i])))
  }

  /** A row all of whose field texts are safe. */
  predicate SafeRow(row: Row, headers: seq<string>)
  {
    forall i :: 0 <= i < |headers| ==> Safe(CellText(Get(row, headers[i])))
  }

  /** A safe text is written as a quoted plain token on one line, and cleaning the token gives
      the text back. */
  lemma SafeField(v: string)
    requires Safe(v)
    ensures QuotedPlain(Quote(v)) && OneLine(Quote(v)) && Clean(Quote(v)) == v
  {
    QuoteOfPlain(v);
    QuotedPlainShape(v);
    CleanQuoted(v);
  }

  /** A plain text is quoted without escaping anything. */
  lemma QuoteOfPlain(v: string)
    requires Plain(v)
    ensures Quote(v) == "\"" + v + "\""
  {
    assert '"' !in v;
    EscapeQuotesOnly(v);
  }

  lemma QuotedPlainShape(v: string)
    requires Plain(v)
    ensures QuotedPlain("\"" + v + "\"") && OneLine("\"" + v + "\"")
  {
    var q := "\"" + v + "\"";
    assert q[1..|q| - 1] == v;
    forall i | 0 <= i < |q| ensures q[i] != '\n' {
      if 0 < i < |q| - 1 {
        assert q[i] == v[i - 1];
      }
    }
  }

  /** The line of a safe row is tokenised into its fields, whose cleaned values are the row's
      texts. */
  lemma SafeLine(row: Row, headers: seq<string>)
    requires |headers| >= 1 && SafeRow(row, headers)
    ensures Scan(DataLine(row, headers)) == Fields(row, headers)
    ensures CleanAll(Fields(row, headers)) == Texts(row, headers)
  {
    var fs := Fields(row, headers);
    forall i | 0 <= i < |fs| ensures QuotedPlain(fs[i]) && Clean(fs[i]) == Texts(row, headers)[i] {
      SafeField(CellText(Get(row, headers[i])));
    }
    ScanJoined(fs);
  }

  /** The line of a safe row is one line, and it starts with `"`. */
  lemma SafeLineShape(row: Row, headers: seq<string>)
    requires |headers| >= 1 && SafeRow(row, headers)
    ensures OneLine(DataLine(row, headers)) && DataLine(row, headers)[0] == '"'
  {
    var fs := Fields(row, headers);
    forall i | 0 <= i < |fs| ensures OneLine(fs[i]) {
      SafeField(CellText(Get(row, headers[i])));
    }
    JoinOneLine(fs, ',');
    if |fs| > 1 {
      assert DataLine(row, headers) == fs[0] + ([','] + Join(fs[1..], ','));
    }
  }

  /** Putting `p` in front of the joined parts puts it in front of the first part. */
  lemma JoinFront(p: string, parts: seq<string>, sep: char)
    requires |parts| >= 1
    ensures p + Join(parts, sep) == Join([p + parts[0]] + parts[1..], sep)
  {
    var ps := [p + parts[0]] + parts[1..];
    if |parts| > 1 {
      assert ps[1..] == parts[1..];
    }
  }

  /** A text with a character other than white space is not blank. */
  lemma NotBlank(s: string, i: nat)
    requires i < |s| && !IsSpace(s[i])
    ensures Trim(s) != []
  {
    TrimEmptyIffAllSpace(s);
  }

  lemma {:induction false} NonBlankAll(lines: seq<string>)
    requires forall i :: 0 <= i < |lines| ==> Trim(lines[i]) != []
    ensures NonBlank(lines) == lines
  {
    if lines != [] {
      var n := |lines| - 1;
      NonBlankAll(lines[..n]);
      assert Trim(lines[n]) != [];
      LastSplit(lines);
    }
  }

  // ---------------------------------------------------------------------------------------
  // The header line

  /** The six headers are distinct, safe and free of `,`. */
  lemma HeadersWellFormed()
    ensures Distinct(Headers)
    ensures forall i :: 0 <= i < |Headers| ==> Safe(Headers[i]) && ',' !in Headers[i] && Headers[i] != []
  {
    HeadersDistinct();
  }

  lemma HeadersDistinct()
    ensures Distinct(Headers)
  {
  }

  lemma HeaderNameOfSafe(h: string)
    requires Safe(h)
    ensures HeaderName(h) == h
  {
    TrimOfTrimmed(h);
    assert '"' !in h;
    RemoveAllAbsent(h, '"');
  }

  /** A byte-order mark in front of a header is trimmed away with the white space. */
  lemma TrimAfterMark(h: string)
    requires h != [] && Trimmed(h)
    ensures Trim("\U{FEFF}" + h) == h
  {
    var s := "\U{FEFF}" + h;
    assert s[1..] == h;
    assert TrimStart(h) == h;
    assert TrimStart(s) == h;
    assert TrimEnd(h) == h;
  }

  /** Headers the export can write and the import reads back: not empty, safe and free of
      `,`. */
  predicate GoodHeaders(headers: seq<string>)
  {
    |headers| >= 1 && forall i :: 0 <= i < |headers| ==> Safe(headers[i]) && ',' !in headers[i] && headers[i] != []
  }

  /** The header line the export writes, with or without the byte-order mark in front, gives
      back the headers. */
  lemma ReadHeaderLine(mark: string, headers: seq<string>)
    requires mark == "" || mark == "\U{FEFF}"
    requires GoodHeaders(headers)
    ensures HeaderNames(mark + Join(headers, ',')) == headers
  {
    var hs := [mark + headers[0]] + headers[1..];
    JoinFront(mark, headers, ',');
    forall i | 0 <= i < |hs| ensures ',' !in hs[i] && HeaderName(hs[i]) == headers[i] {
      if i == 0 {
        HeaderNameMarked(mark, headers[0]);
      } else {
        assert hs[i] == headers[i];
        HeaderNameOfSafe(headers[i]);
      }
    }
    SplitJoin(hs, ',');
  }

  lemma HeaderNameMarked(mark: string, h: string)
    requires mark == "" || mark == "\U{FEFF}"
    requires h != [] && Safe(h) && ',' !in h
    ensures ',' !in mark + h && HeaderName(mark + h) == h
  {
    if mark == "" {
      assert mark + h == h;
      HeaderNameOfSafe(h);
    } else {
      TrimAfterMark(h);
      assert '"' !in h;
      RemoveAllAbsent(h, '"');
    }
  }

  // ---------------------------------------------------------------------------------------
  // The file

  /** The records the import makes of safe rows, one per row. */
  function Parsed(rows: seq<Row>, headers: seq<string>): seq<Record>
  {
    if rows == [] then [] else Parsed(rows[..|rows| - 1], headers) + [Assign(headers, Texts(rows[|rows| - 1], headers))]
  }

  /** The lines of safe rows are all read, each into the record of its texts. */
  lemma {:induction false} ParseSafeLines(headers: seq<string>, rows: seq<Row>, lines: seq<string>)
    requires |headers| >= 1 && |lines| == |rows|
    requires forall i :: 0 <= i < |rows| ==> lines[i] == DataLine(rows[i], headers) && SafeRow(rows[i], headers)
    ensures ParseRows(headers, lines) == Some(Parsed(rows, headers))
  {
    if rows != [] {
      var n := |rows| - 1;
      ParseSafeLines(headers, rows[..n], lines[..n]);
      var line := lines[n];
      assert line == DataLine(rows[n], headers) && SafeRow(rows[n], headers);
      SafeLine(rows[n], headers);
      assert Scan(line) == Fields(rows[n], headers) && CleanAll(Scan(line)) == Texts(rows[n], headers);
      assert ParseRows(headers, lines) == Some(Parsed(rows[..n], headers) + [Assign(headers, Texts(rows[n], headers))]);
    }
  }

  /** A file whose first line joins good headers and whose other lines are single non-blank
      lines is read as the rows of its data lines, with or without the byte-order mark in
      front. */
  lemma ParseFile(mark: string, headers: seq<string>, lines: seq<string>, records: seq<Record>)
    requires mark == "" || mark == "\U{FEFF}"
    requires GoodHeaders(headers)
    requires |lines| >= 2 && lines[0] == Join(headers, ',')
    requires forall i :: 1 <= i < |lines| ==> '\n' !in lines[i] && Trim(lines[i]) != []
    requires ParseRows(headers, lines[1..]) == Some(records)
    ensures ParseCsvOf(mark + Join(lines, '\n')) == Some(records)
  {
    HeaderLineShape(mark, headers);
    FileLines(mark, lines);
    ReadHeaderLine(mark, headers);
    var file := [mark + lines[0]] + lines[1..];
    assert file[0] == mark + lines[0] && file[1..] == lines[1..];
  }

  /** The data lines of an export of safe rows are single non-blank lines. */
  lemma ExportDataLinesShape(rows: seq<Row>, headers: seq<string>)
    requires GoodHeaders(headers)
    requires forall i :: 0 <= i < |rows| ==> SafeRow(rows[i], headers)
    ensures var lines := CsvLines(rows, headers);
            forall i :: 1 <= i < |lines| ==> '\n' !in lines[i] && Trim(lines[i]) != []
  {
    var lines := CsvLines(rows, headers);
    forall i | 1 <= i < |lines| ensures '\n' !in lines[i] && Trim(lines[i]) != [] {
      SafeLineShape(rows[i - 1], headers);
      NotBlank(lines[i], 0);
    }
  }

  /** The data lines of an export of safe rows are read as the records of the rows. */
  lemma ExportDataLinesRead(rows: seq<Row>, headers: seq<string>)
    requires GoodHeaders(headers)
    requires forall i :: 0 <= i < |rows| ==> SafeRow(rows[i], headers)
    ensures ParseRows(headers, CsvLines(rows, headers)[1..]) == Some(Parsed(rows, headers))
  {
    ParseSafeLines(headers, rows, CsvLines(rows, headers)[1..]);
  }

  /** Lines none of which is blank or holds a `\n` are read back from their join, with a
      prefix on the first. */
  lemma FileLines(mark: string, lines: seq<string>)
    requires |lines| >= 1 && '\n' !in mark + lines[0] && Trim(mark + lines[0]) != []
    requires forall i :: 1 <= i < |lines| ==> '\n' !in lines[i] && Trim(lines[i]) != []
    ensures NonBlank(Split(mark + Join(lines, '\n'), '\n')) == [mark + lines[0]] + lines[1..]
  {
    var file := [mark + lines[0]] + lines[1..];
    var text := mark + Join(lines, '\n');
    assert text == Join(file, '\n') by {
      JoinFront(mark, lines, '\n');
    }
    forall i | 0 <= i < |file| ensures '\n' !in file[i] && Trim(file[i]) != [] {
      if i > 0 {
        assert file[i] == lines[i];
      }
    }
    SplitJoin(file, '\n');
    NonBlankAll(file);
  }

  /** The header line is one line and not blank. */
  lemma HeaderLineShape(mark: string, headers: seq<string>)
    requires mark == "" || mark == "\U{FEFF}"
    requires GoodHeaders(headers)
    ensures '\n' !in mark + Join(headers, ',') && Trim(mark + Join(headers, ',')) != []
  {
    var top := Join(headers, ',');
    JoinOneLine(headers, ',');
    assert '\n' !in mark;
    JoinHead(headers, ',');
    NotBlank(mark + top, |mark|);
  }

  /** A join starts with the first part. */
  lemma JoinHead(parts: seq<string>, sep: char)
    requires |parts| >= 1 && parts[0] != []
    ensures Join(parts, sep) != [] && Join(parts, sep)[0] == parts[0][0]
  {
    if |parts| > 1 {
      assert Join(parts, sep) == parts[0] + ([sep] + Join(parts[1..], sep));
    }
  }

  // ---------------------------------------------------------------------------------------
  // Rows and records

  /** Under distinct headers, each header of a built row holds its own cell. */
  lemma {:induction false} RowOfAt(headers: seq<string>, cells: seq<Cell>, i: nat)
    requires |cells| == |headers| && Distinct(headers) && i < |headers|
    ensures Get(RowOf(headers, cells), headers[i]) == Some(cells[i])
  {
    var n := |headers| - 1;
    if i < n {
      assert headers[i] != headers[n];
      RowOfAt(headers[..n], cells[..n], i);
    }
  }

  /** Under distinct headers, each header of a parsed row holds its own value. */
  lemma {:induction false} AssignAt(headers: seq<string>, values: seq<string>, i: nat)
    requires |values| == |headers| && Distinct(headers) && i < |headers|
    ensures Prop(Assign(headers, values), headers[i]) == Some(values[i])
  {
    var n := |headers| - 1;
    if i < n {
      assert headers[i] != headers[n];
      AssignAt(headers[..n], values[..n], i);
    }
  }

  /** The record the import makes of a row built from cells holds the text of each cell
      under its header. */
  lemma RecordOfCells(headers: seq<string>, cells: seq<Cell>, i: nat)
    requires |cells| == |headers| && Distinct(headers) && i < |headers|
    ensures Prop(Assign(headers, Texts(RowOf(headers, cells), headers)), headers[i]) == Some(CellText(Some(cells[i])))
  {
    RowOfAt(headers, cells, i);
    AssignAt(headers, Texts(RowOf(headers, cells), headers), i);
  }

  /** Numbers and days are always written as safe texts. */
  lemma SafeNumber(x: real)
    ensures Safe(CellText(Some(Num(x))))
  {
    if x != 0.0 {
      var r := FormatNumber(x);
      FormatNumberText(x);
      assert Plain(r);
    }
  }

  lemma SafeDay(d: Date)
    ensures Safe(CellText(Some(Day(d))))
  {
    var r := ExportDate(d);
    IsoDateShape(d);
    assert Plain(r);
  }

  /** A row built from cells whose texts are safe is safe. */
  lemma SafeRowOf(headers: seq<string>, cells: seq<Cell>)
    requires |cells| == |headers| && Distinct(headers)
    requires forall i :: 0 <= i < |cells| ==> Safe(CellText(Some(cells[i])))
    ensures SafeRow(RowOf(headers, cells), headers)
  {
    forall i | 0 <= i < |headers| ensures Safe(CellText(Get(RowOf(headers, cells), headers[i]))) {
      RowOfAt(headers, cells, i);
    }
  }

  /** `parseFloat` of the written amount: 0 is written empty and reads as `NaN`, a whole
      number of cents reads back as itself. */
  lemma AmountRead(x: real)
    requires WholeCents(x)
    ensures ParseFloat(ReplaceFirst(CellText(Some(Num(x))), ',', '.')) == if x == 0.0 then None else Some(x)
  {
    if x != 0.0 {
      FormatNumberText(x);
      assert ',' !in FormatNumber(x);
      ParseFormatNumber(x);
    } else {
      assert ReplaceFirst(CellText(Some(Num(x))), ',', '.') == "";
      ParseFloatIsNumber("");
    }
  }

  // ---------------------------------------------------------------------------------------
  // Writes

  /** The write an exported transaction comes back as: same kind, texts and amount, the day as
      ISO text, and a blank user as `Desconhecido`. */
  function TransactionWrite(kind: Kind, t: Transaction): Write
  {
    AddRecord(kind, t.description, t.amount, t.category, Some(ExportDate(t.date)),
              if t.transactionUser == "" then "Desconhecido" else t.transactionUser)
  }

  /** The writes of exported transactions: one per transaction with a non-zero amount. */
  function Recovered(kind: Kind, txs: seq<Transaction>): seq<Write>
  {
    if txs == [] then []
    else
      var t := txs[|txs| - 1];
      Recovered(kind, txs[..|txs| - 1]) + (if t.amount == 0.0 then [] else [TransactionWrite(kind, t)])
  }

  /** The write of the exported initial balance, none for 0. */
  function BalanceWrites(initialBalance: real): seq<Write>
  {
    if initialBalance == 0.0 then [] else [SetInitialBalance(initialBalance)]
  }

  /** A transaction the export writes and the import reads back: whole cents, and safe texts. */
  predicate Exportable(t: Transaction)
  {
    WholeCents(t.amount) && Safe(t.description) && Safe(t.category) && Safe(t.transactionUser)
  }

  /** Tipo texts of the export. */
  predicate TipoOf(tipo: string, kind: Kind)
  {
    (tipo == "Entrada" && kind == Income) || (tipo == "Saída" && kind == Expense)
  }

  lemma SafeTipo(tipo: string, kind: Kind)
    requires TipoOf(tipo, kind)
    ensures Safe(tipo)
  {
  }

  /** The row of an exportable transaction is safe. */
  lemma SafeTransactionRow(tipo: string, kind: Kind, t: Transaction)
    requires TipoOf(tipo, kind) && Exportable(t)
    ensures SafeRow(TransactionRow(tipo, t), Headers)
  {
    SafeTipo(tipo, kind);
    SafeDay(t.date);
    SafeNumber(t.amount);
    SafeSixCells(Str(tipo), Day(t.date), Str(t.description), Num(t.amount), Str(t.category), Str(t.transactionUser));
  }

  /** A row of six cells under the headers, each written as a safe text, is safe. */
  lemma SafeSixCells(a: Cell, b: Cell, c: Cell, d: Cell, e: Cell, f: Cell)
    requires Safe(CellText(Some(a))) && Safe(CellText(Some(b))) && Safe(CellText(Some(c)))
    requires Safe(CellText(Some(d))) && Safe(CellText(Some(e))) && Safe(CellText(Some(f)))
    ensures SafeRow(RowOf(Headers, [a, b, c, d, e, f]), Headers)
  {
    HeadersDistinct();
    SixCellsSafe(a, b, c, d, e, f);
    SafeRowOf(Headers, [a, b, c, d, e, f]);
  }

  lemma SixCellsSafe(a: Cell, b: Cell, c: Cell, d: Cell, e: Cell, f: Cell)
    requires Safe(CellText(Some(a))) && Safe(CellText(Some(b))) && Safe(CellText(Some(c)))
    requires Safe(CellText(Some(d))) && Safe(CellText(Some(e))) && Safe(CellText(Some(f)))
    ensures var cells := [a, b, c, d, e, f];
            forall i :: 0 <= i < |cells| ==> Safe(CellText(Some(cells[i])))
  {
    SixHold(x => Safe(CellText(Some(x))), a, b, c, d, e, f);
  }

  /** The row of the initial balance is safe. */
  lemma SafeBalanceRow(today: Date, initialBalance: real)
    ensures SafeRow(BalanceRow(today, initialBalance), Headers)
  {
    SafeBalanceTexts();
    SafeDay(today);
    SafeNumber(initialBalance);
    SafeSixCells(Str("Saldo Inicial"), Day(today), Str("Saldo Inicial do Período"), Num(initialBalance), Str(""), Str(""));
  }

  lemma SafeBalanceTexts()
    ensures Safe("Saldo Inicial") && Safe("Saldo Inicial do Período") && Safe("")
  {
    var a, b := "Saldo Inicial", "Saldo Inicial do Período";
    assert forall i :: 0 <= i < |a| ==> a[i] != '"' && !IsLineTerminator(a[i]);
    assert forall i :: 0 <= i < |b| ==> b[i] != '"' && !IsLineTerminator(b[i]);
  }

  /** What the record of an exported transaction holds under each header. */
  lemma TransactionRecord(tipo: string, t: Transaction)
    ensures var rec := Assign(Headers, Texts(TransactionRow(tipo, t), Headers));
            && Prop(rec, "Tipo") == Some(tipo)
            && Prop(rec, "Data") == Some(ExportDate(t.date))
            && Prop(rec, "Descrição") == Some(t.description)
            && Prop(rec, "Valor") == Some(CellText(Some(Num(t.amount))))
            && Prop(rec, "Categoria") == Some(t.category)
            && Prop(rec, "Usuário") == Some(t.transactionUser)
  {
    RecordOfSixCells(Str(tipo), Day(t.date), Str(t.description), Num(t.amount), Str(t.category), Str(t.transactionUser));
  }

  /** What the record of a row of six cells holds under each header: each cell's text. */
  lemma RecordOfSixCells(a: Cell, b: Cell, c: Cell, d: Cell, e: Cell, f: Cell)
    ensures var rec := Assign(Headers, Texts(RowOf(Headers, [a, b, c, d, e, f]), Headers));
            && Prop(rec, "Tipo") == Some(CellText(Some(a)))
            && Prop(rec, "Data") == Some(CellText(Some(b)))
            && Prop(rec, "Descrição") == Some(CellText(Some(c)))
            && Prop(rec, "Valor") == Some(CellText(Some(d)))
            && Prop(rec, "Categoria") == Some(CellText(Some(e)))
            && Prop(rec, "Usuário") == Some(CellText(Some(f)))
  {
    HeadersDistinct();
    var cells := [a, b, c, d, e, f];
    RecordOfCells(Headers, cells, 0);
    RecordOfCells(Headers, cells, 1);
    RecordOfCells(Headers, cells, 2);
    RecordOfCells(Headers, cells, 3);
    RecordOfCells(Headers, cells, 4);
    RecordOfCells(Headers, cells, 5);
  }

  lemma WriteOfTransactionRecord(rec: Record, tipo: string, kind: Kind, description: string, amount: real,
                                 category: string, date: string, user: string)
    requires TipoOf(tipo, kind)
    requires Prop(rec, "Tipo") == Some(tipo) && Prop(rec, "Data") == Some(date)
    requires Prop(rec, "Descrição") == Some(description) && Prop(rec, "Categoria") == Some(category)
    requires Prop(rec, "Usuário") == Some(user)
    requires AmountOf(rec) == if amount == 0.0 then None else Some(amount)
    ensures WriteOf(rec) == if amount == 0.0 then None
                            else Some(AddRecord(kind, description, amount, category, Some(date),
                                                if user == "" then "Desconhecido" else user))
  {
    if amount != 0.0 {
      WriteOfSome(rec);
      WriteOfKind(rec);
      WriteOfDefaults(rec);
    }
  }

  /** An exported transaction is imported as its write, unless its amount is 0: that amount is
      written as an empty field, which does not read as a number, and the row is skipped. */
  lemma TransactionWriteBack(tipo: string, kind: Kind, t: Transaction)
    requires TipoOf(tipo, kind) && WholeCents(t.amount)
    ensures WriteOf(Assign(Headers, Texts(TransactionRow(tipo, t), Headers)))
            == if t.amount == 0.0 then None else Some(TransactionWrite(kind, t))
  {
    TransactionRecord(tipo, t);
    AmountRead(t.amount);
    WriteOfTransactionRecord(Assign(Headers, Texts(TransactionRow(tipo, t), Headers)), tipo, kind,
                             t.description, t.amount, t.category, ExportDate(t.date), t.transactionUser);
  }

  /** The exported initial balance is imported as the initial balance, unless it is 0. */
  lemma BalanceWriteBack(today: Date, initialBalance: real)
    requires WholeCents(initialBalance)
    ensures WriteOf(Assign(Headers, Texts(BalanceRow(today, initialBalance), Headers)))
            == if initialBalance == 0.0 then None else Some(SetInitialBalance(initialBalance))
  {
    RecordOfSixCells(Str("Saldo Inicial"), Day(today), Str("Saldo Inicial do Período"), Num(initialBalance), Str(""), Str(""));
    AmountRead(initialBalance);
  }

  lemma {:induction false} ParsedConcat(a: seq<Row>, b: seq<Row>, headers: seq<string>)
    ensures Parsed(a + b, headers) == Parsed(a, headers) + Parsed(b, headers)
  {
    if b == [] {
      assert a + b == a;
    } else {
      ConcatFront(a, b);
      ParsedConcat(a, b[..|b| - 1], headers);
    }
  }

  lemma {:induction false} WritesConcat(a: seq<Record>, b: seq<Record>)
    ensures Writes(a + b) == Writes(a) + Writes(b)
  {
    if b == [] {
      assert a + b == a;
    } else {
      ConcatFront(a, b);
      WritesConcat(a, b[..|b| - 1]);
    }
  }

  /** The transactions of one kind come back as their writes, zero amounts skipped. */
  lemma {:induction false} RecoveredRows(tipo: string, kind: Kind, txs: seq<Transaction>)
    requires TipoOf(tipo, kind) && forall i :: 0 <= i < |txs| ==> WholeCents(txs[i].amount)
    ensures Writes(Parsed(TransactionRows(tipo, txs), Headers)) == Recovered(kind, txs)
  {
    if txs != [] {
      var n := |txs| - 1;
      var front, row := TransactionRows(tipo, txs[..n]), TransactionRow(tipo, txs[n]);
      assert TransactionRows(tipo, txs) == front + [row];
      ParsedConcat(front, [row], Headers);
      var rec := Assign(Headers, Texts(row, Headers));
      assert Parsed([row], Headers) == [rec] by {
        assert [row][..0] == [];
      }
      WritesConcat(Parsed(front, Headers), [rec]);
      assert Writes([rec]) == (if WriteOf(rec).Some? then [WriteOf(rec).value] else []) by {
        assert [rec][..0] == [];
      }
      RecoveredRows(tipo, kind, txs[..n]);
      TransactionWriteBack(tipo, kind, txs[n]);
    }
  }

  /** The writes the import makes of the exported rows. */
  lemma ExportWrites(today: Date, initialBalance: real, incomes: seq<Transaction>, expenses: seq<Transaction>)
    requires WholeCents(initialBalance)
    requires forall i :: 0 <= i < |incomes| ==> WholeCents(incomes[i].amount)
    requires forall i :: 0 <= i < |expenses| ==> WholeCents(expenses[i].amount)
    ensures Writes(Parsed(ExportRows(today, initialBalance, incomes, expenses), Headers))
            == BalanceWrites(initialBalance) + Recovered(Income, incomes) + Recovered(Expense, expenses)
  {
    var b := BalanceRow(today, initialBalance);
    var ri, re := TransactionRows("Entrada", incomes), TransactionRows("Saída", expenses);
    var rec := Assign(Headers, Texts(b, Headers));
    ParsedConcat([b] + ri, re, Headers);
    ParsedConcat([b], ri, Headers);
    assert Parsed([b], Headers) == [rec] by {
      assert [b][..0] == [];
    }
    WritesConcat([rec] + Parsed(ri, Headers), Parsed(re, Headers));
    WritesConcat([rec], Parsed(ri, Headers));
    assert Writes([rec]) == (if WriteOf(rec).Some? then [WriteOf(rec).value] else []) by {
      assert [rec][..0] == [];
    }
    BalanceWriteBack(today, initialBalance);
    RecoveredRows("Entrada", Income, incomes);
    RecoveredRows("Saída", Expense, expenses);
  }

  /** Every exported row of exportable transactions is safe. */
  lemma ExportRowsSafe(today: Date, initialBalance: real, incomes: seq<Transaction>, expenses: seq<Transaction>)
    requires forall i :: 0 <= i < |incomes| ==> Exportable(incomes[i])
    requires forall i :: 0 <= i < |expenses| ==> Exportable(expenses[i])
    ensures var rows := ExportRows(today, initialBalance, incomes, expenses);
            forall i :: 0 <= i < |rows| ==> SafeRow(rows[i], Headers)
  {
    var rows := ExportRows(today, initialBalance, incomes, expenses);
    ExportRowsOrder(today, initialBalance, incomes, expenses);
    forall i | 0 <= i < |rows| ensures SafeRow(rows[i], Headers) {
      if i == 0 {
        SafeBalanceRow(today, initialBalance);
      } else if i <= |incomes| {
        SafeTransactionRow("Entrada", Income, incomes[i - 1]);
      } else {
        SafeTransactionRow("Saída", Expense, expenses[i - 1 - |incomes|]);
      }
    }
  }

  /** Importing the file the export wrote, with or without its byte-order mark: the import
      neither fails nor finds the file empty, and its batch is the initial balance, then every
      income, then every expense, each with its own kind, texts and amount, except that
      amounts of 0 are skipped and a blank user becomes `Desconhecido`. This holds when the
      amounts are whole numbers of cents and the texts are safe. */
  lemma ExportThenImport(mark: string, today: Date, initialBalance: real, incomes: seq<Transaction>,
                         expenses: seq<Transaction>)
    requires mark == "" || mark == "\U{FEFF}"
    requires WholeCents(initialBalance)
    requires forall i :: 0 <= i < |incomes| ==> Exportable(incomes[i])
    requires forall i :: 0 <= i < |expenses| ==> Exportable(expenses[i])
    ensures var batch := BalanceWrites(initialBalance) + Recovered(Income, incomes) + Recovered(Expense, expenses);
            ImportOf(mark + Join(CsvLines(ExportRows(today, initialBalance, incomes, expenses), Headers), '\n'))
            == Imported(|batch|, batch)
  {
    var rows := ExportRows(today, initialBalance, incomes, expenses);
    ExportParsed(mark, today, initialBalance, incomes, expenses);
    ExportWrites(today, initialBalance, incomes, expenses);
    assert Parsed(rows, Headers) != [] by {
      ParsedLength(rows, Headers);
    }
  }

  /** The byte-order mark in front of the exported text changes nothing the import reads. */
  lemma BomIgnored(today: Date, initialBalance: real, incomes: seq<Transaction>, expenses: seq<Transaction>)
    requires forall i :: 0 <= i < |incomes| ==> Exportable(incomes[i])
    requires forall i :: 0 <= i < |expenses| ==> Exportable(expenses[i])
    ensures var csv := Join(CsvLines(ExportRows(today, initialBalance, incomes, expenses), Headers), '\n');
            ParseCsvOf(WithBom(csv)) == ParseCsvOf(csv)
  {
    var csv := Join(CsvLines(ExportRows(today, initialBalance, incomes, expenses), Headers), '\n');
    ExportParsed("\U{FEFF}", today, initialBalance, incomes, expenses);
    ExportParsed("", today, initialBalance, incomes, expenses);
    assert "" + csv == csv;
  }

  /** The export of exportable transactions is read back as the records of its rows. */
  lemma ExportParsed(mark: string, today: Date, initialBalance: real, incomes: seq<Transaction>,
                     expenses: seq<Transaction>)
    requires mark == "" || mark == "\U{FEFF}"
    requires forall i :: 0 <= i < |incomes| ==> Exportable(incomes[i])
    requires forall i :: 0 <= i < |expenses| ==> Exportable(expenses[i])
    ensures var rows := ExportRows(today, initialBalance, incomes, expenses);
            ParseCsvOf(mark + Join(CsvLines(rows, Headers), '\n')) == Some(Parsed(rows, Headers))
  {
    var rows := ExportRows(today, initialBalance, incomes, expenses);
    var lines, records := CsvLines(rows, Headers), Parsed(rows, Headers);
    HeadersWellFormed();
    ExportRowsSafe(today, initialBalance, incomes, expenses);
    ExportDataLinesShape(rows, Headers);
    ExportDataLinesRead(rows, Headers);
    ParseFile(mark, Headers, lines, records);
  }

  lemma {:induction false} ParsedLength(rows: seq<Row>, headers: seq<string>)
    ensures |Parsed(rows, headers)| == |rows|
  {
    if rows != [] {
      ParsedLength(rows[..|rows| - 1], headers);
    }
  }

  /** The writes of exported transactions are exactly the writes of those with a non-zero
      amount, and there are no more of them than transactions. */
  lemma RecoveredWrites(kind: Kind, txs: seq<Transaction>)
    ensures |Recovered(kind, txs)| <= |txs|
    ensures forall w :: w in Recovered(kind, txs) <==>
                          exists i :: 0 <= i < |txs| && txs[i].amount != 0.0 && w == TransactionWrite(kind, txs[i])
  {
    RecoveredLength(kind, txs);
    forall w ensures w in Recovered(kind, txs) <==>
                     exists i :: 0 <= i < |txs| && txs[i].amount != 0.0 && w == TransactionWrite(kind, txs[i])
    {
      if w in Recovered(kind, txs) {
        RecoveredSound(kind, txs, w);
      }
      if exists i :: 0 <= i < |txs| && txs[i].amount != 0.0 && w == TransactionWrite(kind, txs[i]) {
        var i :| 0 <= i < |txs| && txs[i].amount != 0.0 && w == TransactionWrite(kind, txs[i]);
        RecoveredComplete(kind, txs, i);
      }
    }
  }

  lemma {:induction false} RecoveredLength(kind: Kind, txs: seq<Transaction>)
    ensures |Recovered(kind, txs)| <= |txs|
  {
    if txs != [] {
      RecoveredLength(kind, txs[..|txs| - 1]);
    }
  }

  /** Every recovered write is the write of a transaction with a non-zero amount. */
  lemma {:induction false} RecoveredSound(kind: Kind, txs: seq<Transaction>, w: Write)
    requires w in Recovered(kind, txs)
    ensures exists i :: 0 <= i < |txs| && txs[i].amount != 0.0 && w == TransactionWrite(kind, txs[i])
  {
    var n := |txs| - 1;
    var t := txs[n];
    if w in Recovered(kind, txs[..n]) {
      RecoveredSound(kind, txs[..n], w);
      var i :| 0 <= i < n && txs[..n][i].amount != 0.0 && w == TransactionWrite(kind, txs[..n][i]);
      assert txs[i] == txs[..n][i];
    } else {
      assert t.amount != 0.0 && w == TransactionWrite(kind, t);
    }
  }

  /** The write of every transaction with a non-zero amount is recovered. */
  lemma {:induction false} RecoveredComplete(kind: Kind, txs: seq<Transaction>, i: nat)
    requires i < |txs| && txs[i].amount != 0.0
    ensures TransactionWrite(kind, txs[i]) in Recovered(kind, txs)
  {
    var n := |txs| - 1;
    var front := Recovered(kind, txs[..n]);
    var last := if txs[n].amount == 0.0 then [] else [TransactionWrite(kind, txs[n])];
    assert Recovered(kind, txs) == front + last;
    if i == n {
      InBack(TransactionWrite(kind, txs[n]), front, last);
    } else {
      assert txs[..n][i] == txs[i];
      RecoveredComplete(kind, txs[..n], i);
      InFront(TransactionWrite(kind, txs[i]), front, last);
    }
  }

  /** The import deletes every `"` a field held: a quoted field is read back without its
      quotes, doubled or not, and trimmed. */
  lemma QuotesDropped(v: string)
    ensures Clean(Quote(v)) == Trim(RemoveAll(v, '"'))
  {
    var quote, e := "\"", Escape(v);
    EscapeQuotesOnly(v);
    assert Quote(v) == quote + (e + quote);
    assert RemoveAll(quote, '"') == [];
    RemoveAllConcat(quote, e + quote, '"');
    RemoveAllConcat(e, quote, '"');
    assert RemoveAll(Quote(v), '"') == RemoveAll(e, '"') + [];
    assert RemoveAll(Quote(v), '"') == RemoveAll(v, '"');
  }

  /** For instance a description `a"b` comes back as `ab`. */
  lemma QuoteLost()
    ensures Clean(Quote("a\"b")) == "ab"
  {
    var v := "a\"b";
    assert RemoveAll(v, '"') == "ab" by {
      assert RemoveAll("b", '"') == "b";
      assert RemoveAll("\"b", '"') == "b";
    }
    assert Trim("ab") == "ab" by { TrimOfTrimmed("ab"); }
    QuotesDropped(v);
  }
}
