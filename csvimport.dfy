/** The CSV import of the dashboard: the file is cut into non-blank lines, the first gives the
    headers, every other line is tokenised by the regular expression
    `(".*?"|[^",\s]+)(?=\s*,|\s*$)` and kept as a record when it has as many values as there
    are headers, and every record with a readable `Valor` and a known `Tipo` becomes one write
    of the import batch. */
module CsvImport {
  import opened Optional
  import opened Text
  import opened Numbers
  import opened Records

  // ---------------------------------------------------------------------------------------
  // The tokenizer

  /** The characters of `[^",\s]`. */
  predicate BareChar(c: char)
  {
    c != '"' && c != ',' && !IsSpace(c)
  }

  /** The lookahead `(?=\s*,|\s*$)` at the front of `t` (the rest of the line): white space,
      then a `,` or the end of the line. */
  predicate FieldEnds(t: string)
  {
    var u := TrimStart(t);
    u == [] || u[0] == ','
  }

  /** The length of the run of `[^",\s]` characters at the front of `t`. */
  function BareRun(t: string): (n: nat)
    ensures n <= |t| && forall i :: 0 <= i < n ==> BareChar(t[i])
    ensures n < |t| ==> !BareChar(t[n])
  {
    if t != [] && BareChar(t[0]) then 1 + BareRun(t[1..]) else 0
  }

  /** `.*?"` followed by the lookahead, after an opening `"`: the number of characters up to
      and including the first `"` at which the field ends, where `.` crosses no line
      terminator. */
  function CloseQuote(t: string): (r: Option<nat>)
    ensures r.Some? ==> 1 <= r.value <= |t|
  {
    if t == [] || IsLineTerminator(t[0]) then None
    else if t[0] == '"' && FieldEnds(t[1..]) then Some(1)
    else
      match CloseQuote(t[1..])
      case None => None
      case Some(n) => Some(n + 1)
  }

  /** The length of the token the expression matches at the front of `t`, if it matches there:
      a quoted token when `t` starts with `"`, otherwise the whole run of bare characters
      (a shorter run is followed by a bare character, which the lookahead refuses). */
  function TokenAt(t: string): (r: Option<nat>)
    ensures r.Some? ==> 1 <= r.value <= |t|
  {
    if t == [] then None
    else if t[0] == '"' then
      match CloseQuote(t[1..])
      case None => None
      case Some(n) => Some(n + 1)
    else
      var n := BareRun(t);
      if n > 0 && FieldEnds(t[n..]) then Some(n) else None
  }

  /** `line.match(regex)` with the `g` flag: the tokens from left to right; after a match the
      search goes on from its end, after a failed position from the next one. */
  function Scan(t: string): seq<string>
    decreases |t|
  {
    if t == [] then []
    else
      match TokenAt(t)
      case Some(n) => [t[..n]] + Scan(t[n..])
      case None => Scan(t[1..])
  }

  /** `val.replace(/"/g, '').trim()`. */
  function Clean(token: string): string
  {
    Trim(RemoveAll(token, '"'))
  }

  function CleanAll(tokens: seq<string>): (values: seq<string>)
    ensures |values| == |tokens| && forall i :: 0 <= i < |tokens| ==> values[i] == Clean(tokens[i])
  {
    seq(|tokens|, i requires 0 <= i < |tokens| => Clean(tokens[i]))
  }

  /** Every value read from a line is free of `"` and has no white space at its ends. */
  lemma CleanValues(tokens: seq<string>)
    ensures var values := CleanAll(tokens);
            forall i :: 0 <= i < |values| ==> '"' !in values[i] && Trim(values[i]) == values[i]
  {
    var values := CleanAll(tokens);
    forall i | 0 <= i < |values| ensures '"' !in values[i] && Trim(values[i]) == values[i] {
      TrimKeepsAbsent(RemoveAll(tokens[i], '"'), '"');
      TrimOfTrimmed(values[i]);
    }
  }

  // ---------------------------------------------------------------------------------------
  // parseCsv

  /** `lines.filter(line => line.trim() !== '')`. */
  function NonBlank(lines: seq<string>): seq<string>
  {
    if lines == [] then []
    else NonBlank(lines[..|lines| - 1]) + (if Trim(lines[|lines| - 1]) != [] then [lines[|lines| - 1]] else [])
  }

  /** `header.trim().replace(/"/g, '')`. */
  function HeaderName(h: string): string
  {
    RemoveAll(Trim(h), '"')
  }

  /** The headers of the first line: the pieces between `,`, each trimmed and without quotes. */
  function HeaderNames(line: string): (hs: seq<string>)
    ensures |hs| == |Split(line, ',')|
    ensures forall i :: 0 <= i < |hs| ==> hs[i] == HeaderName(Split(line, ',')[i])
  {
    var parts := Split(line, ',');
    seq(|parts|, i requires 0 <= i < |parts| => HeaderName(parts[i]))
  }

  /** A header name holds neither `"` nor `,`. */
  lemma HeaderNamesClean(line: string)
    ensures var hs := HeaderNames(line);
            forall i :: 0 <= i < |hs| ==> '"' !in hs[i] && ',' !in hs[i]
  {
    var parts := Split(line, ',');
    var hs := HeaderNames(line);
    forall i | 0 <= i < |hs| ensures '"' !in hs[i] && ',' !in hs[i] {
      TrimKeepsAbsent(parts[i], ',');
      RemoveAllKeeps(Trim(parts[i]), '"', ',');
    }
  }

  /** A parsed row: the value under each header. */
  type Record = map<string, string>

  /** `headers.forEach((header, index) => row[header] = values[index])`: a header listed twice
      keeps the later value. */
  function Assign(headers: seq<string>, values: seq<string>): (row: Record)
    requires |values| == |headers|
    ensures forall h :: h in row <==> h in headers
  {
    if headers == [] then map[]
    else Assign(headers[..|headers| - 1], values[..|values| - 1])[headers[|headers| - 1] := values[|values| - 1]]
  }

  /** The row has exactly the headers as properties, and each header holds the value at its
      last position: a later duplicate overwrites an earlier one. */
  lemma {:induction false} AssignLast(headers: seq<string>, values: seq<string>)
    requires |values| == |headers|
    ensures var row := Assign(headers, values);
            (forall h :: h in row <==> h in headers)
            && forall i :: 0 <= i < |headers| && headers[i] !in headers[i + 1..] ==> row[headers[i]] == values[i]
  {
    if headers != [] {
      var n := |headers| - 1;
      AssignLast(headers[..n], values[..n]);
      forall i | 0 <= i < n && headers[i] !in headers[i + 1..]
        ensures Assign(headers, values)[headers[i]] == values[i]
      {
        assert headers[n] in headers[i + 1..];
        assert headers[..n][i + 1..] == headers[i + 1..n];
      }
    }
  }

  /** The rows of the data lines: `None` when a line has no token at all (`match` returns
      `null` and reading it throws), otherwise a record for every line with as many values as
      there are headers, the others dropped. */
  function ParseRows(headers: seq<string>, lines: seq<string>): Option<seq<Record>>
  {
    if lines == [] then Some([])
    else
      match ParseRows(headers, lines[..|lines| - 1])
      case None => None
      case Some(rows) =>
        var tokens := Scan(lines[|lines| - 1]);
        if tokens == [] then None
        else
          var values := CleanAll(tokens);
          if |values| == |headers| then Some(rows + [Assign(headers, values)]) else Some(rows)
  }

  /** What `parseCsv` returns (`None` when it throws). */
  function ParseCsvOf(csvString: string): Option<seq<Record>>
  {
    var lines := NonBlank(Split(csvString, '\n'));
    if |lines| < 2 then Some([]) else ParseRows(HeaderNames(lines[0]), lines[1..])
  }

  /** `parseCsv`: fewer than two non-blank lines give no rows; otherwise the first line gives
      the headers and the others are read by `ParseLines`. */
  method ParseCsv(csvString: string) returns (result: Option<seq<Record>>)
    ensures result == ParseCsvOf(csvString)
  {
    var lines := NonBlank(Split(csvString, '\n'));
    if |lines| < 2 {
      return Some([]);
    }
    var headers := HeaderNames(lines[0]);
    result := ParseLines(headers, lines[1..]);
  }

  /** The loop of `parseCsv` over the data lines: each is tokenised in turn, the first line
      without a token ends the parse with an exception, and a line is kept when its value count
      is the header count. */
  method ParseLines(headers: seq<string>, lines: seq<string>) returns (result: Option<seq<Record>>)
    ensures result == ParseRows(headers, lines)
  {
    var data := [];
    for i := 0 to |lines|
      invariant ParseRows(headers, lines[..i]) == Some(data)
    {
      ParseRowsSnoc(headers, lines[..i], lines[i], data);
      assert lines[..i] + [lines[i]] == lines[..i + 1];
      var tokens := Scan(lines[i]);
      if tokens == [] {
        FailureSticks(headers, lines, i + 1);
        return None;
      }
      var values := CleanAll(tokens);
      if |values| == |headers| {
        data := data + [Assign(headers, values)];
      }
    }
    assert lines[..|lines|] == lines;
    result := Some(data);
  }

  lemma ParseRowsSnoc(headers: seq<string>, done: seq<string>, line: string, rows: seq<Record>)
    requires ParseRows(headers, done) == Some(rows)
    ensures var tokens := Scan(line);
            ParseRows(headers, done + [line])
            == if tokens == [] then None
               else if |tokens| == |headers| then Some(rows + [Assign(headers, CleanAll(tokens))])
               else Some(rows)
  {
    assert (done + [line])[..|done|] == done;
  }

  /** Once a line fails, the whole parse fails, whatever lines follow. */
  lemma {:induction false} FailureSticks(headers: seq<string>, lines: seq<string>, k: nat)
    requires k <= |lines| && ParseRows(headers, lines[..k]).None?
    ensures ParseRows(headers, lines).None?
  {
    if k < |lines| {
      assert lines[..|lines| - 1][..k] == lines[..k];
      FailureSticks(headers, lines[..|lines| - 1], k);
    } else {
      assert lines[..k] == lines;
    }
  }

  /** Fewer than two non-blank lines always read as no rows at all, whatever they hold. */
  lemma ShortFileHasNoRows(csvString: string)
    requires |NonBlank(Split(csvString, '\n'))| < 2
    ensures ParseCsvOf(csvString) == Some([])
  {
  }

  /** A data line with a token count other than the header count is dropped, and the rows of
      the lines before it are kept. */
  lemma {:induction false} RowCountBound(headers: seq<string>, lines: seq<string>)
    ensures ParseRows(headers, lines).Some? ==> |ParseRows(headers, lines).value| <= |lines|
  {
    if lines != [] {
      RowCountBound(headers, lines[..|lines| - 1]);
    }
  }

  // ---------------------------------------------------------------------------------------
  // The import loop

  /** `row[name]`, `undefined` when the row has no such header. */
  function Prop(row: Record, name: string): Option<string>
  {
    if name in row then Some(row[name]) else None
  }

  /** `value || fallback` on a string or `undefined`. */
  function OrDefault(value: Option<string>, fallback: string): string
  {
    if value.None? || value.value == "" then fallback else value.value
  }

  /** `parseFloat(row['Valor']?.replace(',', '.'))`, `None` for `NaN`. */
  function AmountOf(row: Record): Option<real>
  {
    match Prop(row, "Valor")
    case None => None
    case Some(v) => ParseFloat(ReplaceFirst(v, ',', '.'))
  }

  /** The write one row makes, if any. */
  function WriteOf(row: Record): Option<Write>
  {
    match AmountOf(row)
    case None => None
    case Some(amount) =>
      var tipo := Prop(row, "Tipo");
      if tipo == Some("Saldo Inicial") then Some(SetInitialBalance(amount))
      else if tipo == Some("Entrada") || tipo == Some("Saída") then
        Some(AddRecord(if tipo == Some("Entrada") then Income else Expense,
                       OrDefault(Prop(row, "Descrição"), ""), amount, OrDefault(Prop(row, "Categoria"), ""),
                       Prop(row, "Data"), OrDefault(Prop(row, "Usuário"), "Desconhecido")))
      else None
  }

  /** A row makes a write exactly when its `Valor` reads as a number and its `Tipo` is
      `Saldo Inicial`, `Entrada` or `Saída`, and the amount written is the one read. */
  lemma WriteOfSome(row: Record)
    ensures WriteOf(row).Some? <==>
              AmountOf(row).Some?
              && (Prop(row, "Tipo") == Some("Saldo Inicial") || Prop(row, "Tipo") == Some("Entrada")
                  || Prop(row, "Tipo") == Some("Saída"))
    ensures WriteOf(row).Some? ==> WriteOf(row).value.amount == AmountOf(row).value
  {
  }

  /** `Saldo Inicial` sets the initial balance, `Entrada` adds an income and `Saída` an
      expense. */
  lemma WriteOfKind(row: Record)
    requires WriteOf(row).Some?
    ensures WriteOf(row).value.SetInitialBalance? <==> Prop(row, "Tipo") == Some("Saldo Inicial")
    ensures WriteOf(row).value.AddRecord? ==>
              (WriteOf(row).value.kind == Income <==> Prop(row, "Tipo") == Some("Entrada"))
              && WriteOf(row).value.kind != Unrecognized
  {
  }

  /** A record takes its texts from the row, a blank description or category becoming empty
      and a blank user `Desconhecido`. */
  lemma WriteOfDefaults(row: Record)
    requires WriteOf(row).Some? && WriteOf(row).value.AddRecord?
    ensures var w := WriteOf(row).value;
            w.date == Prop(row, "Data")
            && (if "Usuário" in row && row["Usuário"] != "" then w.transactionUser == row["Usuário"]
                else w.transactionUser == "Desconhecido")
            && (if "Descrição" in row then w.description == row["Descrição"] else w.description == "")
            && (if "Categoria" in row then w.category == row["Categoria"] else w.category == "")
  {
    RecordOf(row);
  }

  /** The record a row of kind `Entrada` or `Saída` makes, field by field. */
  lemma RecordOf(row: Record)
    requires WriteOf(row).Some? && WriteOf(row).value.AddRecord?
    ensures WriteOf(row).value
            == AddRecord(if Prop(row, "Tipo") == Some("Entrada") then Income else Expense,
                         OrDefault(Prop(row, "Descrição"), ""), AmountOf(row).value,
                         OrDefault(Prop(row, "Categoria"), ""), Prop(row, "Data"),
                         OrDefault(Prop(row, "Usuário"), "Desconhecido"))
  {
    assert Prop(row, "Tipo") != Some("Saldo Inicial");
  }

  /** The writes of the rows, in order. */
  function Writes(rows: seq<Record>): seq<Write>
  {
    if rows == [] then []
    else
      var w := WriteOf(rows[|rows| - 1]);
      Writes(rows[..|rows| - 1]) + (if w.Some? then [w.value] else [])
  }

  /** The rows that make a write, counted. */
  function Writing(rows: seq<Record>): nat
  {
    if rows == [] then 0 else Writing(rows[..|rows| - 1]) + (if WriteOf(rows[|rows| - 1]).Some? then 1 else 0)
  }

  /** There is one write per row that makes one, and every write is the write of some row. */
  lemma {:induction false} WritesOfRows(rows: seq<Record>)
    ensures |Writes(rows)| == Writing(rows) <= |rows|
    ensures forall w :: w in Writes(rows) ==> exists r :: r in rows && WriteOf(r) == Some(w)
  {
    if rows != [] {
      var n := |rows| - 1;
      WritesOfRows(rows[..n]);
      forall w | w in Writes(rows) ensures exists r :: r in rows && WriteOf(r) == Some(w) {
        if w in Writes(rows[..n]) {
          var r :| r in rows[..n] && WriteOf(r) == Some(w);
          assert r in rows;
        } else {
          assert rows[n] in rows;
        }
      }
    }
  }

  /** The loop over the parsed rows: rows whose amount does not read as a number are skipped,
      rows of a known `Tipo` add one write each and `importedCount` counts them. */
  method ImportRows(parsedData: seq<Record>) returns (batch: seq<Write>, importedCount: nat)
    ensures batch == Writes(parsedData)
    ensures importedCount == |batch|
  {
    batch := [];
    importedCount := 0;
    for i := 0 to |parsedData|
      invariant batch == Writes(parsedData[..i])
      invariant importedCount == |batch|
    {
      assert parsedData[..i + 1][..i] == parsedData[..i];
      var row := parsedData[i];
      var amount := AmountOf(row);
      if amount.None? {
        continue;
      }
      var tipo := Prop(row, "Tipo");
      if tipo == Some("Saldo Inicial") {
        batch := batch + [SetInitialBalance(amount.value)];
        importedCount := importedCount + 1;
      } else if tipo == Some("Entrada") || tipo == Some("Saída") {
        var kind := if tipo == Some("Entrada") then Income else Expense;
        batch := batch + [AddRecord(kind, OrDefault(Prop(row, "Descrição"), ""), amount.value,
                                    OrDefault(Prop(row, "Categoria"), ""), Prop(row, "Data"),
                                    OrDefault(Prop(row, "Usuário"), "Desconhecido"))];
        importedCount := importedCount + 1;
      }
    }
    assert parsedData[..|parsedData|] == parsedData;
  }

  /** How an import ends: an error message (the file could not be processed), the message
      for an empty file, or the batch committed with its count. */
  datatype Outcome = Failed | Empty | Imported(count: nat, batch: seq<Write>)

  /** The outcome of importing a file's text. */
  function ImportOf(text: string): Outcome
  {
    match ParseCsvOf(text)
    case None => Failed
    case Some(rows) => if rows == [] then Empty else Imported(|Writes(rows)|, Writes(rows))
  }

  /** `reader.onload` of `handleImportCsv`: parse, give up on an empty result, otherwise build
      the batch; an exception while parsing ends in the error message. */
  method HandleImportCsv(text: string) returns (outcome: Outcome)
    ensures outcome == ImportOf(text)
  {
    var parsedData := ParseCsv(text);
    if parsedData.None? {
      return Failed;
    }
    if |parsedData.value| == 0 {
      return Empty;
    }
    var batch, importedCount := ImportRows(parsedData.value);
    outcome := Imported(importedCount, batch);
  }

  /** The count reported is the number of writes, and there are never more writes than data
      lines. */
  lemma ImportedCount(text: string)
    ensures ImportOf(text).Imported? ==>
              ImportOf(text).count == |ImportOf(text).batch|
              && ImportOf(text).count <= |NonBlank(Split(text, '\n'))| - 1
  {
    var lines := NonBlank(Split(text, '\n'));
    if ImportOf(text).Imported? {
      var rows := ParseCsvOf(text).value;
      WritesOfRows(rows);
      RowCountBound(HeaderNames(lines[0]), lines[1..]);
    }
  }
}
