# Controle Financeiro — a Dafny model of the aggregation, CSV and form-validation core

The tracker is a React dashboard over a shared document store: incomes, expenses,
categories, goals, users and a single initial balance. This project models the parts of
`ControleFinanceiro.js` that transform data, and the small balance screen of
`controle-financeiro/src/App.js`:

- **Monthly rollup** (`calculateMonthlySummary`, module `Overview`). Incomes and expenses are
  bucketed by their `YYYY-MM` key in a `map`. The keys are sorted in string order. A running
  balance is carried from the initial balance. Both loops are `method`s whose invariants tie
  them to specification functions.
- **Period summary** (`calculateSummary`, module `PeriodSummary`). It filters by an inclusive
  date window with the 1900-01-01 / 2100-01-01 defaults. It computes totals, the current
  balance, the groupings by category and by user (association lists in insertion
  order), and the merged per-user chart rows.
- **CSV export** (`convertToCsv`, `handleExportCsv`, the byte-order mark of `downloadCsv`,
  module `CsvExport`). The header line is unquoted. Every field is quoted with `"` doubled.
  A falsy value, 0 included, is written empty.
- **CSV import** (`parseCsv` and the row loop of `handleImportCsv`, module `CsvImport`). The
  text is split into non-blank lines. The header names are cleaned. Each data line is
  tokenised by a scanner equivalent to the regular expression `(".*?"|[^",\s]+)(?=\s*,|\s*$)`.
  Rows whose token count differs from the header count are dropped. A line with no token at
  all makes `match` return `null`, which throws: the whole import then fails. The accepted
  rows become a list of abstract store writes, counted.
- **Export then import** (module `ExportImport`). The file the export writes is read back by
  the import as the initial balance, then every income, then every expense. This holds when
  amounts are whole cents and texts hold no `"`, no line break and no white space at their
  ends. Amounts of 0 come back as nothing, and a blank user comes back as `Desconhecido`.
- **Form guards** (module `Forms`). These are the checks each `handleSubmit` makes before its
  one store write (income, expense, category, user, goal, initial balance), plus the goal
  table's progress value and bar width.
- **Balance screen** (`App.js`, module `App`). It is a class with the two state fields
  `saldo` and `valor` and the handlers `handleEntrada` / `handleSaida`.

Amounts are exact `real`s. Dates are `(year, month, day)` triples. `parseFloat` is modelled
concretely (`Numbers.ParseFloat`): leading white space, an optional sign, digits, an optional
point and digits, and an optional exponent, with `None` standing for `NaN`. `'' + x` for an
amount is `Numbers.FormatNumber`, exact for whole numbers of cents below 1e21. The store is reduced to
the `Records.Write` values the code hands to it.

Where the code and its design description disagree, the model follows the code:

- The CSV labels are Portuguese. The headers are `Tipo, Data, Descrição, Valor, Categoria, Usuário`.
  The types are `Saldo Inicial` / `Entrada` / `Saída`. The default user is `Desconhecido`.
- A file with fewer than two non-blank lines is not an error. It parses to no rows, and the
  import reports an empty file (`Outcome.Empty`).
- Export then import is not an identity. The exported 0 amount is an empty field, which does
  not parse, so that row is skipped. The import deletes every `"` instead of un-doubling
  them (`ExportImport.QuoteLost`).
- The progress bar's width is `Math.min(100, progress)`. It is capped at 100 but not floored
  at 0 (`Forms.BarWidthNotFloored`).
- A window bound is the midnight that starts its day. A transaction dated on the end day
  counts only if it is stamped at midnight (`PeriodSummary.EndDayExcluded`).

## Model

| member | source | states |
|---|---|---|
| Overview.Buckets | ControleFinanceiro.js:220-239 | The first pass leaves exactly one bucket per `YYYY-MM` key of the transactions. Each bucket holds the sum of that month's `income` amounts and of its `expense` amounts; any other type opens the bucket and adds nothing. The key list has no repeats. |
| Overview.MonthlySummary | ControleFinanceiro.js:219-257 | The rows are in strictly ascending key order, one per key present and no others. Each row carries its month's income and expense totals. Its balance is the initial balance plus the net change of rows 0..k, and equally the net change of every transaction whose key is not above the row's. |
| Overview.CarryBalances | ControleFinanceiro.js:242-256 | The `map` over the sorted months with `cumulativeBalance` builds exactly the rolled-up rows, one per month, in the given order. |
| Overview.RollupRows | ControleFinanceiro.js:244-255 | Row i of the rollup is month i with its bucket's totals, and every balance is the previous one (or the initial balance) plus the row's net change. |
| Overview.CarriedIsNet | ControleFinanceiro.js:250-251 | A carried balance equals the initial balance plus the sum of `incomes - expenses` over the rows so far. |
| Overview.NetOfSortedRows | ControleFinanceiro.js:241-251 | For rows listing every month in ascending order, the net change of rows 0..i is the net change of all transactions whose month key is at or before row i's. |
| Overview.NetUpToIsChronological | ControleFinanceiro.js:228 | For four-digit years, "key at or before" is "dated in that month or earlier", so the balance is chronological. |
| Records.MonthKeyOrder | ControleFinanceiro.js:241 | String order on two month keys (what `sort()` uses) is chronological order of their months, for four-digit years. |
| Records.MonthKeyShape | ControleFinanceiro.js:228 | A key is `dddd-dd`, and its two numbers are the year and the month. |
| Text.SortStrings | ControleFinanceiro.js:241 | `Object.keys(summary).sort()` is strictly ascending and holds the same keys, none lost. |
| PeriodSummary.FilteredMembers | ControleFinanceiro.js:1445-1457 | The filter keeps exactly the transactions inside the window and adds none. |
| PeriodSummary.DefaultWindow | ControleFinanceiro.js:1447-1448 | With both bounds blank, every transaction dated from 1900-01-01 to 2099-12-31 is inside the window. |
| PeriodSummary.EndDayExcluded | ControleFinanceiro.js:1448-1449 | The end bound is the first instant of its day, so a later instant on that day is outside. |
| PeriodSummary.SummaryTotals | ControleFinanceiro.js:1444-1481 | The totals sum only the window's transactions. `currentBalance` = initial balance + `totalIncomes` − `totalExpenses`, with the initial balance never filtered. Each of the four groupings sums to its side's total. |
| PeriodSummary.GroupByKeys | ControleFinanceiro.js:1463-1481 | A grouping's keys are the transactions' keys, an empty key included, each once, in order of first appearance. |
| PeriodSummary.GroupByLookup | ControleFinanceiro.js:1463-1481 | Every transaction lands in the bucket of its own key: a key's amount is the total of the transactions with that key, and a key no transaction has is absent. |
| PeriodSummary.GroupBySum | ControleFinanceiro.js:1463-1466 | The amounts of all buckets add up to the total of the grouped transactions. |
| PeriodSummary.TotalOfPositive | ControleFinanceiro.js:1459-1460 | A total of positive amounts is at least 0 and at least each amount. |
| PeriodSummary.UserChartRows | ControleFinanceiro.js:1495-1500 | One chart row per user of either side, no user twice. The income users come first, in their order. A side with no entry for the user shows 0. |
| PeriodSummary.UserChartAmounts | ControleFinanceiro.js:1497-1499 | Each chart row's `Entradas` and `Saídas` are that user's totals over the window's incomes and expenses (0 on a side with none). |
| CsvExport.CellTextEmpty | ControleFinanceiro.js:1525 | A field is written empty exactly when its value is falsy (`undefined`, `''` or the number 0). |
| CsvExport.UnescapeEscape | ControleFinanceiro.js:1525 | Doubling `"` is undone by reading doubled quotes back as one (section 2.7 of RFC 4180). |
| CsvExport.EscapeQuotesOnly | ControleFinanceiro.js:1525 | Doubling touches only the quotes: other characters are kept, and a text without quotes is unchanged. |
| CsvExport.FieldsRead | ControleFinanceiro.js:1524-1527 | Every field starts and ends with `"`, and reading its inside back with doubled quotes as one gives the header's value text (`row[header] \|\| ''`). |
| CsvExport.ConvertToCsv | ControleFinanceiro.js:1519-1531 | The loop pushes exactly those lines and joins them with `\n`. |
| CsvExport.CsvLinesSplit | ControleFinanceiro.js:1520-1530 | When no text holds `\n`, splitting the output at `\n` gives back 1 + \|data\| lines: the headers joined by `,` without quoting, then each row's line, in order. |
| ExportImport.BomIgnored | ControleFinanceiro.js:1535 | The mark U+FEFF put in front of the exported CSV text changes nothing the import's parse reads: it is trimmed off the header line as white space. |
| CsvExport.PushRows | ControleFinanceiro.js:1562-1571 | The `forEach` appends one row per transaction, in order, after the rows already there. |
| CsvExport.HandleExportCsv | ControleFinanceiro.js:1546-1587 | The file is the mark plus the CSV text of the balance row, the income rows and the expense rows under the six Portuguese headers. |
| CsvExport.ExportRowsOrder | ControleFinanceiro.js:1549-1583 | The export lists the `Saldo Inicial` row first, then every income as `Entrada`, then every expense as `Saída`, in order. |
| CsvImport.BareRun | ControleFinanceiro.js:1599 | The bare-token alternative `[^",\s]+` takes the whole run of such characters. |
| CsvImport.CleanValues | ControleFinanceiro.js:1599 | Every value read from a line holds no `"` and has no white space at either end. |
| CsvImport.HeaderNamesClean | ControleFinanceiro.js:1594 | Every header name holds neither `"` nor `,`. |
| CsvImport.AssignLast | ControleFinanceiro.js:1602-1605 | The row has exactly the headers as properties, and each header holds the value at its last position: a later duplicate header overwrites an earlier one. |
| CsvImport.ParseCsv | ControleFinanceiro.js:1590-1610 | The method computes `ParseCsvOf`: no rows for fewer than two non-blank lines, else the header line and the parsed data lines. |
| CsvImport.ParseLines | ControleFinanceiro.js:1597-1608 | The loop keeps a record for each line whose value count is the header count, drops the others, and fails at the first line with no token. |
| CsvImport.ShortFileHasNoRows | ControleFinanceiro.js:1591-1592 | Fewer than two non-blank lines give an empty result, whatever they hold. |
| CsvImport.FailureSticks | ControleFinanceiro.js:1670-1673 | Once a line has no token, the whole parse fails, whatever follows. |
| CsvImport.RowCountBound | ControleFinanceiro.js:1601 | There are never more rows than data lines. |
| CsvImport.WriteOfSome | ControleFinanceiro.js:1639-1650 | A row makes a write iff its `Valor` (first `,` made `.`) parses and its `Tipo` is `Saldo Inicial`, `Entrada` or `Saída`; the amount written is the one read. |
| CsvImport.WriteOfKind | ControleFinanceiro.js:1646-1659 | `Saldo Inicial` sets the initial balance. Otherwise the record is `income` iff `Tipo` is `Entrada`. |
| CsvImport.WriteOfDefaults | ControleFinanceiro.js:1655-1660 | A blank `Usuário` becomes `Desconhecido`; a missing `Descrição` or `Categoria` becomes `''`; the `Data` text is passed on. |
| CsvImport.WritesOfRows | ControleFinanceiro.js:1638-1664 | There is one write per row that makes one, and every write is some row's write. |
| CsvImport.ImportRows | ControleFinanceiro.js:1636-1664 | The loop's batch is the rows' writes in order, and `importedCount` equals its length. |
| CsvImport.HandleImportCsv | ControleFinanceiro.js:1622-1673 | The handler fails when the parse throws, reports an empty file for no rows, and otherwise returns the batch and its count. |
| CsvImport.ImportedCount | ControleFinanceiro.js:1668 | The reported count is the batch length, and at most the number of data lines. |
| ExportImport.ScanJoined | ControleFinanceiro.js:1599 | The tokenizer gives back, one token each, quoted fields of plain text joined by `,`. |
| ExportImport.AmountRead | ControleFinanceiro.js:1639 | An exported amount of 0 reads back as `NaN`; a whole-cent amount reads back as itself. |
| ExportImport.RecoveredWrites | ControleFinanceiro.js:1562-1583 | The writes of the exported transactions are exactly those of the transactions with a non-zero amount. |
| ExportImport.ExportThenImport | ControleFinanceiro.js:1546-1664 | Importing the exported file, with or without its mark, gives the initial-balance write and then each income and expense with its own kind, texts, amount and ISO day, except zero amounts. This holds for whole-cent amounts and safe texts. |
| ExportImport.QuotesDropped | ControleFinanceiro.js:1599 | A quoted field comes back with every `"` deleted, doubled or not. |
| ExportImport.QuoteLost | ControleFinanceiro.js:1525 | The description `a"b` comes back as `ab`. |
| Records.ReadIsoDateOf | ControleFinanceiro.js:1565 | The exported ISO day reads back as the same day. |
| Numbers.ParseFormatNumber | ControleFinanceiro.js:1525 | `parseFloat` of the written whole-cent amount is the amount. |
| Numbers.ParseFloatIsNumber | ControleFinanceiro.js:1640 | `parseFloat` gives a number iff a digit, or a point and a digit, follow the white space and sign. |
| Numbers.ReplaceFirst | ControleFinanceiro.js:1639 | `replace(',', '.')` changes nothing when there is no `,`; otherwise it turns the first `,` into `.` and keeps every other character, so a decimal comma becomes the point `parseFloat` reads. |
| Forms.SubmitTransaction | ControleFinanceiro.js:379-390 | The income (and the identical expense) submission writes iff connected, all five fields filled and the amount parses above 0. A blank field gives the fill-in message. The write carries the parsed positive amount and the form's texts. |
| Forms.TransactionAmountRule | ControleFinanceiro.js:629-640 | With every field filled, an amount reading as x is stored when x > 0 and rejected as invalid otherwise. |
| Forms.ZeroAmountRejected | ControleFinanceiro.js:386 | The amount `0` is rejected as invalid, so nothing is written. |
| Forms.NegativeAmountRejected | ControleFinanceiro.js:636 | The amount `-5` is rejected as invalid, so nothing is written. |
| Forms.SubmitCategory | ControleFinanceiro.js:838 | A category is written iff connected and its name is filled. |
| Forms.SubmitUser | ControleFinanceiro.js:1286 | A user is written iff connected and its name is filled. |
| Forms.SubmitGoal | ControleFinanceiro.js:968-981 | A goal is written iff all four fields are filled, the target parses above 0 and the current amount parses at 0 or above. |
| Forms.GoalAmountRule | ControleFinanceiro.js:974-981 | With the fields filled, parsed amounts are stored iff target > 0 and current ≥ 0. |
| Forms.GoalStartingAtZero | ControleFinanceiro.js:977-981 | A goal of target `5` and current amount `0` is accepted. |
| Forms.GoalZeroTarget | ControleFinanceiro.js:977-981 | A target of `0` is rejected as invalid. |
| Forms.GoalNegativeCurrent | ControleFinanceiro.js:977-981 | A current amount of `-5` is rejected as invalid. |
| Forms.SubmitInitialBalance | ControleFinanceiro.js:1187-1198 | The initial balance is written iff it is filled and parses, whatever its sign. |
| Forms.InitialBalanceAnySign | ControleFinanceiro.js:1194 | `-5` is stored as −5; `abc` and the blank field are rejected. |
| Forms.GoalProgressBounds | ControleFinanceiro.js:1111 | For an accepted goal, progress is finite, at least 0 and at least 100 iff the goal is met. The bar width lies in [0, 100], equals 100 iff the goal is met, and equals the progress otherwise. |
| Forms.BarWidthNotFloored | ControleFinanceiro.js:1121 | `Math.min(100, progress)` does not floor at 0: a negative current amount draws a negative width. |
| App.ControleFinanceiro.constructor | controle-financeiro/src/App.js:4-5 | A new screen has `saldo` 0 and `valor` empty. |
| App.ControleFinanceiro.SetValor | controle-financeiro/src/App.js:30 | Typing sets `valor` and leaves `saldo` alone. |
| App.ControleFinanceiro.HandleEntrada | controle-financeiro/src/App.js:7-13 | A parseable `valor` v makes `saldo` + v and clears `valor`. Otherwise neither field changes. |
| App.ControleFinanceiro.HandleSaida | controle-financeiro/src/App.js:15-21 | A parseable `valor` v makes `saldo` − v and clears `valor`. Otherwise neither field changes. |
| App.EntradaThenSaida | controle-financeiro/src/App.js:8-18 | An entrada of a text then a saida of the same text restores `saldo`, with no sign check. |
| App.NegativeEntrada | controle-financeiro/src/App.js:8-10 | An entrada of `-5` on a fresh screen leaves a balance of −5. |

## Left out

- Firebase initialisation, authentication and the `!db || !userId` check beyond a `connected` flag: these are foreign SDK calls.
- The `onSnapshot` subscriptions, their clean-up and the loading counter: they are event-driven and run by the store.
- `addDoc`, `setDoc`, `writeBatch` and `commit`: each is one abstract `Records.Write`. The batch's atomicity, and a failing commit (which shows the same error message as a parse failure), belong to the store.
- The Blob, anchor and FileReader handling of download and upload: this is browser I/O. Only the byte-order mark is kept.
- JavaScript `Date`, `Timestamp`, time zones and `toLocaleString` month names: dates are calendar triples plus milliseconds after midnight in UTC. The imported `Data` is kept as text: the model does not model the `new Date(row['Data'])` call, which gives an Invalid Date for unparseable text.
- The default-date effect that reads the clock: the export's "today" is a parameter.
- Floating point: amounts are exact reals. `toFixed` and float rounding are not modelled, and neither are `Infinity` or exponent text in `parseFloat`'s input beyond plain `e`/`E` digits.
- Numbers.FormatNumber: `'' + x` is modelled to cent precision only (it truncates finer fractions), and it writes every digit, whereas JavaScript writes a magnitude of 1e21 or more in exponent form (`1e+21`). The export round trip is therefore stated for whole-cent amounts.
- PeriodSummary.GroupBy: JavaScript objects list integer-like keys (such as `"2024"`) before the other keys; the model keeps plain insertion order. The groupings are plain objects, so a category or user named `constructor`, `toString` or `valueOf` reads the inherited function in `acc[k] || 0` and its amount becomes string concatenation, and a key `__proto__` is silently dropped; the model treats every key as an own property. A legacy transaction whose category or user is `undefined` lands under the key `"undefined"`; the model's transactions always carry a string.
- Text.SortStrings: `sort()` compares UTF-16 code units, while the model compares characters. The two agree on the ASCII month keys.
- The category chart arrays (`incomeByCategoryChartData`, `expenseByCategoryChartData`) are the category groupings unchanged, one entry per bar, so they are not modelled separately.
- The success and failure messages after a store call, and the form clearing on success: they belong to the store outcome, not the guard.
- All JSX rendering, dark mode, tabs and charts; `controle-financeiro/src/index.js`, which is only the React bootstrap.
