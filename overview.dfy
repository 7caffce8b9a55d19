/** The monthly rollup of the overview tab: incomes and expenses summed per `YYYY-MM` month,
    the months in string order, and the balance carried from the initial balance. */
module Overview {
  import opened Text
  import opened Records
  import opened Seqs

  /** The running totals kept per month while the transactions are read. */
  datatype Bucket = Bucket(incomes: real, expenses: real)

  /** One row of the summary. The month is its key; the localised month name shown in the
      table is not modelled. */
  datatype MonthRow = MonthRow(month: string, incomes: real, expenses: real, balance: real)

  /** The month keys the transactions fall in. */
  function Keys(txs: seq<Transaction>): set<string>
  {
    if txs == [] then {} else Keys(txs[..|txs| - 1]) + {MonthKey(txs[|txs| - 1].date)}
  }

  /** The amounts of the `income` transactions of month `k`, summed in order. */
  function MonthIncomes(txs: seq<Transaction>, k: string): real
  {
    if txs == [] then 0.0
    else
      var t := txs[|txs| - 1];
      MonthIncomes(txs[..|txs| - 1], k) + (if t.kind == Income && MonthKey(t.date) == k then t.amount else 0.0)
  }

  /** The amounts of the `expense` transactions of month `k`, summed in order. */
  function MonthExpenses(txs: seq<Transaction>, k: string): real
  {
    if txs == [] then 0.0
    else
      var t := txs[|txs| - 1];
      MonthExpenses(txs[..|txs| - 1], k) + (if t.kind == Expense && MonthKey(t.date) == k then t.amount else 0.0)
  }

  function Months(rows: seq<MonthRow>): (ks: seq<string>)
    ensures |ks| == |rows| && forall i :: 0 <= i < |rows| ==> ks[i] == rows[i].month
  {
    seq(|rows|, i requires 0 <= i < |rows| => rows[i].month)
  }

  /** The net change `incomes - expenses` of the rows, summed. */
  function Net(rows: seq<MonthRow>): real
  {
    if rows == [] then 0.0
    else Net(rows[..|rows| - 1]) + (rows[|rows| - 1].incomes - rows[|rows| - 1].expenses)
  }

  /** What a transaction changes the balance by: its amount for an income, minus it for an
      expense, nothing otherwise. */
  function Signed(t: Transaction): real
  {
    match t.kind
    case Income => t.amount
    case Expense => -t.amount
    case Unrecognized => 0.0
  }

  /** The net change of the transactions whose month key is `month` or sorts before it. */
  function NetUpTo(txs: seq<Transaction>, month: string): real
  {
    if txs == [] then 0.0
    else
      var t := txs[|txs| - 1];
      NetUpTo(txs[..|txs| - 1], month) + (if LexLess(month, MonthKey(t.date)) then 0.0 else Signed(t))
  }

  /** The net change of the transactions dated in the month of `d` or earlier. */
  function NetThrough(txs: seq<Transaction>, d: Date): real
  {
    if txs == [] then 0.0
    else
      var t := txs[|txs| - 1];
      NetThrough(txs[..|txs| - 1], d) + (if MonthBefore(d, t.date) then 0.0 else Signed(t))
  }

  /** `summary` holds one bucket per month key of `txs`, with that month's totals. */
  predicate Tallied(summary: map<string, Bucket>, txs: seq<Transaction>)
  {
    summary.Keys == Keys(txs)
    && forall k :: k in summary ==> summary[k] == Bucket(MonthIncomes(txs, k), MonthExpenses(txs, k))
  }

  /** Adds a transaction's amount to its side of a bucket. */
  function Tally(b: Bucket, t: Transaction): Bucket
  {
    match t.kind
    case Income => b.(incomes := b.incomes + t.amount)
    case Expense => b.(expenses := b.expenses + t.amount)
    case Unrecognized => b
  }

  /** Adding one transaction to its month's bucket (created empty when missing) keeps every
      bucket equal to its month's totals. */
  lemma TallyStep(summary: map<string, Bucket>, txs: seq<Transaction>, t: Transaction, key: string,
                  bucket: Bucket, next: map<string, Bucket>)
    requires Tallied(summary, txs)
    requires key == MonthKey(t.date)
    requires bucket == if key in summary then summary[key] else Bucket(0.0, 0.0)
    requires next == summary[key := Tally(bucket, t)]
    ensures Tallied(next, txs + [t])
  {
    KeysStep(txs, t);
    TallyTotals(summary, txs, t, key, bucket, next);
    assert next.Keys == summary.Keys + {key};
  }

  lemma KeysStep(txs: seq<Transaction>, t: Transaction)
    ensures Keys(txs + [t]) == Keys(txs) + {MonthKey(t.date)}
  {
    assert (txs + [t])[..|txs|] == txs;
  }

  lemma TallyTotals(summary: map<string, Bucket>, txs: seq<Transaction>, t: Transaction, key: string,
                    bucket: Bucket, next: map<string, Bucket>)
    requires forall k :: k in summary ==> summary[k] == Bucket(MonthIncomes(txs, k), MonthExpenses(txs, k))
    requires summary.Keys == Keys(txs)
    requires key == MonthKey(t.date)
    requires bucket == if key in summary then summary[key] else Bucket(0.0, 0.0)
    requires next == summary[key := Tally(bucket, t)]
    ensures forall k :: k in next ==> next[k] == Bucket(MonthIncomes(txs + [t], k), MonthExpenses(txs + [t], k))
  {
    if key !in summary {
      NoMonthNoTotals(txs, key);
    }
    forall k | k in next
      ensures next[k] == Bucket(MonthIncomes(txs + [t], k), MonthExpenses(txs + [t], k))
    {
      MonthTotalsStep(txs, t, k);
    }
  }

  /** The first pass of the monthly summary: a bucket per month key, created on the key's first
      transaction, holding the month's income and expense totals; `order` lists the keys in the
      order they were created. */
  method Buckets(all: seq<Transaction>) returns (summary: map<string, Bucket>, order: seq<string>)
    ensures Tallied(summary, all)
    ensures Distinct(order) && forall k :: k in order <==> k in summary
  {
    summary := map[];
    order := [];
    for i := 0 to |all|
      invariant Tallied(summary, all[..i])
      invariant Distinct(order) && forall k :: k in order <==> k in summary
    {
      var t := all[i];
      TakeOneMore(all, i);
      var key := MonthKey(t.date);
      if key !in summary {
        DistinctAppend(order, key);
        order := order + [key];
      }
      var bucket := if key in summary then summary[key] else Bucket(0.0, 0.0);
      TallyStep(summary, all[..i], t, key, bucket, summary[key := Tally(bucket, t)]);
      summary := summary[key := Tally(bucket, t)];
    }
    assert all[..|all|] == all;
  }

  /** The monthly summary: one row per month key of the incomes and expenses, in ascending
      string order, with that month's income and expense totals and the balance reached at its
      end, starting from `initialBalance`. */
  method MonthlySummary(incomes: seq<Transaction>, expenses: seq<Transaction>, initialBalance: real)
    returns (rows: seq<MonthRow>)
    ensures StrictlySorted(Months(rows))
    ensures forall k :: k in Months(rows) <==> k in Keys(incomes + expenses)
    ensures forall i :: 0 <= i < |rows| ==>
              rows[i].incomes == MonthIncomes(incomes + expenses, rows[i].month)
              && rows[i].expenses == MonthExpenses(incomes + expenses, rows[i].month)
    ensures forall i :: 0 <= i < |rows| ==> rows[i].balance == initialBalance + Net(rows[..i + 1])
    ensures forall i :: 0 <= i < |rows| ==>
              rows[i].balance == initialBalance + NetUpTo(incomes + expenses, rows[i].month)
  {
    var all := incomes + expenses;
    var summary, order := Buckets(all);
    var sortedMonths := SortStrings(order);
    rows := CarryBalances(sortedMonths, summary, initialBalance);
    RollupOfTallied(all, summary, sortedMonths, initialBalance);
  }

  /** The second pass of the monthly summary: a row per month of `sortedMonths`, in that order,
      with the month's totals and the balance carried on from `initialBalance`. */
  method CarryBalances(sortedMonths: seq<string>, summary: map<string, Bucket>, initialBalance: real)
    returns (rows: seq<MonthRow>)
    requires forall k :: k in sortedMonths ==> k in summary
    ensures rows == Rollup(sortedMonths, summary, initialBalance)
  {
    var cumulativeBalance := initialBalance;
    rows := [];
    for j := 0 to |sortedMonths|
      invariant rows + Rollup(sortedMonths[j..], summary, cumulativeBalance)
                == Rollup(sortedMonths, summary, initialBalance)
    {
      var monthData := summary[sortedMonths[j]];
      RollupStep(sortedMonths, j, summary, cumulativeBalance);
      cumulativeBalance := cumulativeBalance + (monthData.incomes - monthData.expenses);
      var row := MonthRow(sortedMonths[j], monthData.incomes, monthData.expenses, cumulativeBalance);
      assert rows + ([row] + Rollup(sortedMonths[j + 1..], summary, cumulativeBalance))
             == rows + [row] + Rollup(sortedMonths[j + 1..], summary, cumulativeBalance);
      rows := rows + [row];
    }
    assert sortedMonths[|sortedMonths|..] == [];
    assert rows + [] == rows;
  }

  /** One step of the second pass: the first remaining month becomes the next row. */
  lemma RollupStep(months: seq<string>, j: nat, summary: map<string, Bucket>, balance: real)
    requires forall k :: k in months ==> k in summary
    requires j < |months|
    ensures var b := summary[months[j]];
            var carried := balance + (b.incomes - b.expenses);
            Rollup(months[j..], summary, balance)
            == [MonthRow(months[j], b.incomes, b.expenses, carried)] + Rollup(months[j + 1..], summary, carried)
  {
    assert months[j..][1..] == months[j + 1..];
  }

  /** Rolling up the ascending months of a complete tally gives the rows the monthly summary
      promises. */
  lemma RollupOfTallied(all: seq<Transaction>, summary: map<string, Bucket>, months: seq<string>,
                        initialBalance: real)
    requires Tallied(summary, all)
    requires StrictlySorted(months) && forall k :: k in months <==> k in summary
    ensures var rows := Rollup(months, summary, initialBalance);
            StrictlySorted(Months(rows))
            && (forall k :: k in Months(rows) <==> k in Keys(all))
            && (forall i :: 0 <= i < |rows| ==>
                  rows[i].incomes == MonthIncomes(all, rows[i].month)
                  && rows[i].expenses == MonthExpenses(all, rows[i].month))
            && (forall i :: 0 <= i < |rows| ==> rows[i].balance == initialBalance + Net(rows[..i + 1]))
            && (forall i :: 0 <= i < |rows| ==>
                  rows[i].balance == initialBalance + NetUpTo(all, rows[i].month))
  {
    RollupTotals(all, summary, months, initialBalance);
    RollupBalances(all, summary, months, initialBalance);
  }

  /** The balance of each rolled-up row of a complete tally is the initial balance plus the
      net of the rows up to it, which is the net of all transactions up to its month. */
  lemma RollupBalances(all: seq<Transaction>, summary: map<string, Bucket>, months: seq<string>,
                       initialBalance: real)
    requires Tallied(summary, all)
    requires StrictlySorted(months) && forall k :: k in months <==> k in summary
    ensures var rows := Rollup(months, summary, initialBalance);
            (forall i :: 0 <= i < |rows| ==> rows[i].balance == initialBalance + Net(rows[..i + 1]))
            && (forall i :: 0 <= i < |rows| ==>
                  rows[i].balance == initialBalance + NetUpTo(all, rows[i].month))
  {
    var rows := Rollup(months, summary, initialBalance);
    RollupTotals(all, summary, months, initialBalance);
    RollupRows(months, summary, initialBalance);
    forall i | 0 <= i < |rows|
      ensures rows[i].balance == initialBalance + Net(rows[..i + 1])
    {
      CarriedIsNet(rows, initialBalance, i);
    }
    forall i | 0 <= i < |rows|
      ensures rows[i].balance == initialBalance + NetUpTo(all, rows[i].month)
    {
      NetOfSortedRows(all, rows, i);
    }
  }

  /** The rolled-up rows of a complete tally are its months in ascending order, with each
      month's totals. */
  lemma RollupTotals(all: seq<Transaction>, summary: map<string, Bucket>, months: seq<string>,
                     initialBalance: real)
    requires Tallied(summary, all)
    requires StrictlySorted(months) && forall k :: k in months <==> k in summary
    ensures var rows := Rollup(months, summary, initialBalance);
            StrictlySorted(Months(rows))
            && (forall k :: k in Months(rows) <==> k in Keys(all))
            && (forall i :: 0 <= i < |rows| ==>
                  rows[i].incomes == MonthIncomes(all, rows[i].month)
                  && rows[i].expenses == MonthExpenses(all, rows[i].month))
  {
    var rows := Rollup(months, summary, initialBalance);
    RollupRows(months, summary, initialBalance);
    assert Months(rows) == months;
  }

  /** The rows the second pass builds for the months `months`, in that order, carrying the
      balance on from `balance`. */
  function Rollup(months: seq<string>, summary: map<string, Bucket>, balance: real): seq<MonthRow>
    requires forall k :: k in months ==> k in summary
  {
    if months == [] then []
    else
      var b := summary[months[0]];
      var carried := balance + (b.incomes - b.expenses);
      [MonthRow(months[0], b.incomes, b.expenses, carried)] + Rollup(months[1..], summary, carried)
  }

  /** Each row's balance is the previous row's (or the starting balance) plus its net change. */
  predicate Carried(rows: seq<MonthRow>, start: real)
  {
    (|rows| > 0 ==> rows[0].balance == start + (rows[0].incomes - rows[0].expenses))
    && forall i :: 0 < i < |rows| ==>
         rows[i].balance == rows[i - 1].balance + (rows[i].incomes - rows[i].expenses)
  }

  /** Row i of the rollup is month i with its bucket's totals, and the balance is carried. */
  lemma {:induction false} RollupRows(months: seq<string>, summary: map<string, Bucket>, start: real)
    requires forall k :: k in months ==> k in summary
    ensures var rows := Rollup(months, summary, start);
            |rows| == |months|
            && (forall i :: 0 <= i < |rows| ==>
                  rows[i].month == months[i] && rows[i].incomes == summary[months[i]].incomes
                  && rows[i].expenses == summary[months[i]].expenses)
            && Carried(rows, start)
  {
    if months != [] {
      var b := summary[months[0]];
      var carried := start + (b.incomes - b.expenses);
      var rest := Rollup(months[1..], summary, carried);
      RollupRows(months[1..], summary, carried);
      var rows := Rollup(months, summary, start);
      assert rows == [rows[0]] + rest;
      forall i | 1 <= i < |rows|
        ensures rows[i] == rest[i - 1]
        ensures rows[i].month == months[i]
      {
        assert months[1..][i - 1] == months[i];
      }
    }
  }

  /** A carried balance is the starting balance plus the net change of the rows so far. */
  lemma {:induction false} CarriedIsNet(rows: seq<MonthRow>, start: real, i: nat)
    requires Carried(rows, start) && i < |rows|
    ensures rows[i].balance == start + Net(rows[..i + 1])
  {
    var prefix := rows[..i + 1];
    assert prefix[..i] == rows[..i] && prefix[i] == rows[i];
    assert Net(prefix) == Net(rows[..i]) + (rows[i].incomes - rows[i].expenses);
    if i > 0 {
      CarriedIsNet(rows, start, i - 1);
    } else {
      assert rows[..i] == [];
      assert Net(rows[..i]) == 0.0;
    }
  }

  lemma MonthTotalsStep(txs: seq<Transaction>, t: Transaction, k: string)
    ensures MonthIncomes(txs + [t], k)
            == MonthIncomes(txs, k) + (if t.kind == Income && MonthKey(t.date) == k then t.amount else 0.0)
    ensures MonthExpenses(txs + [t], k)
            == MonthExpenses(txs, k) + (if t.kind == Expense && MonthKey(t.date) == k then t.amount else 0.0)
  {
    assert (txs + [t])[..|txs|] == txs;
  }

  lemma {:induction false} KeyOfMember(txs: seq<Transaction>, t: Transaction)
    requires t in txs
    ensures MonthKey(t.date) in Keys(txs)
  {
    if txs[|txs| - 1] != t {
      assert t in txs[..|txs| - 1];
      KeyOfMember(txs[..|txs| - 1], t);
    }
  }

  lemma {:induction false} NoMonthNoTotals(txs: seq<Transaction>, k: string)
    requires k !in Keys(txs)
    ensures MonthIncomes(txs, k) == 0.0 && MonthExpenses(txs, k) == 0.0
  {
    if txs != [] {
      NoMonthNoTotals(txs[..|txs| - 1], k);
    }
  }

  /** The net change of the transactions whose month key is one of `ks`. */
  function NetIn(txs: seq<Transaction>, ks: seq<string>): real
  {
    if txs == [] then 0.0
    else
      var t := txs[|txs| - 1];
      NetIn(txs[..|txs| - 1], ks) + (if MonthKey(t.date) in ks then Signed(t) else 0.0)
  }

  lemma {:induction false} NetInNoMonth(txs: seq<Transaction>)
    ensures NetIn(txs, []) == 0.0
  {
    if txs != [] {
      NetInNoMonth(txs[..|txs| - 1]);
    }
  }

  lemma {:induction false} NetInOneMonth(txs: seq<Transaction>, k: string)
    ensures NetIn(txs, [k]) == MonthIncomes(txs, k) - MonthExpenses(txs, k)
  {
    if txs != [] {
      NetInOneMonth(txs[..|txs| - 1], k);
    }
  }

  lemma {:induction false} NetInAppend(txs: seq<Transaction>, ks: seq<string>, k: string)
    requires k !in ks
    ensures NetIn(txs, ks + [k]) == NetIn(txs, ks) + NetIn(txs, [k])
  {
    if txs != [] {
      NetInAppend(txs[..|txs| - 1], ks, k);
    }
  }

  /** Summing the rows of distinct months is summing the transactions of those months. */
  lemma {:induction false} NetOfRows(txs: seq<Transaction>, rows: seq<MonthRow>)
    requires Distinct(Months(rows))
    requires forall i :: 0 <= i < |rows| ==>
               rows[i].incomes == MonthIncomes(txs, rows[i].month)
               && rows[i].expenses == MonthExpenses(txs, rows[i].month)
    ensures Net(rows) == NetIn(txs, Months(rows))
  {
    if rows != [] {
      var n := |rows| - 1;
      var ks := Months(rows);
      assert Months(rows[..n]) == ks[..n];
      assert ks == ks[..n] + [ks[n]];
      NetOfRows(txs, rows[..n]);
      NetInAppend(txs, ks[..n], ks[n]);
      NetInOneMonth(txs, ks[n]);
    } else {
      NetInNoMonth(txs);
    }
  }

  lemma {:induction false} NetInIsNetUpTo(txs: seq<Transaction>, ks: seq<string>, month: string)
    requires forall t :: t in txs ==> (MonthKey(t.date) in ks <==> !LexLess(month, MonthKey(t.date)))
    ensures NetIn(txs, ks) == NetUpTo(txs, month)
  {
    if txs != [] {
      NetInIsNetUpTo(txs[..|txs| - 1], ks, month);
    }
  }

  /** The rows up to the i-th, for rows that list every month of the transactions in ascending
      order with their totals, sum to the net change of all months up to the i-th. */
  lemma NetOfSortedRows(txs: seq<Transaction>, rows: seq<MonthRow>, i: nat)
    requires StrictlySorted(Months(rows))
    requires forall k :: k in Months(rows) <==> k in Keys(txs)
    requires forall j :: 0 <= j < |rows| ==>
               rows[j].incomes == MonthIncomes(txs, rows[j].month)
               && rows[j].expenses == MonthExpenses(txs, rows[j].month)
    requires i < |rows|
    ensures Net(rows[..i + 1]) == NetUpTo(txs, rows[i].month)
  {
    var ks := Months(rows);
    var prefix := rows[..i + 1];
    SortedIsDistinct(ks);
    assert Months(prefix) == ks[..i + 1];
    NetOfRows(txs, prefix);
    forall t | t in txs
      ensures MonthKey(t.date) in ks[..i + 1] <==> !LexLess(ks[i], MonthKey(t.date))
    {
      KeyOfMember(txs, t);
      SortedPrefix(ks, i, MonthKey(t.date));
    }
    NetInIsNetUpTo(txs, ks[..i + 1], ks[i]);
  }

  /** In a strictly ascending list, the keys up to the i-th are those not above the i-th. */
  lemma SortedPrefix(ks: seq<string>, i: nat, k: string)
    requires StrictlySorted(ks) && i < |ks| && k in ks
    ensures k in ks[..i + 1] <==> !LexLess(ks[i], k)
  {
    var j :| 0 <= j < |ks| && ks[j] == k;
    if j <= i {
      assert ks[..i + 1][j] == k;
      if j < i {
        LexLessAsymmetric(ks[j], ks[i]);
      } else {
        LexLessIrreflexive(k);
      }
    } else {
      assert k !in ks[..i + 1] by {
        forall m | 0 <= m <= i ensures ks[m] != k {
          assert LexLess(ks[m], ks[j]);
          LexLessIrreflexive(k);
        }
      }
    }
  }

  /** For years written with four digits, "key at or before the month of `d`" is "dated in
      that month or earlier": the carried balance of a month is the initial balance plus the
      net change of everything dated up to the end of that month. */
  lemma {:induction false} NetUpToIsChronological(txs: seq<Transaction>, d: Date)
    requires 1000 <= d.year <= 9999
    requires forall t :: t in txs ==> 1000 <= t.date.year <= 9999
    ensures NetUpTo(txs, MonthKey(d)) == NetThrough(txs, d)
  {
    if txs != [] {
      var t := txs[|txs| - 1];
      MonthKeyOrder(d, t.date);
      NetUpToIsChronological(txs[..|txs| - 1], d);
    }
  }
}
