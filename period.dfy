/** The period summary of the dashboard: the incomes and expenses dated inside a chosen window,
    their totals, the balance they lead to, their amounts grouped by category and by user, and
    the merged per-user chart rows. */
module PeriodSummary {
  import opened Optional
  import opened Text
  import opened Records

  /** The window used when the start field is blank: midnight of 1900-01-01. */
  const DefaultStart := Date(1900, 1, 1)

  /** The window used when the end field is blank: midnight of 2100-01-01. */
  const DefaultEnd := Date(2100, 1, 1)

  /** A bound as picked in the date field (`None` when the field is blank), or its default. */
  function Bound(picked: Option<Date>, default: Date): Date
  {
    if picked.Some? then picked.value else default
  }

  /** `start <= date <= end` on instants, where both bounds are the midnight starting their
      day: everything from the start day on, up to the first instant of the end day. */
  predicate InWindow(t: Transaction, start: Date, end: Date)
  {
    DateLeq(start, t.date) && DateLeq(t.date, end) && (t.date == end ==> t.msOfDay == 0)
  }

  /** `txs.filter(...)` with the window test: the transactions inside the window, in order. */
  function Filtered(txs: seq<Transaction>, start: Date, end: Date): seq<Transaction>
  {
    if txs == [] then []
    else
      var rest := Filtered(txs[..|txs| - 1], start, end);
      if InWindow(txs[|txs| - 1], start, end) then rest + [txs[|txs| - 1]] else rest
  }

  /** The filter keeps exactly the transactions inside the window, and never adds any. */
  lemma {:induction false} FilteredMembers(txs: seq<Transaction>, start: Date, end: Date)
    ensures |Filtered(txs, start, end)| <= |txs|
    ensures forall t :: t in Filtered(txs, start, end) <==> t in txs && InWindow(t, start, end)
  {
    if txs != [] {
      var init := txs[..|txs| - 1];
      FilteredMembers(init, start, end);
      assert txs == init + [txs[|txs| - 1]];
    }
  }

  /** When every transaction is inside the window the filter keeps them all, in order. */
  lemma {:induction false} FilteredAll(txs: seq<Transaction>, start: Date, end: Date)
    requires forall i :: 0 <= i < |txs| ==> InWindow(txs[i], start, end)
    ensures Filtered(txs, start, end) == txs
  {
    if txs != [] {
      FilteredAll(txs[..|txs| - 1], start, end);
    }
  }

  /** Filtering a concatenation filters each part. */
  lemma {:induction false} FilteredConcat(a: seq<Transaction>, b: seq<Transaction>, start: Date, end: Date)
    ensures Filtered(a + b, start, end) == Filtered(a, start, end) + Filtered(b, start, end)
  {
    if b == [] {
      assert a + b == a;
    } else {
      var init := b[..|b| - 1];
      assert (a + b)[..|a + b| - 1] == a + init;
      FilteredConcat(a, init, start, end);
    }
  }

  /** `reduce((sum, t) => sum + t.amount, 0)`. */
  function Total(txs: seq<Transaction>): real
  {
    if txs == [] then 0.0 else Total(txs[..|txs| - 1]) + txs[|txs| - 1].amount
  }

  /** The total of a concatenation is the sum of the totals. */
  lemma {:induction false} TotalConcat(a: seq<Transaction>, b: seq<Transaction>)
    ensures Total(a + b) == Total(a) + Total(b)
  {
    if b == [] {
      assert a + b == a;
    } else {
      var init := b[..|b| - 1];
      assert (a + b)[..|a + b| - 1] == a + init;
      TotalConcat(a, init);
    }
  }

  /** A total of amounts that are all positive (as the transaction form demands) is not
      negative, and it is at least each of its amounts. */
  lemma {:induction false} TotalOfPositive(txs: seq<Transaction>)
    requires forall i :: 0 <= i < |txs| ==> txs[i].amount > 0.0
    ensures Total(txs) >= 0.0
    ensures forall i :: 0 <= i < |txs| ==> txs[i].amount <= Total(txs)
  {
    if txs != [] {
      TotalOfPositive(txs[..|txs| - 1]);
    }
  }

  /** The two grouping keys of the summary. */
  datatype Field = Category | User

  function KeyOf(t: Transaction, f: Field): string
  {
    match f
    case Category => t.category
    case User => t.transactionUser
  }

  /** One property of a grouping object: a key and the amount summed under it. */
  datatype Entry = Entry(key: string, amount: real)

  function EntryKeys(g: seq<Entry>): (ks: seq<string>)
    ensures |ks| == |g| && forall i :: 0 <= i < |g| ==> ks[i] == g[i].key
  {
    if g == [] then [] else [g[0].key] + EntryKeys(g[1..])
  }

  /** `acc[k]`, or `None` for `undefined` when `k` is not a property. */
  function Lookup(g: seq<Entry>, k: string): Option<real>
  {
    if g == [] then None
    else if g[0].key == k then Some(g[0].amount)
    else Lookup(g[1..], k)
  }

  /** `acc[k] = (acc[k] || 0) + amount`: adds to the amount of an existing key in place, or
      appends a new property at the end (the key order of a JavaScript object). */
  function Upsert(g: seq<Entry>, k: string, amount: real): seq<Entry>
  {
    if g == [] then [Entry(k, amount)]
    else if g[0].key == k then [Entry(k, g[0].amount + amount)] + g[1..]
    else [g[0]] + Upsert(g[1..], k, amount)
  }

  /** The sum of the amounts of a grouping. */
  function Sum(g: seq<Entry>): real
  {
    if g == [] then 0.0 else g[0].amount + Sum(g[1..])
  }

  /** The amounts of the transactions whose key is `k`, summed. */
  function TotalOf(txs: seq<Transaction>, f: Field, k: string): real
  {
    if txs == [] then 0.0
    else TotalOf(txs[..|txs| - 1], f, k) + (if KeyOf(txs[|txs| - 1], f) == k then txs[|txs| - 1].amount else 0.0)
  }

  /** The `reduce` that builds `incomeByCategory`, `expenseByCategory`, `incomeByUser` and
      `expenseByUser`. */
  function GroupBy(txs: seq<Transaction>, f: Field): seq<Entry>
  {
    if txs == [] then []
    else Upsert(GroupBy(txs[..|txs| - 1], f), KeyOf(txs[|txs| - 1], f), txs[|txs| - 1].amount)
  }

  /** Upserting keeps the keys, appending `k` when it is new. */
  lemma {:induction false} UpsertKeys(g: seq<Entry>, k: string, amount: real)
    ensures EntryKeys(Upsert(g, k, amount)) == if k in EntryKeys(g) then EntryKeys(g) else EntryKeys(g) + [k]
  {
    if g != [] && g[0].key != k {
      UpsertKeys(g[1..], k, amount);
      assert EntryKeys(g) == [g[0].key] + EntryKeys(g[1..]);
    }
  }

  /** Upserting adds `amount` to the sum. */
  lemma {:induction false} UpsertSum(g: seq<Entry>, k: string, amount: real)
    ensures Sum(Upsert(g, k, amount)) == Sum(g) + amount
  {
    if g != [] && g[0].key != k {
      UpsertSum(g[1..], k, amount);
    }
  }

  /** Upserting adds `amount` to the amount of `k` (0 when it was missing) and changes no other
      key's amount. */
  lemma {:induction false} UpsertLookup(g: seq<Entry>, k: string, amount: real, x: string)
    ensures Lookup(Upsert(g, k, amount), x)
            == if x == k then Some(OrZero(Lookup(g, k)) + amount) else Lookup(g, x)
  {
    if g != [] && g[0].key != k {
      UpsertLookup(g[1..], k, amount, x);
    }
  }

  /** The keys of the transactions, in order. */
  function KeyList(txs: seq<Transaction>, f: Field): (ks: seq<string>)
    ensures |ks| == |txs|
  {
    if txs == [] then [] else KeyList(txs[..|txs| - 1], f) + [KeyOf(txs[|txs| - 1], f)]
  }

  /** A key is listed exactly when some transaction has it. */
  lemma {:induction false} KeyListMembers(txs: seq<Transaction>, f: Field, k: string)
    ensures k in KeyList(txs, f) <==> exists t :: t in txs && KeyOf(t, f) == k
  {
    if txs != [] {
      var n := |txs| - 1;
      KeyListMembers(txs[..n], f, k);
      assert txs == txs[..n] + [txs[n]];
    }
  }

  /** The keys of a grouping are the transactions' keys (an empty key included), each once, in
      the order of their first transaction. */
  lemma {:induction false} GroupByKeys(txs: seq<Transaction>, f: Field)
    ensures EntryKeys(GroupBy(txs, f)) == Dedup(KeyList(txs, f))
  {
    if txs != [] {
      var n := |txs| - 1;
      var init := txs[..n];
      var t := txs[n];
      GroupByKeys(init, f);
      UpsertKeys(GroupBy(init, f), KeyOf(t, f), t.amount);
      assert KeyList(txs, f)[..n] == KeyList(init, f);
    }
  }

  /** Every transaction lands in the bucket of its own key: a key's amount is the total of the
      transactions with that key, and a key no transaction has is absent. */
  lemma GroupByLookup(txs: seq<Transaction>, f: Field, k: string)
    ensures Lookup(GroupBy(txs, f), k) == if k in KeyList(txs, f) then Some(TotalOf(txs, f, k)) else None
  {
    if k in KeyList(txs, f) {
      GroupByLookupPresent(txs, f, k);
    } else {
      GroupByKeys(txs, f);
      LookupOfKeys(GroupBy(txs, f), k);
    }
  }

  lemma {:induction false} GroupByLookupPresent(txs: seq<Transaction>, f: Field, k: string)
    requires k in KeyList(txs, f)
    ensures Lookup(GroupBy(txs, f), k) == Some(TotalOf(txs, f, k))
  {
    var n := |txs| - 1;
    var init := txs[..n];
    var t := txs[n];
    var p := GroupBy(init, f);
    assert KeyList(txs, f) == KeyList(init, f) + [KeyOf(t, f)];
    UpsertLookup(p, KeyOf(t, f), t.amount, k);
    if KeyOf(t, f) == k {
      assert TotalOf(txs, f, k) == TotalOf(init, f, k) + t.amount;
      if k in KeyList(init, f) {
        GroupByLookupPresent(init, f, k);
      } else {
        GroupByKeys(init, f);
        LookupOfKeys(p, k);
        NoKeyNoTotal(init, f, k);
      }
    } else {
      assert TotalOf(txs, f, k) == TotalOf(init, f, k);
      GroupByLookupPresent(init, f, k);
    }
  }

  lemma {:induction false} NoKeyNoTotal(txs: seq<Transaction>, f: Field, k: string)
    requires k !in KeyList(txs, f)
    ensures TotalOf(txs, f, k) == 0.0
  {
    if txs != [] {
      var n := |txs| - 1;
      assert KeyList(txs, f)[..n] == KeyList(txs[..n], f);
      NoKeyNoTotal(txs[..n], f, k);
    }
  }

  /** The amounts of all groups add up to the total. */
  lemma {:induction false} GroupBySum(txs: seq<Transaction>, f: Field)
    ensures Sum(GroupBy(txs, f)) == Total(txs)
  {
    if txs != [] {
      var n := |txs| - 1;
      GroupBySum(txs[..n], f);
      UpsertSum(GroupBy(txs[..n], f), KeyOf(txs[n], f), txs[n].amount);
    }
  }

  /** A lookup finds a value exactly for the keys present. */
  lemma {:induction false} LookupOfKeys(g: seq<Entry>, k: string)
    ensures Lookup(g, k).Some? <==> k in EntryKeys(g)
  {
    if g != [] {
      LookupOfKeys(g[1..], k);
      assert EntryKeys(g) == [g[0].key] + EntryKeys(g[1..]);
    }
  }

  /** `acc[k] || 0`. */
  function OrZero(v: Option<real>): real
  {
    if v.Some? then v.value else 0.0
  }

  /** One row of the per-user chart. */
  datatype UserRow = UserRow(name: string, incomes: real, expenses: real)

  /** `[...new Set([...Object.keys(incomeByUser), ...Object.keys(expenseByUser)])]` mapped to
      rows carrying each side's amount, 0 for a side with no such user. */
  function UserChart(incomeByUser: seq<Entry>, expenseByUser: seq<Entry>): seq<UserRow>
  {
    var users := Dedup(EntryKeys(incomeByUser) + EntryKeys(expenseByUser));
    seq(|users|, i requires 0 <= i < |users| =>
      UserRow(users[i], OrZero(Lookup(incomeByUser, users[i])), OrZero(Lookup(expenseByUser, users[i]))))
  }

  /** The chart has one row per user of either side, no user twice, the users with incomes
      first in their own order, and a side the user has no entry on shows 0. */
  lemma UserChartRows(incomeByUser: seq<Entry>, expenseByUser: seq<Entry>)
    requires Distinct(EntryKeys(incomeByUser))
    ensures var rows := UserChart(incomeByUser, expenseByUser);
            var names := seq(|rows|, i requires 0 <= i < |rows| => rows[i].name);
            Distinct(names)
            && (forall u :: u in names <==> u in EntryKeys(incomeByUser) || u in EntryKeys(expenseByUser))
            && |rows| >= |incomeByUser|
            && (forall i :: 0 <= i < |incomeByUser| ==> rows[i].name == incomeByUser[i].key)
            && (forall i :: 0 <= i < |rows| ==>
                  (rows[i].name !in EntryKeys(incomeByUser) ==> rows[i].incomes == 0.0)
                  && (rows[i].name !in EntryKeys(expenseByUser) ==> rows[i].expenses == 0.0))
  {
    var ks := EntryKeys(incomeByUser);
    var users := Dedup(ks + EntryKeys(expenseByUser));
    var rows := UserChart(incomeByUser, expenseByUser);
    var names := seq(|rows|, i requires 0 <= i < |rows| => rows[i].name);
    assert names == users;
    DedupKeepsDistinctPrefix(ks, EntryKeys(expenseByUser));
    forall i | 0 <= i < |incomeByUser| ensures rows[i].name == incomeByUser[i].key {
      assert users[..|ks|][i] == ks[i];
    }
    forall i | 0 <= i < |rows|
      ensures (rows[i].name !in EntryKeys(incomeByUser) ==> rows[i].incomes == 0.0)
              && (rows[i].name !in EntryKeys(expenseByUser) ==> rows[i].expenses == 0.0)
    {
      LookupOfKeys(incomeByUser, users[i]);
      LookupOfKeys(expenseByUser, users[i]);
    }
  }

  /** What the summary hands to the dashboard. The category charts are the category groupings
      themselves, each entry a bar. */
  datatype Summary = Summary(
    totalIncomes: real,
    totalExpenses: real,
    currentBalance: real,
    incomeByCategory: seq<Entry>,
    expenseByCategory: seq<Entry>,
    incomeByUser: seq<Entry>,
    expenseByUser: seq<Entry>,
    userChartData: seq<UserRow>)

  /** `calculateSummary`: the window's transactions, their totals and groupings; the initial
      balance is never filtered. */
  function Summarize(incomes: seq<Transaction>, expenses: seq<Transaction>, initialBalance: real,
                     startDate: Option<Date>, endDate: Option<Date>): Summary
  {
    var start, end := Bound(startDate, DefaultStart), Bound(endDate, DefaultEnd);
    var fi, fe := Filtered(incomes, start, end), Filtered(expenses, start, end);
    var ti, te := Total(fi), Total(fe);
    var iu, eu := GroupBy(fi, User), GroupBy(fe, User);
    Summary(ti, te, initialBalance + ti - te,
            GroupBy(fi, Category), GroupBy(fe, Category), iu, eu, UserChart(iu, eu))
  }

  /** The totals count only the transactions inside the window (the defaults when a bound is
      blank), the balance is the initial balance plus incomes minus expenses, and every
      grouping adds up to its side's total. */
  lemma SummaryTotals(incomes: seq<Transaction>, expenses: seq<Transaction>, initialBalance: real,
                      startDate: Option<Date>, endDate: Option<Date>)
    ensures var s := Summarize(incomes, expenses, initialBalance, startDate, endDate);
            var start, end := Bound(startDate, DefaultStart), Bound(endDate, DefaultEnd);
            s.totalIncomes == Total(Filtered(incomes, start, end))
            && s.totalExpenses == Total(Filtered(expenses, start, end))
            && s.currentBalance == initialBalance + s.totalIncomes - s.totalExpenses
            && Sum(s.incomeByCategory) == s.totalIncomes && Sum(s.incomeByUser) == s.totalIncomes
            && Sum(s.expenseByCategory) == s.totalExpenses && Sum(s.expenseByUser) == s.totalExpenses
  {
    var start, end := Bound(startDate, DefaultStart), Bound(endDate, DefaultEnd);
    var fi, fe := Filtered(incomes, start, end), Filtered(expenses, start, end);
    GroupBySum(fi, Category);
    GroupBySum(fi, User);
    GroupBySum(fe, Category);
    GroupBySum(fe, User);
  }

  /** Each row of the user chart shows the user's total of the window's incomes and of its
      expenses, 0 for a side on which the user has none. */
  lemma UserChartAmounts(incomes: seq<Transaction>, expenses: seq<Transaction>, initialBalance: real,
                         startDate: Option<Date>, endDate: Option<Date>, i: nat)
    requires i < |Summarize(incomes, expenses, initialBalance, startDate, endDate).userChartData|
    ensures var row := Summarize(incomes, expenses, initialBalance, startDate, endDate).userChartData[i];
            var start, end := Bound(startDate, DefaultStart), Bound(endDate, DefaultEnd);
            row.incomes == TotalOf(Filtered(incomes, start, end), User, row.name)
            && row.expenses == TotalOf(Filtered(expenses, start, end), User, row.name)
  {
    var start, end := Bound(startDate, DefaultStart), Bound(endDate, DefaultEnd);
    var fi, fe := Filtered(incomes, start, end), Filtered(expenses, start, end);
    var row := Summarize(incomes, expenses, initialBalance, startDate, endDate).userChartData[i];
    SideAmount(fi, row.name);
    SideAmount(fe, row.name);
  }

  /** `byUser[user] || 0` is the user's total. */
  lemma SideAmount(txs: seq<Transaction>, user: string)
    ensures OrZero(Lookup(GroupBy(txs, User), user)) == TotalOf(txs, User, user)
  {
    GroupByLookup(txs, User, user);
    if user !in KeyList(txs, User) {
      NoKeyNoTotal(txs, User, user);
    }
  }

  /** With both bounds blank, a transaction dated from 1900-01-01 up to 2099-12-31 counts. */
  lemma DefaultWindow(t: Transaction)
    requires 1900 <= t.date.year <= 2099
    ensures InWindow(t, Bound(None, DefaultStart), Bound(None, DefaultEnd))
  {
  }

  /** A transaction on the end day counts only at midnight: the end bound is the first instant
      of its day. */
  lemma EndDayExcluded(t: Transaction, start: Date)
    requires t.msOfDay > 0
    ensures !InWindow(t, start, t.date)
  {
  }
}
