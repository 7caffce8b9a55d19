/** The stored records of the tracker: transactions with their calendar dates, and the two
    texts derived from a date (the `YYYY-MM` month key and the ISO day). */
module Records {
  import opened Optional
  import opened Text
  import opened Numbers

  type Month = m: int | 1 <= m <= 12 witness 1
  type Day = d: int | 1 <= d <= 31 witness 1

  /** A calendar day as the tracker reads it from a stored date (in UTC). */
  datatype Date = Date(year: int, month: Month, day: Day)

  /** The `type` field of a stored transaction: `income`, `expense` or anything else. */
  datatype Kind = Income | Expense | Unrecognized

  /** A stored income or expense document. Its instant is the day `date` plus `msOfDay`
      milliseconds after midnight (UTC). */
  datatype Transaction = Transaction(
    description: string,
    amount: real,
    category: string,
    transactionUser: string,
    date: Date,
    msOfDay: nat,
    kind: Kind)

  /** One write the tracker makes to its document store: the forms make one each, the CSV
      import one per accepted row. Where a date is written, `new Date(...)` of the text is left
      to the store and the text is kept. */
  datatype Write =
    /** `set` of `settings/initialBalance` to `{ amount }`, merged into what is there. */
    | SetInitialBalance(amount: real)
      /** A new document in `incomes` (`kind` is `Income`) or `expenses`; `date` is the date
          text, absent when an imported row has no `Data`. */
    | AddRecord(kind: Kind, description: string, amount: real, category: string, date: Option<string>,
                transactionUser: string)
      /** A new document in `goals`. */
    | AddGoal(name: string, targetAmount: real, currentAmount: real, dueDate: string)
      /** A new document in `categories`; `appliesTo` is the form's `type` (`income` or
          `expense`). */
    | AddCategory(name: string, appliesTo: string)
      /** A new document in `users`. */
    | AddUser(name: string)

  /** Chronological order of days: `a <= b` on the corresponding instants. */
  predicate DateLeq(a: Date, b: Date) {
    a.year < b.year
    || (a.year == b.year && (a.month < b.month || (a.month == b.month && a.day <= b.day)))
  }

  /** Chronological order of the months two days fall in. */
  predicate MonthBefore(a: Date, b: Date) {
    a.year < b.year || (a.year == b.year && a.month < b.month)
  }

  /** The bucket key of a transaction: the full year, `-`, the month number padded to two
      digits. */
  function MonthKey(d: Date): string
  {
    IntToString(d.year) + "-" + PadStart(IntToString(d.month), 2, '0')
  }

  /** For a year written with four digits the key is `dddd-dd`, and its two numbers are the
      year and the month. */
  lemma MonthKeyShape(d: Date)
    requires 1000 <= d.year <= 9999
    ensures var r := MonthKey(d);
            |r| == 7 && r[4] == '-' && AllDigits(r[..4]) && AllDigits(r[5..])
            && DigitsValue(r[..4]) == d.year && DigitsValue(r[5..]) == d.month
  {
    MonthKeyParts(d, IntToString(d.year), PadStart(IntToString(d.month), 2, '0'), MonthKey(d));
  }

  lemma MonthKeyParts(d: Date, y: string, m: string, r: string)
    requires 1000 <= d.year <= 9999
    requires y == IntToString(d.year) && m == PadStart(IntToString(d.month), 2, '0')
    requires r == y + "-" + m
    ensures |r| == 7 && r[4] == '-' && AllDigits(r[..4]) && AllDigits(r[5..])
    ensures DigitsValue(r[..4]) == d.year && DigitsValue(r[5..]) == d.month
  {
    var ms := IntToString(d.month);
    NatToStringDigits(d.year);
    NatToStringDigits(d.month);
    PadStartShape(ms, 2, '0');
    DigitsOfFourDigitYear(d.year);
    assert |y| == 4;
    assert r[..4] == y;
    assert r[5..] == m;
    DigitsOfMonth(d.month);
    if d.month < 10 {
      assert m == "0" + ms;
      DigitsValueLeadingZero(ms);
    } else {
      assert m == ms;
    }
  }

  /** A year from 1000 to 9999 is written with exactly four digits. */
  lemma DigitsOfFourDigitYear(year: int)
    requires 1000 <= year <= 9999
    ensures |IntToString(year)| == 4
  {
    NatToStringLength(year);
    assert NumDigits(year / 1000) == 1;
    assert NumDigits(year / 100) == 2 by { assert (year / 100) / 10 == year / 1000; }
    assert NumDigits(year / 10) == 3 by { assert (year / 10) / 10 == year / 100; }
  }

  /** A month from 1 to 12 is written with one digit below 10 and two from 10 on. */
  lemma DigitsOfMonth(month: int)
    requires 1 <= month <= 12
    ensures |IntToString(month)| == if month < 10 then 1 else 2
  {
    NatToStringLength(month);
  }

  /** For years written with four digits, the string order of month keys (the order the
      monthly rows are sorted in) is chronological. */
  lemma MonthKeyOrder(a: Date, b: Date)
    requires 1000 <= a.year <= 9999 && 1000 <= b.year <= 9999
    ensures LexLess(MonthKey(a), MonthKey(b)) <==> MonthBefore(a, b)
  {
    MonthKeyShape(a);
    MonthKeyShape(b);
    KeyTextOrder(MonthKey(a), MonthKey(b));
  }

  /** String order on `dddd-dd` texts compares the first number, then the second. */
  lemma KeyTextOrder(ka: string, kb: string)
    requires |ka| == 7 && ka[4] == '-' && AllDigits(ka[..4]) && AllDigits(ka[5..])
    requires |kb| == 7 && kb[4] == '-' && AllDigits(kb[..4]) && AllDigits(kb[5..])
    ensures LexLess(ka, kb) <==>
              DigitsValue(ka[..4]) < DigitsValue(kb[..4])
              || (DigitsValue(ka[..4]) == DigitsValue(kb[..4])
                  && DigitsValue(ka[5..]) < DigitsValue(kb[5..]))
  {
    var ta, tb := [ka[4]] + ka[5..], [kb[4]] + kb[5..];
    assert ka == ka[..4] + ta;
    assert kb == kb[..4] + tb;
    LexLessConcat(ka[..4], ta, kb[..4], tb);
    LexLessDigits(ka[..4], kb[..4]);
    if ka[..4] != kb[..4] {
      LexLessTotal(ka[..4], kb[..4]);
      LexLessDigits(kb[..4], ka[..4]);
    }
    assert ta[0] == tb[0] && ta[1..] == ka[5..] && tb[1..] == kb[5..];
    LexLessDigits(ka[5..], kb[5..]);
  }

  /** Characters of a date written by `toISOString()`. */
  predicate IsoChars(s: string) {
    forall i :: 0 <= i < |s| ==> IsDigit(s[i]) || s[i] == '-' || s[i] == '+'
  }

  lemma IsoCharsConcat(a: string, b: string)
    requires IsoChars(a) && IsoChars(b)
    ensures IsoChars(a + b)
  {
    forall i | 0 <= i < |a + b| ensures IsDigit((a + b)[i]) || (a + b)[i] == '-' || (a + b)[i] == '+' {
      if i >= |a| {
        assert (a + b)[i] == b[i - |a|];
      }
    }
  }

  /** The year part of `toISOString()`: four digits from 0 to 9999, otherwise a sign and six. */
  function IsoYear(year: int): string
  {
    var m: nat := if year < 0 then -year else year;
    var width := if 0 <= year <= 9999 then 4 else 6;
    var p := PadStart(NatToString(m), width, '0');
    if 0 <= year <= 9999 then p
    else (if year < 0 then "-" else "+") + p
  }

  lemma IsoYearShape(year: int)
    ensures IsoChars(IsoYear(year)) && |IsoYear(year)| >= 4
  {
    var m: nat := if year < 0 then -year else year;
    var width := if 0 <= year <= 9999 then 4 else 6;
    var p := PadStart(NatToString(m), width, '0');
    PaddedDigits(m, width);
    PadStartShape(NatToString(m), width, '0');
    assert IsoChars(p);
    if !(0 <= year <= 9999) {
      IsoCharsConcat(if year < 0 then "-" else "+", p);
    }
  }

  /** A number written with at least two digits, padded with `0`. */
  function TwoDigits(n: nat): string
  {
    PadStart(NatToString(n), 2, '0')
  }

  lemma TwoDigitsShape(n: nat)
    ensures |TwoDigits(n)| >= 2 && AllDigits(TwoDigits(n))
  {
    PaddedDigits(n, 2);
    PadStartShape(NatToString(n), 2, '0');
  }

  /** The day part of `toISOString()`: year, month and day joined by `-`. */
  function IsoDate(d: Date): string
  {
    IsoYear(d.year) + "-" + TwoDigits(d.month) + "-" + TwoDigits(d.day)
  }

  /** An ISO day is made of digits and signs, at least ten of them, and ends with a digit. */
  lemma IsoDateShape(d: Date)
    ensures var r := IsoDate(d);
            IsoChars(r) && |r| >= 10 && IsDigit(r[|r| - 1])
  {
    var y, m, dd := IsoYear(d.year), TwoDigits(d.month), TwoDigits(d.day);
    IsoYearShape(d.year);
    TwoDigitsShape(d.month);
    TwoDigitsShape(d.day);
    IsoCharsConcat(y, "-");
    IsoCharsConcat(y + "-", m);
    IsoCharsConcat(y + "-" + m, "-");
    IsoCharsConcat(y + "-" + m + "-", dd);
  }

  /** Reads a year written by `IsoYear` back. */
  function ReadIsoYear(t: string): int
  {
    if |t| >= 1 && (t[0] == '-' || t[0] == '+') && AllDigits(t[1..]) then
      if t[0] == '-' then -(DigitsValue(t[1..]) as int) else DigitsValue(t[1..])
    else if AllDigits(t) then DigitsValue(t)
    else 0
  }

  lemma ReadIsoYearOf(year: int)
    ensures ReadIsoYear(IsoYear(year)) == year
  {
    if 0 <= year <= 9999 {
      ReadPaddedYear(year, 4);
    } else {
      var m: nat := if year < 0 then -year else year;
      var sign := if year < 0 then '-' else '+';
      var p := PadStart(NatToString(m), 6, '0');
      assert IsoYear(year) == [sign] + p;
      ReadSignedYear(sign, m);
    }
  }

  lemma ReadPaddedYear(n: nat, width: nat)
    ensures ReadIsoYear(PadStart(NatToString(n), width, '0')) == n
  {
    var s := NatToString(n);
    var p := PadStart(s, width, '0');
    PaddedDigits(n, width);
    NatToStringDigits(n);
    PadStartShape(s, width, '0');
    assert |p| >= |s| >= 1;
    assert IsDigit(p[0]);
    assert p[0] != '-' && p[0] != '+';
  }

  lemma ReadSignedYear(sign: char, m: nat)
    requires sign == '-' || sign == '+'
    ensures ReadIsoYear([sign] + PadStart(NatToString(m), 6, '0'))
            == if sign == '-' then -(m as int) else m
  {
    var p := PadStart(NatToString(m), 6, '0');
    PaddedDigits(m, 6);
    assert ([sign] + p)[1..] == p;
  }

  lemma TwoDigitsOfSmall(n: nat)
    requires n <= 99
    ensures |TwoDigits(n)| == 2 && AllDigits(TwoDigits(n)) && DigitsValue(TwoDigits(n)) == n
  {
    NatToStringLength(n);
    PaddedDigits(n, 2);
    PadStartShape(NatToString(n), 2, '0');
  }

  /** Reads a day written by `IsoDate` back: the last two digits are the day, the two before
      the last `-` the month, and what precedes the second-to-last `-` the year. */
  function ReadIsoDate(t: string): (d: Date)
  {
    if |t| >= 6 && AllDigits(t[|t| - 2..]) && AllDigits(t[|t| - 5..|t| - 3]) then
      var month := DigitsValue(t[|t| - 5..|t| - 3]);
      var day := DigitsValue(t[|t| - 2..]);
      if 1 <= month <= 12 && 1 <= day <= 31 then Date(ReadIsoYear(t[..|t| - 6]), month, day)
      else Date(0, 1, 1)
    else Date(0, 1, 1)
  }

  /** Reading back an exported day gives the day again: the export loses no date. */
  lemma ReadIsoDateOf(d: Date)
    ensures ReadIsoDate(IsoDate(d)) == d
  {
    var r := IsoDate(d);
    var y, m, dd := IsoYear(d.year), TwoDigits(d.month), TwoDigits(d.day);
    TwoDigitsOfSmall(d.month);
    TwoDigitsOfSmall(d.day);
    ReadIsoYearOf(d.year);
    var n := |r|;
    assert r == y + "-" + m + "-" + dd;
    assert r[n - 2..] == dd;
    assert r[n - 5..n - 3] == m;
    assert r[..n - 6] == y;
  }
}
