/** The submit handlers of the tracker's forms, up to the store write they make: every field is
    checked first, and a submission that fails a check shows its message and writes nothing.
    Form fields are the texts of their inputs, so a field is blank when it is the empty text
    (`!field`). The goal table's progress column is here too. */
module Forms {
  import opened Optional
  import opened Numbers
  import opened Records

  /** The message a turned-away submission shows. */
  datatype Rejection =
    /** `Erro: Usuário não autenticado ...`: no database handle or no signed-in group. */
    | NotConnected
      /** `Por favor, preencha todos os campos.` (or the one-field variants). */
    | MissingFields
      /** `Valor inválido ...` / `Valores inválidos ...`. */
    | InvalidAmount

  /** How a submission ends before the store is called: turned away, or with the one write it
      asks the store for. */
  datatype Submission = Rejected(reason: Rejection) | Stored(write: Write)

  /** `parseFloat(text)` gives a number above 0. */
  predicate PositiveAmount(text: string)
  {
    ParseFloat(text).Some? && ParseFloat(text).value > 0.0
  }

  /** `parseFloat(text)` gives a number of at least 0. */
  predicate NonNegativeAmount(text: string)
  {
    ParseFloat(text).Some? && ParseFloat(text).value >= 0.0
  }

  /** `handleSubmit` of the income section (`kind` is `Income`) and of the expense section
      (`Expense`): all five fields must be filled and the amount must read as a positive
      number; the new document carries the amount read. */
  function SubmitTransaction(connected: bool, kind: Kind, description: string, amount: string,
                             category: string, date: string, transactionUser: string): (s: Submission)
    requires kind == Income || kind == Expense
    ensures s.Stored? <==>
              connected && description != "" && amount != "" && category != "" && date != ""
              && transactionUser != "" && PositiveAmount(amount)
    ensures s == Rejected(MissingFields) <==>
              connected && (description == "" || amount == "" || category == "" || date == ""
                            || transactionUser == "")
    ensures s.Stored? ==>
              s.write.AddRecord? && s.write.kind == kind && s.write.amount > 0.0
              && Some(s.write.amount) == ParseFloat(amount)
              && s.write.description == description && s.write.category == category
              && s.write.date == Some(date) && s.write.transactionUser == transactionUser
  {
    if !connected then Rejected(NotConnected)
    else if description == "" || amount == "" || category == "" || date == "" || transactionUser == "" then
      Rejected(MissingFields)
    else
      match ParseFloat(amount)
      case None => Rejected(InvalidAmount)
      case Some(parsedAmount) =>
        if parsedAmount <= 0.0 then Rejected(InvalidAmount)
        else Stored(AddRecord(kind, description, parsedAmount, category, Some(date), transactionUser))
  }

  /** `handleSubmit` of the category section: only the name is checked. */
  function SubmitCategory(connected: bool, name: string, appliesTo: string): (s: Submission)
    ensures s.Stored? <==> connected && name != ""
    ensures s.Stored? ==> s.write == AddCategory(name, appliesTo)
    ensures s.Rejected? ==> s.reason != InvalidAmount
  {
    if !connected then Rejected(NotConnected)
    else if name == "" then Rejected(MissingFields)
    else Stored(AddCategory(name, appliesTo))
  }

  /** `handleSubmit` of the user section: only the name is checked. */
  function SubmitUser(connected: bool, name: string): (s: Submission)
    ensures s.Stored? <==> connected && name != ""
    ensures s.Stored? ==> s.write == AddUser(name)
    ensures s.Rejected? ==> s.reason != InvalidAmount
  {
    if !connected then Rejected(NotConnected)
    else if name == "" then Rejected(MissingFields)
    else Stored(AddUser(name))
  }

  /** `handleSubmit` of the goal section: all four fields filled, a target that reads as a
      positive number and a current amount that reads as a number of at least 0. */
  function SubmitGoal(connected: bool, name: string, targetAmount: string, currentAmount: string,
                      dueDate: string): (s: Submission)
    ensures s.Stored? <==>
              connected && name != "" && targetAmount != "" && currentAmount != "" && dueDate != ""
              && PositiveAmount(targetAmount) && NonNegativeAmount(currentAmount)
    ensures s.Stored? ==>
              s.write.AddGoal? && s.write.name == name && s.write.dueDate == dueDate
              && Some(s.write.targetAmount) == ParseFloat(targetAmount) && s.write.targetAmount > 0.0
              && Some(s.write.currentAmount) == ParseFloat(currentAmount) && s.write.currentAmount >= 0.0
  {
    if !connected then Rejected(NotConnected)
    else if name == "" || targetAmount == "" || currentAmount == "" || dueDate == "" then Rejected(MissingFields)
    else
      var parsedTargetAmount, parsedCurrentAmount := ParseFloat(targetAmount), ParseFloat(currentAmount);
      if parsedTargetAmount.None? || parsedTargetAmount.value <= 0.0
         || parsedCurrentAmount.None? || parsedCurrentAmount.value < 0.0
      then Rejected(InvalidAmount)
      else Stored(AddGoal(name, parsedTargetAmount.value, parsedCurrentAmount.value, dueDate))
  }

  /** `handleSubmit` of the initial-balance section: the amount must be filled and read as a
      number, of either sign. */
  function SubmitInitialBalance(connected: bool, amount: string): (s: Submission)
    ensures s.Stored? <==> connected && amount != "" && ParseFloat(amount).Some?
    ensures s.Stored? ==> s.write == SetInitialBalance(ParseFloat(amount).value)
  {
    if !connected then Rejected(NotConnected)
    else if amount == "" then Rejected(MissingFields)
    else
      match ParseFloat(amount)
      case None => Rejected(InvalidAmount)
      case Some(parsedAmount) => Stored(SetInitialBalance(parsedAmount))
  }

  /** With every field filled, an income or expense whose amount reads as `x` is stored when
      `x` is above 0 and turned away as invalid otherwise. */
  lemma TransactionAmountRule(kind: Kind, description: string, amount: string, category: string,
                              date: string, transactionUser: string, x: real)
    requires kind == Income || kind == Expense
    requires description != "" && amount != "" && category != "" && date != "" && transactionUser != ""
    requires ParseFloat(amount) == Some(x)
    ensures SubmitTransaction(true, kind, description, amount, category, date, transactionUser)
            == if x > 0.0 then Stored(AddRecord(kind, description, x, category, Some(date), transactionUser))
               else Rejected(InvalidAmount)
  {
  }

  /** An amount of `0` on the income or expense form is turned away as invalid, so no store
      call is made. */
  lemma ZeroAmountRejected(kind: Kind, description: string, category: string, date: string,
                           transactionUser: string)
    requires kind == Income || kind == Expense
    requires description != "" && category != "" && date != "" && transactionUser != ""
    ensures SubmitTransaction(true, kind, description, "0", category, date, transactionUser) == Rejected(InvalidAmount)
  {
    ParseDigit("0", 0);
    TransactionAmountRule(kind, description, "0", category, date, transactionUser, 0.0);
  }

  /** An amount of `-5` on the income or expense form is turned away as invalid too. */
  lemma NegativeAmountRejected(kind: Kind, description: string, category: string, date: string,
                               transactionUser: string)
    requires kind == Income || kind == Expense
    requires description != "" && category != "" && date != "" && transactionUser != ""
    ensures SubmitTransaction(true, kind, description, "-5", category, date, transactionUser) == Rejected(InvalidAmount)
  {
    ParseMinusFive();
    TransactionAmountRule(kind, description, "-5", category, date, transactionUser, -5.0);
  }

  /** The initial balance has no sign check: `-5` is stored as it is, while a text that is no
      number is turned away. */
  lemma InitialBalanceAnySign()
    ensures SubmitInitialBalance(true, "-5") == Stored(SetInitialBalance(-5.0))
    ensures SubmitInitialBalance(true, "abc") == Rejected(InvalidAmount)
    ensures SubmitInitialBalance(true, "") == Rejected(MissingFields)
  {
    ParseMinusFive();
    ParseWord("abc");
  }

  /** With every field filled, a goal whose amounts read as `target` and `current` is stored
      when the target is above 0 and the current amount at least 0, and turned away as invalid
      otherwise. */
  lemma GoalAmountRule(name: string, targetAmount: string, currentAmount: string, dueDate: string,
                       target: real, current: real)
    requires name != "" && targetAmount != "" && currentAmount != "" && dueDate != ""
    requires ParseFloat(targetAmount) == Some(target) && ParseFloat(currentAmount) == Some(current)
    ensures SubmitGoal(true, name, targetAmount, currentAmount, dueDate)
            == if target > 0.0 && current >= 0.0 then Stored(AddGoal(name, target, current, dueDate))
               else Rejected(InvalidAmount)
  {
  }

  /** A goal whose current amount is still 0 is accepted. */
  lemma GoalStartingAtZero(name: string, dueDate: string)
    requires name != "" && dueDate != ""
    ensures SubmitGoal(true, name, "5", "0", dueDate) == Stored(AddGoal(name, 5.0, 0.0, dueDate))
  {
    ParseDigit("0", 0);
    ParseDigit("5", 5);
    GoalAmountRule(name, "5", "0", dueDate, 5.0, 0.0);
  }

  /** A goal with a target of 0 is turned away as invalid. */
  lemma GoalZeroTarget(name: string, dueDate: string)
    requires name != "" && dueDate != ""
    ensures SubmitGoal(true, name, "0", "0", dueDate) == Rejected(InvalidAmount)
  {
    ParseDigit("0", 0);
    GoalAmountRule(name, "0", "0", dueDate, 0.0, 0.0);
  }

  /** A goal with a current amount of `-5` is turned away as invalid. */
  lemma GoalNegativeCurrent(name: string, dueDate: string)
    requires name != "" && dueDate != ""
    ensures SubmitGoal(true, name, "5", "-5", dueDate) == Rejected(InvalidAmount)
  {
    ParseDigit("5", 5);
    ParseMinusFive();
    GoalAmountRule(name, "5", "-5", dueDate, 5.0, -5.0);
  }

  // ---------------------------------------------------------------------------------------
  // Goal progress

  /** A JavaScript number, as far as a quotient of two amounts needs one. */
  datatype JsNumber = Finite(value: real) | Infinite(negative: bool) | NaN

  /** `(goal.currentAmount / goal.targetAmount) * 100`: a division by a zero target gives
      `NaN` for a zero current amount and an infinity of the current amount's sign
      otherwise. */
  function Progress(currentAmount: real, targetAmount: real): JsNumber
  {
    if targetAmount != 0.0 then Finite(currentAmount / targetAmount * 100.0)
    else if currentAmount == 0.0 then NaN
    else Infinite(currentAmount < 0.0)
  }

  /** `Math.min(100, progress)`: the width of the progress bar, in percent. */
  function BarWidth(progress: JsNumber): JsNumber
  {
    match progress
    case Finite(p) => Finite(if p < 100.0 then p else 100.0)
    case Infinite(negative) => if negative then Infinite(true) else Finite(100.0)
    case NaN => NaN
  }

  /** For a goal the form accepts (target above 0, current amount at least 0) the progress is a
      number of at least 0 that reaches 100 exactly when the goal is met, and the bar is that
      number capped at 100. */
  lemma GoalProgressBounds(currentAmount: real, targetAmount: real)
    requires targetAmount > 0.0 && currentAmount >= 0.0
    ensures Progress(currentAmount, targetAmount).Finite?
    ensures var p := Progress(currentAmount, targetAmount).value;
            p >= 0.0 && (p >= 100.0 <==> currentAmount >= targetAmount)
    ensures var w := BarWidth(Progress(currentAmount, targetAmount));
            w.Finite? && 0.0 <= w.value <= 100.0
            && (w.value == 100.0 <==> currentAmount >= targetAmount)
            && (currentAmount < targetAmount ==> w.value == Progress(currentAmount, targetAmount).value)
  {
    var q := currentAmount / targetAmount;
    assert q * targetAmount == currentAmount;
    assert q >= 1.0 <==> currentAmount >= targetAmount by {
      if q >= 1.0 {
        assert q * targetAmount >= 1.0 * targetAmount;
      }
      if currentAmount >= targetAmount {
        assert q * targetAmount >= targetAmount;
      }
    }
  }

  /** The bar is capped at 100 but not floored at 0: a goal stored with a negative current
      amount draws a negative width. */
  lemma BarWidthNotFloored()
    ensures BarWidth(Progress(-1.0, 4.0)) == Finite(-25.0)
  {
  }
}
