/**
 Synthetic bank transactions: one running-balance ledger per resident.

 Random draws, the calendar and the seasonal shape of expenses are arbitrary inputs; amounts are real
 numbers. Day offsets count from the start of a 180-day window.
 */
module Banking {
  import opened Apportionment

  datatype Kind = Salary | TransferIn | TransferOut | CardPayment | CashWithdrawal

  /** `amount` is signed: positive for credits. */
  datatype Transaction = Transaction(day: int, kind: Kind, amount: real, before: real, after: real)

  datatype Profile = Profile(monthlyIncome: real, activityScore: real, initialBalance: real)

  /** What is drawn for one transaction, before any clamping. */
  datatype Draw = Draw(day: int, expense: real, salary: real, transferIn: real)

  type ExpenseKind = kind: Kind | kind in {TransferOut, CardPayment, CashWithdrawal} witness CardPayment

  /** What a day offset means: its month, its day of the month, and the expense made on it. */
  datatype Calendar = Calendar(month: int -> int, dayOfMonth: int -> int, expenseKind: int -> ExpenseKind)

  function Max(a: real, b: real): real {
    if a < b then b else a
  }

  function Min(a: real, b: real): real {
    if b < a then b else a
  }

  function Clamp(x: real, low: real, high: real): real {
    Min(Max(x, low), high)
  }

  /** JavaScript's `Math.round`. */
  function Round(x: real): int {
    (x + 0.5).Floor
  }

  function RoundedProduct(a: real, b: real): int {
    Round(a * b)
  }

  // ----- profiles -----

  function CityIncomeMultiplier(city: string): real {
    if city == "Ho Chi Minh" then 1.25
    else if city == "Ha Noi" then 1.2
    else if city == "Hai Phong" then 0.95
    else 1.0
  }

  /** `incomeDraw` and `activityDraw` stand for the scaled Gaussian draws. */
  function BuildProfile(city: string, incomeDraw: real, activityDraw: real): Profile {
    var incomeNoise := Clamp(incomeDraw, -0.35, 0.5);
    var activityNoise := Clamp(activityDraw, 0.0, 1.4);
    var monthlyIncome := RoundedProduct(9_500_000.0 + 18_000_000.0 * (0.55 + incomeNoise), CityIncomeMultiplier(city));
    var initialBalance := Max(2_000_000.0, RoundedProduct(monthlyIncome as real, 1.1 + activityNoise) as real);
    Profile(monthlyIncome as real, 0.75 + activityNoise, initialBalance)
  }

  lemma RoundAtLeast(x: real, n: int)
    requires x >= n as real
    ensures Round(x) >= n
  {
  }

  lemma IncomeBound(base: real, multiplier: real)
    requires base >= 13_100_000.0 && multiplier >= 0.95
    ensures RoundedProduct(base, multiplier) >= 12_445_000
  {
    Grows(base, 13_100_000.0, multiplier, 0.95);
    RoundAtLeast(base * multiplier, 12_445_000);
  }

  lemma BalanceBound(income: int, factor: real)
    requires income > 0 && factor >= 1.1
    ensures RoundedProduct(income as real, factor) >= income
  {
    Grows(factor, 1.0, income as real, income as real);
    RoundAtLeast(income as real * factor, income);
  }

  lemma DrawBounds(city: string, incomeDraw: real)
    ensures 9_500_000.0 + 18_000_000.0 * (0.55 + Clamp(incomeDraw, -0.35, 0.5)) >= 13_100_000.0
    ensures CityIncomeMultiplier(city) >= 0.95
  {
  }

  /** Every built profile has a positive score and an income, and opens with at least one month's income. */
  lemma ProfileBounds(city: string, incomeDraw: real, activityDraw: real)
    ensures var p := BuildProfile(city, incomeDraw, activityDraw);
      && p.monthlyIncome >= 12_445_000.0
      && 0.75 <= p.activityScore <= 2.15
      && p.initialBalance >= p.monthlyIncome
  {
    var noise, multiplier := Clamp(activityDraw, 0.0, 1.4), CityIncomeMultiplier(city);
    var base := 9_500_000.0 + 18_000_000.0 * (0.55 + Clamp(incomeDraw, -0.35, 0.5));
    DrawBounds(city, incomeDraw);
    IncomeBound(base, multiplier);
    BalanceBound(RoundedProduct(base, multiplier), 1.1 + noise);
  }

  /** A whole number nearest to an amount. */
  predicate IsNearest(n: real, x: real) {
    n - 0.5 <= x <= n + 0.5
  }

  predicate HasMultiplier(city: string, multiplier: real) {
    && (city == "Ho Chi Minh" ==> multiplier == 1.25) && (city == "Ha Noi" ==> multiplier == 1.2)
    && (city == "Hai Phong" ==> multiplier == 0.95)
    && (city != "Ho Chi Minh" && city != "Ha Noi" && city != "Hai Phong" ==> multiplier == 1.0)
  }

  /** The income is the drawn base times the city's multiplier, rounded; the score is the activity and 0.75. */
  lemma IncomeByDraws(city: string, income: real, activity: real, multiplier: real, base: real)
    requires -0.35 <= income <= 0.5 && 0.0 <= activity <= 1.4 && HasMultiplier(city, multiplier)
    requires base == 9_500_000.0 + 18_000_000.0 * (0.55 + income)
    ensures var p := BuildProfile(city, income, activity);
      IsNearest(p.monthlyIncome, base * multiplier) && p.activityScore == 0.75 + activity
  {
    var monthly := BuiltAs(city, income, activity, multiplier, base);
    ProductIsNearest(base, multiplier);
  }

  /** The opening balance is the income times 1.1 and the activity, rounded. */
  lemma BalanceByDraws(city: string, income: real, activity: real, multiplier: real, base: real)
    requires -0.35 <= income <= 0.5 && 0.0 <= activity <= 1.4 && HasMultiplier(city, multiplier)
    requires base == 9_500_000.0 + 18_000_000.0 * (0.55 + income)
    ensures var p := BuildProfile(city, income, activity);
      IsNearest(p.initialBalance, p.monthlyIncome * (1.1 + activity))
  {
    var monthly := BuiltAs(city, income, activity, multiplier, base);
    ProductIsNearest(monthly as real, 1.1 + activity);
  }

  lemma BuiltAs(city: string, income: real, activity: real, multiplier: real, base: real) returns (monthly: int)
    requires -0.35 <= income <= 0.5 && 0.0 <= activity <= 1.4 && HasMultiplier(city, multiplier)
    requires base == 9_500_000.0 + 18_000_000.0 * (0.55 + income)
    ensures monthly == RoundedProduct(base, multiplier)
    ensures BuildProfile(city, income, activity)
      == Profile(monthly as real, 0.75 + activity, RoundedProduct(monthly as real, 1.1 + activity) as real)
  {
    monthly := RoundedProduct(base, multiplier);
    IncomeBound(base, multiplier);
    BalanceBound(monthly, 1.1 + activity);
    BuiltOf(city, income, activity, multiplier, base, monthly);
  }

  lemma BuiltOf(city: string, income: real, activity: real, multiplier: real, base: real, monthly: int)
    requires -0.35 <= income <= 0.5 && 0.0 <= activity <= 1.4 && HasMultiplier(city, multiplier)
    requires base == 9_500_000.0 + 18_000_000.0 * (0.55 + income) && monthly == RoundedProduct(base, multiplier)
    requires monthly >= 12_445_000 && RoundedProduct(monthly as real, 1.1 + activity) >= monthly
    ensures BuildProfile(city, income, activity)
      == Profile(monthly as real, 0.75 + activity, RoundedProduct(monthly as real, 1.1 + activity) as real)
  {
    assert CityIncomeMultiplier(city) == multiplier;
    assert Clamp(income, -0.35, 0.5) == income && Clamp(activity, 0.0, 1.4) == activity;
  }

  lemma ProductIsNearest(a: real, b: real)
    ensures IsNearest(RoundedProduct(a, b) as real, a * b)
  {
    RoundIsNearest(a * b);
  }

  lemma RoundIsNearest(x: real)
    ensures IsNearest(Round(x) as real, x)
  {
  }

  /** Draws outside their range count as the end of it that they are nearer to. */
  lemma DrawsAreClamped(city: string, income: real, activity: real)
    ensures income > 0.5 ==> BuildProfile(city, income, activity) == BuildProfile(city, 0.5, activity)
    ensures income < -0.35 ==> BuildProfile(city, income, activity) == BuildProfile(city, -0.35, activity)
    ensures activity > 1.4 ==> BuildProfile(city, income, activity) == BuildProfile(city, income, 1.4)
    ensures activity < 0.0 ==> BuildProfile(city, income, activity) == BuildProfile(city, income, 0.0)
  {
  }

  lemma Grows(a: real, a0: real, b: real, b0: real)
    requires a >= a0 > 0.0 && b >= b0 > 0.0
    ensures a * b >= a0 * b0
    ensures a * b >= a0 * b
  {
    assert a * b - a0 * b == (a - a0) * b;
    assert a0 * b - a0 * b0 == a0 * (b - b0);
  }

  // ----- one transaction -----

  function ExpenseFloor(kind: Kind): real {
    match kind
    case CashWithdrawal => 120_000.0
    case TransferOut => 180_000.0
    case CardPayment => 45_000.0
    case _ => 50_000.0
  }

  predicate InSalaryWindow(cal: Calendar, day: int) {
    25 <= cal.dayOfMonth(day) <= 28
  }

  function DayOf(draw: Draw, previousDay: int): int {
    var raw := if draw.day < 0 then 0 else if draw.day > 179 then 179 else draw.day;
    if previousDay < raw then raw else previousDay
  }

  /** The next ledger entry, from the balance, the previous day, and whether this month's salary is paid. */
  function NextTransaction(p: Profile, cal: Calendar, draw: Draw, balance: real, day: int, paid: bool): Transaction {
    var expense := -Max(ExpenseFloor(cal.expenseKind(day)), draw.expense);
    var entry :=
      if InSalaryWindow(cal, day) && !paid then (Salary, Max(5_000_000.0, draw.salary))
      else if balance + expense < p.monthlyIncome * 0.15 then (TransferIn, Max(250_000.0, draw.transferIn))
      else (cal.expenseKind(day), expense);
    Transaction(day, entry.0, entry.1, balance, Max(0.0, balance + entry.1))
  }

  function BalanceBefore(p: Profile, txs: seq<Transaction>, i: nat): real
    requires i <= |txs|
  {
    if i == 0 then p.initialBalance else txs[i - 1].after
  }

  function DayBefore(txs: seq<Transaction>, i: nat): int
    requires i <= |txs|
  {
    if i == 0 then 0 else txs[i - 1].day
  }

  /** Among the first `i` entries there is a salary of the month. */
  predicate SalaryPaid(cal: Calendar, txs: seq<Transaction>, i: nat, month: int)
    requires i <= |txs|
  {
    exists j :: 0 <= j < i && txs[j].kind == Salary && cal.month(txs[j].day) == month
  }

  /** Entry `i` of the ledger is the one its predecessors determine. */
  predicate EntryFollows(p: Profile, cal: Calendar, draw: nat -> Draw, txs: seq<Transaction>, i: nat)
    requires i < |txs|
  {
    var day := DayOf(draw(i), DayBefore(txs, i));
    txs[i] == NextTransaction(p, cal, draw(i), BalanceBefore(p, txs, i), day, SalaryPaid(cal, txs, i, cal.month(day)))
  }

  predicate IsLedger(p: Profile, cal: Calendar, draw: nat -> Draw, txs: seq<Transaction>) {
    forall i :: 0 <= i < |txs| ==> EntryFollows(p, cal, draw, txs, i)
  }

  lemma LedgerExtends(p: Profile, cal: Calendar, draw: nat -> Draw, txs: seq<Transaction>, t: Transaction)
    requires IsLedger(p, cal, draw, txs)
    requires var day := DayOf(draw(|txs|), DayBefore(txs, |txs|));
      var paid := SalaryPaid(cal, txs, |txs|, cal.month(day));
      t == NextTransaction(p, cal, draw(|txs|), BalanceBefore(p, txs, |txs|), day, paid)
    ensures IsLedger(p, cal, draw, txs + [t])
  {
    var txs' := txs + [t];
    forall i | 0 <= i < |txs'|
      ensures EntryFollows(p, cal, draw, txs', i)
    {
      forall month
        ensures SalaryPaid(cal, txs', i, month) <==> SalaryPaid(cal, txs, i, month)
      {
        assert forall j :: 0 <= j < i ==> txs'[j] == txs[j];
      }
      if i < |txs| {
        assert EntryFollows(p, cal, draw, txs, i);
      }
    }
  }

  lemma PaidMonthsExtend(cal: Calendar, txs: seq<Transaction>, t: Transaction)
    ensures forall month ::
      SalaryPaid(cal, txs + [t], |txs| + 1, month) <==>
      SalaryPaid(cal, txs, |txs|, month) || (t.kind == Salary && cal.month(t.day) == month)
  {
    var txs' := txs + [t];
    forall month
      ensures SalaryPaid(cal, txs', |txs| + 1, month) <==>
        SalaryPaid(cal, txs, |txs|, month) || (t.kind == Salary && cal.month(t.day) == month)
    {
      assert txs'[|txs|] == t;
      assert forall j :: 0 <= j < |txs| ==> txs'[j] == txs[j];
    }
  }

  method GenerateTransactionsForProfile(p: Profile, cal: Calendar, count: int, draw: nat -> Draw)
    returns (txs: seq<Transaction>)
    ensures |txs| == if count > 0 then count else 0
    ensures IsLedger(p, cal, draw, txs)
  {
    txs := [];
    var runningBalance, previousDay := p.initialBalance, 0;
    var salaryMonths: set<int> := {};
    var index := 0;
    while index < count
      invariant index == |txs| && (count > 0 ==> index <= count) && (count <= 0 ==> index == 0)
      invariant runningBalance == BalanceBefore(p, txs, |txs|) && previousDay == DayBefore(txs, |txs|)
      invariant forall month :: month in salaryMonths <==> SalaryPaid(cal, txs, |txs|, month)
      invariant IsLedger(p, cal, draw, txs)
    {
      var d := draw(index);
      var raw := if d.day < 0 then 0 else if d.day > 179 then 179 else d.day;
      var day := if previousDay < raw then raw else previousDay;
      previousDay := day;
      ghost var paid := cal.month(day) in salaryMonths;
      var shouldPaySalary := 25 <= cal.dayOfMonth(day) <= 28 && cal.month(day) !in salaryMonths;
      var kind, signedAmount;
      if shouldPaySalary {
        kind := Salary;
        signedAmount := Max(5_000_000.0, d.salary);
        salaryMonths := salaryMonths + {cal.month(day)};
      } else {
        kind := cal.expenseKind(day);
        signedAmount := -Max(ExpenseFloor(kind), d.expense);
        if runningBalance + signedAmount < p.monthlyIncome * 0.15 {
          kind := TransferIn;
          signedAmount := Max(250_000.0, d.transferIn);
        }
      }
      var balanceBefore := runningBalance;
      runningBalance := Max(0.0, runningBalance + signedAmount);
      var t := Transaction(day, kind, signedAmount, balanceBefore, runningBalance);
      assert t == NextTransaction(p, cal, d, balanceBefore, day, paid);
      LedgerExtends(p, cal, draw, txs, t);
      PaidMonthsExtend(cal, txs, t);
      txs := txs + [t];
      index := index + 1;
    }
  }

  // ----- what every ledger keeps -----

  /** The larger of a floor and what was drawn. */
  predicate IsLarger(x: real, floor: real, drawn: real) {
    x >= floor && x >= drawn && (x == floor || x == drawn)
  }

  /** What an expense of a kind costs at least. */
  predicate Costs(kind: Kind, drawn: real, cost: real) {
    match kind
    case CashWithdrawal => IsLarger(cost, 120_000.0, drawn)
    case TransferOut => IsLarger(cost, 180_000.0, drawn)
    case CardPayment => IsLarger(cost, 45_000.0, drawn)
    case _ => IsLarger(cost, 50_000.0, drawn)
  }

  /** Whether the month of a day has had its salary among the first `i` entries. */
  predicate HadSalary(cal: Calendar, txs: seq<Transaction>, i: nat, day: int)
    requires i <= |txs|
  {
    exists k :: 0 <= k < i && txs[k].kind == Salary && cal.month(txs[k].day) == cal.month(day)
  }

  /**
   Every entry of a ledger, by cases. It is the salary exactly on the 25th to 28th of a month that has had none. Any
   other day its expense is drawn: it is made exactly if it leaves 15% of the income, and else money comes in.
   */
  lemma EntryByCases(p: Profile, cal: Calendar, draw: nat -> Draw, txs: seq<Transaction>, i: nat, cost: real)
    requires IsLedger(p, cal, draw, txs) && i < |txs| && Costs(cal.expenseKind(txs[i].day), draw(i).expense, cost)
    ensures var t, balance := txs[i], if i == 0 then p.initialBalance else txs[i - 1].after;
      var salaryDue := 25 <= cal.dayOfMonth(t.day) <= 28 && !HadSalary(cal, txs, i, t.day);
      && t.before == balance
      && (t.kind == Salary <==> salaryDue)
      && (t.kind == Salary ==> IsLarger(t.amount, 5_000_000.0, draw(i).salary))
      && (t.kind == TransferIn <==> !salaryDue && balance - cost < p.monthlyIncome * 0.15)
      && (t.kind == TransferIn ==> IsLarger(t.amount, 250_000.0, draw(i).transferIn))
      && (t.kind != Salary && t.kind != TransferIn ==> t.kind == cal.expenseKind(t.day) && t.amount == -cost)
  {
    assert EntryFollows(p, cal, draw, txs, i);
    assert SalaryPaid(cal, txs, i, cal.month(txs[i].day)) <==> HadSalary(cal, txs, i, txs[i].day);
  }

  /** An entry's day is the drawn one, kept within the window, or the previous entry's if that is later. */
  lemma DayByCases(p: Profile, cal: Calendar, draw: nat -> Draw, txs: seq<Transaction>, i: nat)
    requires IsLedger(p, cal, draw, txs) && i < |txs|
    ensures var day, previous, drawn := txs[i].day, if i == 0 then 0 else txs[i - 1].day, draw(i).day;
      && (drawn <= previous ==> day == previous)
      && (previous < drawn <= 179 ==> day == drawn)
      && (previous < drawn && drawn > 179 ==> day == 179)
  {
    DaysAdvance(p, cal, draw, txs, i, i);
    if i > 0 {
      DaysAdvance(p, cal, draw, txs, i - 1, i);
    }
    assert EntryFollows(p, cal, draw, txs, i);
  }

  function SumAmounts(txs: seq<Transaction>, n: nat): real
    requires n <= |txs|
  {
    if n == 0 then 0.0 else SumAmounts(txs, n - 1) + txs[n - 1].amount
  }

  predicate Solvent(p: Profile) {
    p.initialBalance >= 0.0 && p.monthlyIncome >= 0.0
  }

  /** The clamp at zero never fires, and an entry leaves at least the smaller of its balance and 15% of the income. */
  lemma EntryIsConserving(p: Profile, cal: Calendar, draw: Draw, balance: real, day: int, paid: bool)
    requires Solvent(p) && balance >= 0.0
    ensures var t := NextTransaction(p, cal, draw, balance, day, paid);
      t.after == t.before + t.amount && t.after >= Min(balance, p.monthlyIncome * 0.15) && t.amount != 0.0
  {
  }

  /**
   Conservation: after any number of entries the balance is the opening balance plus the signed amounts,
   and it has never been below both the opening balance and 15% of the income.
   */
  lemma {:induction false} LedgerConserves(p: Profile, cal: Calendar, draw: nat -> Draw, txs: seq<Transaction>, n: nat)
    requires Solvent(p) && IsLedger(p, cal, draw, txs) && n <= |txs|
    ensures BalanceBefore(p, txs, n) == p.initialBalance + SumAmounts(txs, n)
    ensures BalanceBefore(p, txs, n) >= Min(p.initialBalance, p.monthlyIncome * 0.15) >= 0.0
    ensures n > 0 ==> txs[n - 1].after == txs[n - 1].before + txs[n - 1].amount
  {
    if n > 0 {
      LedgerConserves(p, cal, draw, txs, n - 1);
      assert EntryFollows(p, cal, draw, txs, n - 1);
      var day := DayOf(draw(n - 1), DayBefore(txs, n - 1));
      var paid := SalaryPaid(cal, txs, n - 1, cal.month(day));
      EntryIsConserving(p, cal, draw(n - 1), BalanceBefore(p, txs, n - 1), day, paid);
    }
  }

  /** A generated profile keeps at least 15% of its monthly income at all times. */
  lemma BuiltProfileKeepsReserve(
    city: string, incomeDraw: real, activityDraw: real, cal: Calendar, draw: nat -> Draw, txs: seq<Transaction>, n: nat)
    requires var p := BuildProfile(city, incomeDraw, activityDraw); IsLedger(p, cal, draw, txs)
    requires n <= |txs|
    ensures var p := BuildProfile(city, incomeDraw, activityDraw);
      BalanceBefore(p, txs, n) >= p.monthlyIncome * 0.15
  {
    ProfileBounds(city, incomeDraw, activityDraw);
    LedgerConserves(BuildProfile(city, incomeDraw, activityDraw), cal, draw, txs, n);
  }

  /** Days stay in the window and never go back. */
  lemma {:induction false} DaysAdvance(
    p: Profile, cal: Calendar, draw: nat -> Draw, txs: seq<Transaction>, i: nat, j: nat)
    requires IsLedger(p, cal, draw, txs) && i <= j < |txs|
    ensures 0 <= txs[i].day <= txs[j].day <= 179
    decreases j
  {
    assert EntryFollows(p, cal, draw, txs, j);
    if i < j {
      DaysAdvance(p, cal, draw, txs, i, j - 1);
    } else if j > 0 {
      DaysAdvance(p, cal, draw, txs, j - 1, j - 1);
    }
  }

  /** No month has two salaries. */
  lemma OneSalaryPerMonth(p: Profile, cal: Calendar, draw: nat -> Draw, txs: seq<Transaction>, i: nat, j: nat)
    requires IsLedger(p, cal, draw, txs) && i < j < |txs|
    requires txs[i].kind == Salary && txs[j].kind == Salary
    ensures cal.month(txs[i].day) != cal.month(txs[j].day)
  {
    assert EntryFollows(p, cal, draw, txs, j);
    assert !SalaryPaid(cal, txs, j, cal.month(txs[j].day));
  }

  predicate HasSalary(cal: Calendar, txs: seq<Transaction>, month: int) {
    exists i :: 0 <= i < |txs| && txs[i].kind == Salary && cal.month(txs[i].day) == month
  }

  predicate HasEntryInWindow(cal: Calendar, txs: seq<Transaction>, month: int) {
    exists i :: 0 <= i < |txs| && InSalaryWindow(cal, txs[i].day) && cal.month(txs[i].day) == month
  }

  /** A month has its salary exactly if some entry of the month falls on its salary days. */
  lemma SalaryIffEntryInWindow(p: Profile, cal: Calendar, draw: nat -> Draw, txs: seq<Transaction>, month: int)
    requires IsLedger(p, cal, draw, txs)
    ensures HasSalary(cal, txs, month) <==> HasEntryInWindow(cal, txs, month)
  {
    if i :| 0 <= i < |txs| && txs[i].kind == Salary && cal.month(txs[i].day) == month {
      assert EntryFollows(p, cal, draw, txs, i);
      assert InSalaryWindow(cal, txs[i].day);
    }
    if i :| 0 <= i < |txs| && InSalaryWindow(cal, txs[i].day) && cal.month(txs[i].day) == month {
      assert EntryFollows(p, cal, draw, txs, i);
      assert txs[i].kind == Salary || SalaryPaid(cal, txs, i, month);
    }
  }

  // ----- all profiles -----

  function Scores(profiles: seq<Profile>): seq<real> {
    seq(|profiles|, i requires 0 <= i < |profiles| => profiles[i].activityScore)
  }

  function NonNegative(n: int): nat {
    if n > 0 then n else 0
  }

  function Rows(counts: seq<int>, n: nat): nat
    requires n <= |counts|
  {
    if n == 0 then 0 else Rows(counts, n - 1) + NonNegative(counts[n - 1])
  }

  /** A profile's own ledger, of the length allotted to it. */
  predicate LedgerOf(p: Profile, cal: Calendar, draw: nat -> Draw, count: int, txs: seq<Transaction>) {
    |txs| == count && IsLedger(p, cal, draw, txs)
  }

  /** The first `n` ledgers, one after the other. */
  function Joined(ledgers: seq<seq<Transaction>>, n: nat): seq<Transaction>
    requires n <= |ledgers|
  {
    if n == 0 then [] else Joined(ledgers, n - 1) + ledgers[n - 1]
  }

  lemma {:induction false} JoinedPrefix(ledgers: seq<seq<Transaction>>, last: seq<Transaction>, n: nat)
    requires n <= |ledgers|
    ensures Joined(ledgers + [last], n) == Joined(ledgers, n)
  {
    if n > 0 {
      JoinedPrefix(ledgers, last, n - 1);
    }
  }

  /**
   All ledgers, one after the other: for every profile, in order, a ledger as long as its count. Exactly `count` rows
   come out whenever there is a resident, or none was asked for; without residents every row is lost.
   */
  method GenerateBankingTransactions(profiles: seq<Profile>, cal: Calendar, count: nat, draw: nat -> nat -> Draw)
    returns (txs: seq<Transaction>, ghost counts: seq<int>, ghost ledgers: seq<seq<Transaction>>)
    requires Positive(Scores(profiles))
    ensures |txs| == count <==> profiles != [] || count == 0
    ensures profiles == [] ==> txs == []
    ensures profiles != [] ==> Fair(Shares(Scores(profiles), count), count, counts)
    ensures |ledgers| == |profiles| && txs == Joined(ledgers, |ledgers|)
    ensures profiles != [] ==> |counts| == |profiles|
    ensures forall i :: 0 <= i < |profiles| ==> LedgerOf(profiles[i], cal, draw(i), counts[i], ledgers[i])
  {
    var shareCounts := AllocateCounts(Scores(profiles), count);
    counts := shareCounts;
    if profiles != [] {
      CountsAreNonNegative(Scores(profiles), count, counts);
      RowsAreTotal(counts, |counts|);
    }
    txs, ledgers := [], [];
    for index := 0 to |profiles|
      invariant |profiles| == |counts| && |profiles| > 0 ==> |txs| == Rows(counts, index)
      invariant profiles == [] ==> txs == []
      invariant |ledgers| == index && txs == Joined(ledgers, index)
      invariant forall i :: 0 <= i < index ==> LedgerOf(profiles[i], cal, draw(i), counts[i], ledgers[i])
    {
      var more := GenerateTransactionsForProfile(profiles[index], cal, shareCounts[index], draw(index));
      JoinedPrefix(ledgers, more, index);
      txs := txs + more;
      ledgers := ledgers + [more];
    }
  }

  lemma CountsAreNonNegative(scores: seq<real>, count: nat, counts: seq<int>)
    requires Positive(scores) && scores != [] && Fair(Shares(scores, count), count, counts)
    ensures forall i :: 0 <= i < |counts| ==> counts[i] >= 0
  {
    var rate := SharesAreScaled(scores, count);
    var shares := Shares(scores, count);
    forall i | 0 <= i < |counts|
      ensures counts[i] >= 0
    {
      assert shares[i] == rate * scores[i] >= 0.0;
      assert shares[i].Floor >= 0;
    }
  }

  lemma {:induction false} RowsAreTotal(counts: seq<int>, n: nat)
    requires n <= |counts| && forall i :: 0 <= i < |counts| ==> counts[i] >= 0
    ensures Rows(counts, n) == Total(counts, n)
  {
    if n > 0 {
      RowsAreTotal(counts, n - 1);
    }
  }
}
