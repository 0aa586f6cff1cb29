/** The aggregations main.py computes over a listing of operations: the totals shown with
    every listing and in the reports, the per-category sums and the monthly statistics. The
    listing is the joined rows `get_all_operations` returns. */
module Reports {
  import opened Common
  import opened Ledger
  import opened Dates
  import opened Operations

  // ---------------------------------------------------------------------------
  // Sums over the listing
  // ---------------------------------------------------------------------------

  /** `sum(w(op) for op in operations)`, accumulated in listing order. */
  function OpsSum(ops: seq<OperationView>, w: OperationView -> real): real {
    if |ops| == 0 then 0.0 else OpsSum(ops[..|ops| - 1], w) + w(ops[|ops| - 1])
  }

  /** The amount of an operation of type `k`, zero for the other type. */
  function KindAmount(k: Kind): OperationView -> real {
    (v: OperationView) => if v.op.kind == k then v.op.amount else 0.0
  }

  /** The amount of an operation of type `k` listed under category `name`. */
  function CategoryAmount(k: Kind, name: string): OperationView -> real {
    (v: OperationView) => if v.op.kind == k && v.categoryName == name then v.op.amount else 0.0
  }

  /** `sum(op['amount'] for op in operations if op['type'] == k)`. */
  function KindTotal(ops: seq<OperationView>, k: Kind): real {
    OpsSum(ops, KindAmount(k))
  }

  /** `sum(1 for op in operations if op['type'] == k)`. */
  function KindCount(ops: seq<OperationView>, k: Kind): nat {
    if |ops| == 0 then 0 else KindCount(ops[..|ops| - 1], k) + (if ops[|ops| - 1].op.kind == k then 1 else 0)
  }

  /** Every listed operation is counted under exactly one of the two types. */
  lemma {:induction false} KindCountsPartition(ops: seq<OperationView>)
    ensures KindCount(ops, Income) + KindCount(ops, Expense) == |ops|
  {
    if |ops| > 0 {
      KindCountsPartition(ops[..|ops| - 1]);
    }
  }

  /** The "general statistics" table of `show_reports` and the statistics printed with a
      filtered listing. */
  datatype Summary = Summary(count: nat, incomeCount: nat, expenseCount: nat, income: real, expense: real, balance: real)

  function Summarize(ops: seq<OperationView>): (r: Summary)
    ensures r.count == |ops| == r.incomeCount + r.expenseCount
    ensures r.income == KindTotal(ops, Income) && r.expense == KindTotal(ops, Expense)
    ensures r.balance == r.income - r.expense
  {
    KindCountsPartition(ops);
    var income := KindTotal(ops, Income);
    var expense := KindTotal(ops, Expense);
    Summary(|ops|, KindCount(ops, Income), KindCount(ops, Expense), income, expense, income - expense)
  }

  /** The balance is what the listed operations add up to when expenses count negatively. */
  lemma {:induction false} BalanceIsSignedSum(ops: seq<OperationView>)
    ensures Summarize(ops).balance == OpsSum(ops, (v: OperationView) => if v.op.kind == Income then v.op.amount else -v.op.amount)
  {
    if |ops| > 0 {
      BalanceIsSignedSum(ops[..|ops| - 1]);
    }
  }

  // ---------------------------------------------------------------------------
  // Order-preserving dictionaries
  // ---------------------------------------------------------------------------

  /** Sum of `f` over a sequence, front to back. */
  function SumOf<T>(ts: seq<T>, f: T -> real): real {
    if |ts| == 0 then 0.0 else f(ts[0]) + SumOf(ts[1..], f)
  }

  lemma {:induction false} SumOfConcat<T>(a: seq<T>, b: seq<T>, f: T -> real)
    ensures SumOf(a + b, f) == SumOf(a, f) + SumOf(b, f)
  {
    if |a| == 0 {
      assert a + b == b;
    } else {
      assert (a + b)[0] == a[0];
      assert (a + b)[1..] == a[1..] + b;
      SumOfConcat(a[1..], b, f);
    }
  }

  /** A sum does not depend on the order of its terms. */
  lemma {:induction false} SumOfPermutation<T>(a: seq<T>, b: seq<T>, f: T -> real)
    requires multiset(a) == multiset(b)
    ensures SumOf(a, f) == SumOf(b, f)
    decreases |a|
  {
    if |a| == 0 {
      assert |b| == |multiset(b)| == 0;
    } else {
      assert a[0] in multiset(b);
      var i :| 0 <= i < |b| && b[i] == a[0];
      var rest := b[..i] + b[i + 1..];
      var tail := [b[i]] + b[i + 1..];
      assert b == b[..i] + tail;
      assert a == [a[0]] + a[1..];
      assert multiset(b) == multiset(b[..i]) + multiset{b[i]} + multiset(b[i + 1..]) by {
        assert multiset(b) == multiset(b[..i]) + multiset(tail);
      }
      assert multiset(a) == multiset{a[0]} + multiset(a[1..]);
      assert multiset(rest) == multiset(b[..i]) + multiset(b[i + 1..]);
      calc {
        multiset(a[1..]);
        multiset(a) - multiset{a[0]};
        multiset(b) - multiset{b[i]};
        multiset(rest);
      }
      SumOfPermutation(a[1..], rest, f);
      SumOfConcat(b[..i], tail, f);
      SumOfConcat(b[..i], b[i + 1..], f);
      assert tail[0] == b[i] && tail[1..] == b[i + 1..];
    }
  }

  /** One entry of a Python dict that maps a key to a running total. */
  datatype Tally<K> = Tally(key: K, amount: real)

  function TallyAmount<K>(t: Tally<K>): real { t.amount }

  predicate HasKey<K(==)>(ts: seq<Tally<K>>, key: K) {
    |ts| > 0 && (ts[0].key == key || HasKey(ts[1..], key))
  }

  predicate DistinctKeys<K(==)>(ts: seq<Tally<K>>) {
    |ts| == 0 || (!HasKey(ts[1..], ts[0].key) && DistinctKeys(ts[1..]))
  }

  /** `d.get(key, 0)`. */
  function AmountOf<K(==)>(ts: seq<Tally<K>>, key: K): real {
    if |ts| == 0 then 0.0 else if ts[0].key == key then ts[0].amount else AmountOf(ts[1..], key)
  }

  /** `d[key] = d.get(key, 0) + amount` on a dict that keeps keys in first-insertion order. */
  function AddTo<K(==,!new)>(ts: seq<Tally<K>>, key: K, amount: real): (r: seq<Tally<K>>)
    ensures DistinctKeys(ts) ==> DistinctKeys(r)
    ensures forall x :: HasKey(r, x) <==> HasKey(ts, x) || x == key
    ensures DistinctKeys(ts) ==> forall x :: AmountOf(r, x) == AmountOf(ts, x) + (if x == key then amount else 0.0)
    ensures SumOf(r, TallyAmount) == SumOf(ts, TallyAmount) + amount
  {
    if |ts| == 0 then [Tally(key, amount)]
    else if ts[0].key == key then
      var r := [Tally(key, ts[0].amount + amount)] + ts[1..];
      assert r[1..] == ts[1..];
      r
    else
      var rest := AddTo(ts[1..], key, amount);
      var r := [ts[0]] + rest;
      assert r[0] == ts[0] && r[1..] == rest;
      r
  }

  /** With distinct keys, an entry is in the dict exactly when its amount is the one stored
      under its key. */
  lemma {:induction false} TallyMembers<K>(ts: seq<Tally<K>>)
    requires DistinctKeys(ts)
    ensures forall t :: t in ts <==> HasKey(ts, t.key) && t.amount == AmountOf(ts, t.key)
  {
    if |ts| > 0 {
      TallyMembers(ts[1..]);
      forall t ensures t in ts <==> HasKey(ts, t.key) && t.amount == AmountOf(ts, t.key) {
        assert t in ts <==> t == ts[0] || t in ts[1..];
      }
    }
  }

  // ---------------------------------------------------------------------------
  // Income and expenses by category
  // ---------------------------------------------------------------------------

  /** Some listed operation of type `k` has category `name`. */
  predicate Listed(ops: seq<OperationView>, k: Kind, name: string) {
    exists i :: 0 <= i < |ops| && ops[i].op.kind == k && ops[i].categoryName == name
  }

  /** The sum over operations of type `k` listed under category `name`. */
  function CategoryTotal(ops: seq<OperationView>, k: Kind, name: string): real {
    OpsSum(ops, CategoryAmount(k, name))
  }

  /** The `expense_by_category` / `income_by_category` dict: one entry per category name
      among the listed operations of type `k`, in first-appearance order, holding the sum of
      their amounts. */
  function CategorySums(ops: seq<OperationView>, k: Kind): (r: seq<Tally<string>>)
    ensures DistinctKeys(r)
    ensures forall name :: HasKey(r, name) <==> Listed(ops, k, name)
    ensures forall name :: AmountOf(r, name) == CategoryTotal(ops, k, name)
    ensures SumOf(r, TallyAmount) == KindTotal(ops, k)
  {
    if |ops| == 0 then []
    else
      var init := ops[..|ops| - 1];
      var v := ops[|ops| - 1];
      var acc := CategorySums(init, k);
      assert forall name :: Listed(ops, k, name) <==> Listed(init, k, name) || (v.op.kind == k && v.categoryName == name) by {
        forall name | Listed(ops, k, name) && !(v.op.kind == k && v.categoryName == name) ensures Listed(init, k, name) {
          var i :| 0 <= i < |ops| && ops[i].op.kind == k && ops[i].categoryName == name;
          assert init[i] == ops[i];
        }
        forall name | Listed(init, k, name) ensures Listed(ops, k, name) {
          var i :| 0 <= i < |init| && init[i].op.kind == k && init[i].categoryName == name;
          assert ops[i] == init[i];
        }
      }
      if v.op.kind == k then AddTo(acc, v.categoryName, v.op.amount) else acc
  }

  /** `sorted(d.items(), key=amount, reverse=True)`: the larger sums first. */
  predicate LargerFirst(a: Tally<string>, b: Tally<string>) {
    a.amount >= b.amount
  }

  lemma LargerFirstTotal()
    ensures TotalPreorder(LargerFirst)
  {
  }

  /** The rows of the "by category" report: exactly one row per category name among the
      listed operations of type `k`, holding their sum, largest first; the rows add up to the
      type's total. */
  function CategoryRows(ops: seq<OperationView>, k: Kind): (r: seq<Tally<string>>)
    ensures SortedBy(r, LargerFirst)
    ensures forall t :: t in r <==> Listed(ops, k, t.key) && t.amount == CategoryTotal(ops, k, t.key)
    ensures SumOf(r, TallyAmount) == KindTotal(ops, k)
    ensures |r| == |CategorySums(ops, k)|
  {
    var sums := CategorySums(ops, k);
    LargerFirstTotal();
    var r := SortBy(sums, LargerFirst);
    SameElements(r, sums);
    TallyMembers(sums);
    SumOfPermutation(r, sums, TallyAmount);
    r
  }

  /** The "share" column: `amount / total * 100` when the total is positive, else 0. */
  function Percent(amount: real, total: real): real {
    if total > 0.0 then amount / total * 100.0 else 0.0
  }

  function ShareOf(total: real): Tally<string> -> real {
    (t: Tally<string>) => Percent(t.amount, total)
  }

  lemma {:induction false} SharesScale(ts: seq<Tally<string>>, total: real)
    requires total > 0.0
    ensures SumOf(ts, ShareOf(total)) == SumOf(ts, TallyAmount) / total * 100.0
  {
    if |ts| > 0 {
      SharesScale(ts[1..], total);
      var a := ts[0].amount;
      var rest := SumOf(ts[1..], TallyAmount);
      assert a / total * 100.0 + rest / total * 100.0 == (a + rest) / total * 100.0;
    }
  }

  /** Rows that add up to a positive total have shares that add up to 100. */
  lemma SharesAddUp(ts: seq<Tally<string>>, total: real)
    requires total > 0.0 && SumOf(ts, TallyAmount) == total
    ensures SumOf(ts, ShareOf(total)) == 100.0
  {
    SharesScale(ts, total);
    assert total / total == 1.0;
  }

  /** When the type's total is positive the shares of the category rows add up to 100; when
      it is not, every share is 0. */
  lemma CategorySharesAddUp(ops: seq<OperationView>, k: Kind)
    ensures KindTotal(ops, k) > 0.0 ==> SumOf(CategoryRows(ops, k), ShareOf(KindTotal(ops, k))) == 100.0
    ensures KindTotal(ops, k) <= 0.0 ==> forall t :: t in CategoryRows(ops, k) ==> ShareOf(KindTotal(ops, k))(t) == 0.0
  {
    var total := KindTotal(ops, k);
    var rows := CategoryRows(ops, k);
    if total > 0.0 {
      SharesAddUp(rows, total);
    }
  }

  // ---------------------------------------------------------------------------
  // Monthly statistics
  // ---------------------------------------------------------------------------

  /** `op['date'][:7]`: the first seven characters, or the whole text when it is shorter. */
  function MonthKey(date: string): (r: string)
    ensures |r| == if |date| < 7 then |date| else 7
    ensures r <= date
  {
    if |date| < 7 then date else date[..7]
  }

  /** For a date written `YYYY-MM-DD` the key is its year and month. */
  lemma MonthKeyOfIsoDate(date: string)
    requires ValidateIsoDate(date)
    ensures MonthKey(date) == Pad4(ParseDate(date).value.year) + "-" + Pad2(ParseDate(date).value.month)
  {
    var d := ParseDate(date).value;
    assert date == Pad4(d.year) + "-" + Pad2(d.month) + "-" + Pad2(d.day);
    assert date[..7] == (Pad4(d.year) + "-" + Pad2(d.month) + "-" + Pad2(d.day))[..7];
  }

  /** One row of `monthly_stats`. */
  datatype MonthRow = MonthRow(month: string, income: real, expense: real)

  function MonthIncome(m: MonthRow): real { m.income }
  function MonthExpense(m: MonthRow): real { m.expense }

  predicate HasMonth(ms: seq<MonthRow>, month: string) {
    |ms| > 0 && (ms[0].month == month || HasMonth(ms[1..], month))
  }

  predicate DistinctMonths(ms: seq<MonthRow>) {
    |ms| == 0 || (!HasMonth(ms[1..], ms[0].month) && DistinctMonths(ms[1..]))
  }

  /** The stored row of a month, or zeros. */
  function MonthOf(ms: seq<MonthRow>, month: string): MonthRow {
    if |ms| == 0 then MonthRow(month, 0.0, 0.0) else if ms[0].month == month then ms[0] else MonthOf(ms[1..], month)
  }

  /** One step of the monthly loop: create the month's row with zeros if it is new, then
      add the amount to income for an income operation and to expense for any other. */
  function AddToMonth(ms: seq<MonthRow>, month: string, kind: Kind, amount: real): (r: seq<MonthRow>)
    ensures DistinctMonths(ms) ==> DistinctMonths(r)
    ensures forall x :: HasMonth(r, x) <==> HasMonth(ms, x) || x == month
    ensures DistinctMonths(ms) ==> forall x ::
      MonthOf(r, x) == if x != month then MonthOf(ms, x)
                       else if kind == Income then MonthOf(ms, x).(income := MonthOf(ms, x).income + amount)
                       else MonthOf(ms, x).(expense := MonthOf(ms, x).expense + amount)
    ensures SumOf(r, MonthIncome) == SumOf(ms, MonthIncome) + (if kind == Income then amount else 0.0)
    ensures SumOf(r, MonthExpense) == SumOf(ms, MonthExpense) + (if kind != Income then amount else 0.0)
  {
    if |ms| == 0 then
      [if kind == Income then MonthRow(month, amount, 0.0) else MonthRow(month, 0.0, amount)]
    else if ms[0].month == month then
      var m := ms[0];
      var r := [if kind == Income then m.(income := m.income + amount) else m.(expense := m.expense + amount)] + ms[1..];
      assert r[1..] == ms[1..];
      r
    else
      var rest := AddToMonth(ms[1..], month, kind, amount);
      var r := [ms[0]] + rest;
      assert r[0] == ms[0] && r[1..] == rest;
      r
  }

  /** The amount of an operation in month `month` that counts on the income side
      (`income == true`) or the expense side. */
  function MonthAmount(month: string, income: bool): OperationView -> real {
    (v: OperationView) => if MonthKey(v.op.date) == month && (v.op.kind == Income) == income then v.op.amount else 0.0
  }

  predicate InMonth(ops: seq<OperationView>, month: string) {
    exists i :: 0 <= i < |ops| && MonthKey(ops[i].op.date) == month
  }

  /** Appending an operation adds its month to the months present. */
  lemma InMonthSnoc(ops: seq<OperationView>)
    requires |ops| > 0
    ensures forall month :: InMonth(ops, month) <==>
      InMonth(ops[..|ops| - 1], month) || MonthKey(ops[|ops| - 1].op.date) == month
  {
    var init := ops[..|ops| - 1];
    forall month | InMonth(ops, month) && MonthKey(ops[|ops| - 1].op.date) != month
      ensures InMonth(init, month)
    {
      var i :| 0 <= i < |ops| && MonthKey(ops[i].op.date) == month;
      assert init[i] == ops[i];
    }
    forall month | InMonth(init, month) ensures InMonth(ops, month) {
      var i :| 0 <= i < |init| && MonthKey(init[i].op.date) == month;
      assert ops[i] == init[i];
    }
  }

  /** The `monthly_stats` dict: one row per month key among the listed operations, in
      first-appearance order, with the month's income and the month's other operations. */
  function MonthlyTally(ops: seq<OperationView>): (r: seq<MonthRow>)
    ensures DistinctMonths(r)
    ensures forall month :: HasMonth(r, month) <==> InMonth(ops, month)
    ensures forall month :: (MonthOf(r, month) ==
      MonthRow(month, OpsSum(ops, MonthAmount(month, true)), OpsSum(ops, MonthAmount(month, false))))
    ensures SumOf(r, MonthIncome) == KindTotal(ops, Income)
    ensures SumOf(r, MonthExpense) == KindTotal(ops, Expense)
  {
    if |ops| == 0 then []
    else
      var init := ops[..|ops| - 1];
      var v := ops[|ops| - 1];
      var acc := MonthlyTally(init);
      InMonthSnoc(ops);
      MonthOfKeys(acc);
      AddToMonth(acc, MonthKey(v.op.date), v.op.kind, v.op.amount)
  }

  /** The row `MonthOf` returns carries the month asked for. */
  lemma {:induction false} MonthOfKeys(ms: seq<MonthRow>)
    ensures forall month :: MonthOf(ms, month).month == month
  {
    if |ms| > 0 {
      MonthOfKeys(ms[1..]);
    }
  }

  lemma {:induction false} MonthMembers(ms: seq<MonthRow>)
    requires DistinctMonths(ms)
    ensures forall m :: m in ms <==> HasMonth(ms, m.month) && m == MonthOf(ms, m.month)
  {
    if |ms| > 0 {
      MonthMembers(ms[1..]);
      forall m ensures m in ms <==> HasMonth(ms, m.month) && m == MonthOf(ms, m.month) {
        assert m in ms <==> m == ms[0] || m in ms[1..];
      }
    }
  }

  /** `sorted(monthly_stats.keys(), reverse=True)`. */
  predicate LaterMonthFirst(a: MonthRow, b: MonthRow) {
    StrLe(b.month, a.month)
  }

  lemma LaterMonthFirstTotal()
    ensures TotalPreorder(LaterMonthFirst)
  {
    forall a, b ensures LaterMonthFirst(a, b) || LaterMonthFirst(b, a) {
      StrCmpLaws(a.month, b.month, a.month);
    }
    forall a, b, c | LaterMonthFirst(a, b) && LaterMonthFirst(b, c) ensures LaterMonthFirst(a, c) {
      StrCmpLaws(c.month, b.month, a.month);
    }
  }

  /** The "monthly statistics" table: one row per month key, latest first, holding that
      month's income and the month's other operations as expense; the columns add up to the
      overall totals. */
  function MonthlyStats(ops: seq<OperationView>): (r: seq<MonthRow>)
    ensures SortedBy(r, LaterMonthFirst)
    ensures forall m :: m in r <==>
      InMonth(ops, m.month)
      && m.income == OpsSum(ops, MonthAmount(m.month, true))
      && m.expense == OpsSum(ops, MonthAmount(m.month, false))
    ensures SumOf(r, MonthIncome) == KindTotal(ops, Income)
    ensures SumOf(r, MonthExpense) == KindTotal(ops, Expense)
  {
    var tally := MonthlyTally(ops);
    LaterMonthFirstTotal();
    var r := SortBy(tally, LaterMonthFirst);
    SameElements(r, tally);
    MonthMembers(tally);
    SumOfPermutation(r, tally, MonthIncome);
    SumOfPermutation(r, tally, MonthExpense);
    r
  }

  /** The reports agree with each other: the category tables add up to the general totals,
      and so do the monthly columns, whose balances add up to the overall balance. */
  lemma ReportsAgree(ops: seq<OperationView>)
    ensures SumOf(CategoryRows(ops, Income), TallyAmount) == Summarize(ops).income
    ensures SumOf(CategoryRows(ops, Expense), TallyAmount) == Summarize(ops).expense
    ensures SumOf(MonthlyStats(ops), MonthIncome) - SumOf(MonthlyStats(ops), MonthExpense) == Summarize(ops).balance
  {
  }
}
