/** PlanSubcategory.py: per-subcategory budget plans. A plan fixes an amount per period and
    a yearly forecast; changes to the amount are logged in the plan history. */
module Plans {
  import opened Common
  import opened Ledger
  import opened Periods

  // ---------------------------------------------------------------------------
  // Plans per subcategory
  // ---------------------------------------------------------------------------

  /** Selector for `WHERE subcategory_id = ?` on the plans table. */
  function PlanOfSubcategory(subcategoryId: Id): Plan -> bool { (p: Plan) => p.subcategoryId == subcategoryId }

  function PlanSubcategoryKey(p: Plan): Id { p.subcategoryId }

  /** At most one plan per subcategory: the rule `create_plan` keeps. */
  ghost predicate OnePlanPerSubcategory(s: Store) {
    UniqueKeys(s.plans, PlanSubcategoryKey)
  }

  /** How many plans the table holds for a subcategory. */
  function PlansOf(plans: seq<Plan>, subcategoryId: Id): nat {
    if |plans| == 0 then 0
    else (if plans[0].subcategoryId == subcategoryId then 1 else 0) + PlansOf(plans[1..], subcategoryId)
  }

  lemma {:induction false} PlansOfAppend(plans: seq<Plan>, p: Plan, subcategoryId: Id)
    ensures PlansOf(plans + [p], subcategoryId) == PlansOf(plans, subcategoryId) + (if p.subcategoryId == subcategoryId then 1 else 0)
    decreases |plans|
  {
    if |plans| > 0 {
      assert (plans + [p])[1..] == plans[1..] + [p];
      PlansOfAppend(plans[1..], p, subcategoryId);
    }
  }

  /** A subcategory has a plan exactly when its plan count is positive. */
  lemma {:induction false} PlansOfPositive(plans: seq<Plan>, subcategoryId: Id)
    ensures PlansOf(plans, subcategoryId) > 0 <==> exists p :: p in plans && p.subcategoryId == subcategoryId
    decreases |plans|
  {
    if |plans| > 0 {
      PlansOfPositive(plans[1..], subcategoryId);
      assert forall p :: p in plans <==> p == plans[0] || p in plans[1..];
    }
  }

  /** `amount * period_count`: the yearly total of an amount planned per period. */
  function YearTotal(amount: real, count: int): real {
    amount * count as real
  }

  // ---------------------------------------------------------------------------
  // The joined view of a plan
  // ---------------------------------------------------------------------------

  /** A plan with its period, category and subcategory, as the plan queries return it. */
  datatype PlanRow = PlanRow(
    plan: Plan,
    periodName: string,
    periodCount: int,
    categoryName: string,
    subcategoryName: string,
    categoryKind: Kind)

  /** The inner joins of a plan with `periods`, `categories` and `subcategories` on its three
      references; a plan with a dangling reference has no row. */
  function PlanRowOf(s: Store, p: Plan): Option<PlanRow> {
    match (FindPeriod(s, p.periodId), FindCategory(s, p.categoryId), FindSubcategory(s, p.subcategoryId))
    case (Some(q), Some(c), Some(x)) => Some(PlanRow(p, q.name, q.count, c.name, x.name, c.kind))
    case _ => None
  }

  function PlanRowIn(s: Store): Plan -> Option<PlanRow> { (p: Plan) => PlanRowOf(s, p) }

  /** The row's columns come from a plan and from a period, category and subcategory the
      plan references. */
  ghost predicate JoinedFrom(s: Store, v: PlanRow) {
    && v.plan in s.plans
    && Period(v.plan.periodId, v.periodName, v.periodCount) in s.periods
    && Category(v.plan.categoryId, v.categoryName, v.categoryKind) in s.categories
    && exists x :: x in s.subcategories && x.id == v.plan.subcategoryId && x.name == v.subcategoryName
  }

  /** All three references of the plan point at stored rows. */
  ghost predicate Resolves(s: Store, p: Plan) {
    && (exists q :: q in s.periods && q.id == p.periodId)
    && (exists c :: c in s.categories && c.id == p.categoryId)
    && (exists x :: x in s.subcategories && x.id == p.subcategoryId)
  }

  /** The unfiltered join of the plan queries, in table order. */
  function PlanRows(s: Store): seq<PlanRow> {
    FilterMap(s.plans, PlanRowIn(s))
  }

  /** Every joined row is built from a stored plan and the rows its references point at. */
  lemma PlanRowsJoined(s: Store)
    ensures forall v :: v in PlanRows(s) ==> JoinedFrom(s, v)
  {
    forall v | v in PlanRows(s) ensures JoinedFrom(s, v) {
      var i :| 0 <= i < |s.plans| && PlanRowIn(s)(s.plans[i]) == Some(v);
      var x := FindSubcategory(s, s.plans[i].subcategoryId).value;
      assert x in s.subcategories;
    }
  }

  /** A plan whose references all resolve shows up in the join. */
  lemma PlanRowsComplete(s: Store)
    ensures forall p :: p in s.plans && Resolves(s, p) ==> exists v :: v in PlanRows(s) && v.plan == p
  {
    forall p | p in s.plans && Resolves(s, p) ensures exists v :: v in PlanRows(s) && v.plan == p {
      var i :| 0 <= i < |s.plans| && s.plans[i] == p;
      var q :| q in s.periods && q.id == p.periodId;
      var c :| c in s.categories && c.id == p.categoryId;
      var x :| x in s.subcategories && x.id == p.subcategoryId;
      assert PeriodWithId(p.periodId)(q);
      assert CategoryWithId(p.categoryId)(c);
      assert SubcategoryWithId(p.subcategoryId)(x);
      assert PlanRowIn(s)(s.plans[i]).Some?;
      assert PlanRowIn(s)(s.plans[i]).value in PlanRows(s);
    }
  }

  /** A plan with a dangling reference is missing from the join. */
  lemma PlanRowsExclude(s: Store)
    ensures forall p :: p in s.plans && !Resolves(s, p) ==> forall v :: v in PlanRows(s) ==> v.plan != p
  {
    forall v | v in PlanRows(s) ensures Resolves(s, v.plan) {
      var i :| 0 <= i < |s.plans| && PlanRowIn(s)(s.plans[i]) == Some(v);
      assert FindPeriod(s, s.plans[i].periodId).value in s.periods;
      assert FindCategory(s, s.plans[i].categoryId).value in s.categories;
      assert FindSubcategory(s, s.plans[i].subcategoryId).value in s.subcategories;
    }
  }

  /** The join has one row per plan whose references all resolve, built from those rows. */
  lemma PlanRowsJoin(s: Store)
    ensures forall v :: v in PlanRows(s) ==> JoinedFrom(s, v)
    ensures forall p :: p in s.plans && Resolves(s, p) ==> exists v :: v in PlanRows(s) && v.plan == p
    ensures forall p :: p in s.plans && !Resolves(s, p) ==> forall v :: v in PlanRows(s) ==> v.plan != p
  {
    PlanRowsJoined(s);
    PlanRowsComplete(s);
    PlanRowsExclude(s);
  }

  // ---------------------------------------------------------------------------
  // create_default_budget / get_budget_by_subcategory
  // ---------------------------------------------------------------------------

  /** Appending a plan under a fresh uuid keeps every primary key unique. */
  lemma AppendPlanKeepsWf(s: Store, p: Plan)
    requires Wf(s) && Fresh(s, p.id)
    ensures Wf(s.(plans := s.plans + [p]))
  {
    FreshFacts(s, p.id);
    UniqueKeysAppend(s.plans, p, PlanKey);
  }

  /** `create_default_budget(subcategory_id)`: a plan of amount 0 and forecast 0 on the default
      period. An unknown subcategory or an empty period catalog gives `None`. It does not look
      for a plan the subcategory already has. */
  function CreateDefaultBudget(s: Store, subcategoryId: Id, newId: Id): (r: (Option<Plan>, Store))
    requires Fresh(s, newId)
    ensures r.0.Some? <==> FindSubcategory(s, subcategoryId).Some? && |s.periods| > 0
    ensures r.0.None? ==> r.1 == s
    ensures r.0.Some? ==>
      && r.0.value == Plan(newId, FindSubcategory(s, subcategoryId).value.categoryId, subcategoryId,
                           DefaultPeriod(s).value.id, 0.0, 0.0)
      && r.1.plans == s.plans + [r.0.value]
    ensures r.1 == s.(plans := r.1.plans)
  {
    match FindSubcategory(s, subcategoryId)
    case None => (None, s)
    case Some(x) =>
      match DefaultPeriod(s)
      case None => (None, s)
      case Some(q) =>
        var amount := 0.0;
        var p := Plan(newId, x.categoryId, subcategoryId, q.id, amount, YearTotal(amount, 12));
        (Some(p), s.(plans := s.plans + [p]))
  }

  /** Each successful call adds one more plan for the subcategory, so a second call on a
      subcategory that already has a plan breaks the one-plan-per-subcategory rule. */
  lemma CreateDefaultBudgetAddsPlan(s: Store, subcategoryId: Id, newId: Id)
    requires Fresh(s, newId)
    requires CreateDefaultBudget(s, subcategoryId, newId).0.Some?
    ensures var s' := CreateDefaultBudget(s, subcategoryId, newId).1;
      PlansOf(s'.plans, subcategoryId) == PlansOf(s.plans, subcategoryId) + 1
    ensures (exists p :: p in s.plans && p.subcategoryId == subcategoryId) ==>
      !OnePlanPerSubcategory(CreateDefaultBudget(s, subcategoryId, newId).1)
    ensures Wf(s) ==> Wf(CreateDefaultBudget(s, subcategoryId, newId).1)
  {
    var (r, s') := CreateDefaultBudget(s, subcategoryId, newId);
    PlansOfAppend(s.plans, r.value, subcategoryId);
    if Wf(s) {
      AppendPlanKeepsWf(s, r.value);
    }
    if exists p :: p in s.plans && p.subcategoryId == subcategoryId {
      var p :| p in s.plans && p.subcategoryId == subcategoryId;
      var i :| 0 <= i < |s.plans| && s.plans[i] == p;
      assert s'.plans[i] == p && s'.plans[|s.plans|] == r.value;
      assert PlanSubcategoryKey(s'.plans[i]) == PlanSubcategoryKey(s'.plans[|s.plans|]);
    }
  }

  function RowOfSubcategory(subcategoryId: Id): PlanRow -> bool { (v: PlanRow) => v.plan.subcategoryId == subcategoryId }

  /** `get_budget_by_subcategory(subcategory_id)`: the first joined plan row of the
      subcategory, or `None` when it has no plan whose references resolve. */
  function GetBudgetBySubcategory(s: Store, subcategoryId: Id): (r: Option<PlanRow>)
    ensures r.Some? ==> r.value.plan.subcategoryId == subcategoryId && JoinedFrom(s, r.value)
    ensures r.None? <==> forall p :: p in s.plans && p.subcategoryId == subcategoryId ==> !Resolves(s, p)
  {
    PlanRowsJoin(s);
    BudgetFacts(s, subcategoryId);
    Find(PlanRows(s), RowOfSubcategory(subcategoryId))
  }

  lemma BudgetFacts(s: Store, subcategoryId: Id)
    ensures (exists p :: p in s.plans && p.subcategoryId == subcategoryId && Resolves(s, p)) ==>
      Find(PlanRows(s), RowOfSubcategory(subcategoryId)).Some?
  {
    var rows := PlanRows(s);
    if exists p :: p in s.plans && p.subcategoryId == subcategoryId && Resolves(s, p) {
      PlanRowsJoin(s);
      var p :| p in s.plans && p.subcategoryId == subcategoryId && Resolves(s, p);
      var v :| v in rows && v.plan == p;
      FindSome(rows, RowOfSubcategory(subcategoryId), v);
    }
  }

  /** The default budget of a subcategory whose category exists reads back through
      `get_budget_by_subcategory` when the subcategory had no plan before. */
  lemma DefaultBudgetReadBack(s: Store, subcategoryId: Id, newId: Id)
    requires Fresh(s, newId)
    requires CreateDefaultBudget(s, subcategoryId, newId).0.Some?
    requires FindCategory(s, FindSubcategory(s, subcategoryId).value.categoryId).Some?
    requires forall p :: p in s.plans ==> p.subcategoryId != subcategoryId
    ensures var (r, s') := CreateDefaultBudget(s, subcategoryId, newId);
      && GetBudgetBySubcategory(s', subcategoryId).Some?
      && GetBudgetBySubcategory(s', subcategoryId).value.plan == r.value
  {
    var (r, s') := CreateDefaultBudget(s, subcategoryId, newId);
    NewPlanReadBack(s, s', r.value);
  }

  /** Appending a plan whose references resolve appends its row to the join. */
  lemma NewPlanRows(s: Store, s': Store, p: Plan)
    requires s' == s.(plans := s.plans + [p])
    requires FindPeriod(s, p.periodId).Some? && FindCategory(s, p.categoryId).Some? && FindSubcategory(s, p.subcategoryId).Some?
    ensures PlanRows(s') == PlanRows(s) + [PlanRowOf(s, p).value]
  {
    FilterMapExt(s.plans, PlanRowIn(s'), PlanRowIn(s));
    FilterMapAppend(s.plans, p, PlanRowIn(s'));
    assert s'.plans == s.plans + [p];
  }

  /** Appending a plan for a subcategory that had none: with its references resolving, the
      subcategory's budget is that plan. */
  lemma NewPlanReadBack(s: Store, s': Store, p: Plan)
    requires s' == s.(plans := s.plans + [p])
    requires forall q :: q in s.plans ==> q.subcategoryId != p.subcategoryId
    requires FindPeriod(s, p.periodId).Some? && FindCategory(s, p.categoryId).Some? && FindSubcategory(s, p.subcategoryId).Some?
    ensures GetBudgetBySubcategory(s', p.subcategoryId) == PlanRowOf(s, p)
  {
    NewPlanRows(s, s', p);
    var sel := RowOfSubcategory(p.subcategoryId);
    FindAppend(PlanRows(s), PlanRowOf(s, p).value, sel);
    PlanRowsJoined(s);
    forall i | 0 <= i < |PlanRows(s)| ensures !sel(PlanRows(s)[i]) {
      assert JoinedFrom(s, PlanRows(s)[i]);
    }
  }

  // ---------------------------------------------------------------------------
  // update_plan
  // ---------------------------------------------------------------------------

  /** The year forecast `update_plan` stores, decided in the source's order: a new period
      multiplies the (new or kept) amount by that period's count; otherwise an explicit forecast
      is stored as given; otherwise a new amount is multiplied by the current period's count;
      otherwise the forecast is kept. `None` when the period to multiply by does not exist. */
  function YearForecast(s: Store, prior: Plan, newAmount: Option<real>, newPeriodId: Option<Id>, newForecast: Option<real>): (r: Option<real>)
    ensures newPeriodId.Some? ==> (r.Some? <==> FindPeriod(s, newPeriodId.value).Some?)
    ensures newPeriodId.Some? && r.Some? ==>
      r.value == YearTotal(newAmount.GetOr(prior.amount), FindPeriod(s, newPeriodId.value).value.count)
    ensures newPeriodId.None? && newForecast.Some? ==> r == newForecast
    ensures newPeriodId.None? && newForecast.None? && newAmount.Some? ==> (r.Some? <==> FindPeriod(s, prior.periodId).Some?)
    ensures newPeriodId.None? && newForecast.None? && newAmount.Some? && r.Some? ==>
      r.value == YearTotal(newAmount.value, FindPeriod(s, prior.periodId).value.count)
    ensures newPeriodId.None? && newForecast.None? && newAmount.None? ==> r == Some(prior.forecast)
  {
    var amount := newAmount.GetOr(prior.amount);
    if newPeriodId.Some? then
      match FindPeriod(s, newPeriodId.value)
      case None => None
      case Some(q) => Some(YearTotal(amount, q.count))
    else if newForecast.Some? then newForecast
    else if newAmount.Some? then
      match FindPeriod(s, prior.periodId)
      case None => None
      case Some(q) => Some(YearTotal(amount, q.count))
    else Some(prior.forecast)
  }

  /** The plans table after `UPDATE plan_subcategories SET planned_amount = ?, period_id = ?,
      year_forecast = ? WHERE id = ?`. */
  function RewritePlanRows(rows: seq<Plan>, id: Id, amount: real, periodId: Id, forecast: real): (r: seq<Plan>)
    ensures |r| == |rows|
    ensures forall i :: 0 <= i < |rows| ==>
      r[i] == if rows[i].id == id then rows[i].(amount := amount, periodId := periodId, forecast := forecast) else rows[i]
  {
    seq(|rows|, i requires 0 <= i < |rows| =>
      if rows[i].id == id then rows[i].(amount := amount, periodId := periodId, forecast := forecast) else rows[i])
  }

  /** `update_plan(plan_id, new_amount, new_period_id, new_year_forecast)`; `now` is the
      clock's timestamp text and `historyId` the uuid of the history row. An unknown plan, or a
      period needed for the forecast that does not exist, returns false with nothing changed.
      Otherwise the plan takes the new amount and period (each kept when not given) and the
      forecast `YearForecast` decides, and a history row is appended exactly when an amount is
      given that differs from the stored one. */
  function UpdatePlan(s: Store, planId: Id, newAmount: Option<real>, newPeriodId: Option<Id>, newForecast: Option<real>,
                      historyId: Id, now: string): (r: (bool, Store))
    ensures r.0 <==> FindPlan(s, planId).Some? && YearForecast(s, FindPlan(s, planId).value, newAmount, newPeriodId, newForecast).Some?
    ensures !r.0 ==> r.1 == s
    ensures r.0 ==>
      var prior := FindPlan(s, planId).value;
      r.1.plans == RewritePlanRows(s.plans, planId, newAmount.GetOr(prior.amount), newPeriodId.GetOr(prior.periodId),
                                   YearForecast(s, prior, newAmount, newPeriodId, newForecast).value)
    ensures |r.1.history| == |s.history| + (if r.0 && newAmount.Some? && newAmount.value != FindPlan(s, planId).value.amount then 1 else 0)
    ensures r.1.history[..|s.history|] == s.history
    ensures |r.1.history| > |s.history| ==>
      r.1.history[|s.history|] == PlanHistory(historyId, planId, now, FindPlan(s, planId).value.amount, newAmount.value)
    ensures r.1 == s.(plans := r.1.plans, history := r.1.history)
  {
    match FindPlan(s, planId)
    case None => (false, s)
    case Some(prior) =>
      match YearForecast(s, prior, newAmount, newPeriodId, newForecast)
      case None => (false, s)
      case Some(forecast) =>
        var amount := newAmount.GetOr(prior.amount);
        var plans := RewritePlanRows(s.plans, planId, amount, newPeriodId.GetOr(prior.periodId), forecast);
        var history :=
          if newAmount.Some? && newAmount.value != prior.amount
          then s.history + [PlanHistory(historyId, planId, now, prior.amount, newAmount.value)]
          else s.history;
        (true, s.(plans := plans, history := history))
  }

  /** After a successful update the plan reads back with the new amount, period and forecast
      and its other columns unchanged; every other plan is untouched. */
  lemma UpdatePlanReadBack(s: Store, planId: Id, newAmount: Option<real>, newPeriodId: Option<Id>, newForecast: Option<real>,
                           historyId: Id, now: string)
    requires UpdatePlan(s, planId, newAmount, newPeriodId, newForecast, historyId, now).0
    ensures var prior := FindPlan(s, planId).value;
      var s' := UpdatePlan(s, planId, newAmount, newPeriodId, newForecast, historyId, now).1;
      FindPlan(s', planId) == Some(prior.(amount := newAmount.GetOr(prior.amount),
                                          periodId := newPeriodId.GetOr(prior.periodId),
                                          forecast := YearForecast(s, prior, newAmount, newPeriodId, newForecast).value))
    ensures var s' := UpdatePlan(s, planId, newAmount, newPeriodId, newForecast, historyId, now).1;
      forall p :: p in s.plans && p.id != planId ==> p in s'.plans
  {
    var prior := FindPlan(s, planId).value;
    var s' := UpdatePlan(s, planId, newAmount, newPeriodId, newForecast, historyId, now).1;
    FindAfterRewrite(s.plans, s'.plans, PlanWithId(planId));
    forall p | p in s.plans && p.id != planId ensures p in s'.plans {
      var i :| 0 <= i < |s.plans| && s.plans[i] == p;
      assert s'.plans[i] == p;
    }
  }

  /** The forecast rules of `update_plan`, read back from the stored plan: a new period wins over
      an explicit forecast and needs to exist; without one an explicit forecast is stored as
      given; a new amount alone is multiplied by the current period's count; with nothing given
      the forecast stays. */
  lemma UpdatePlanForecastRules(s: Store, planId: Id, newAmount: Option<real>, newPeriodId: Option<Id>, newForecast: Option<real>,
                                historyId: Id, now: string)
    requires FindPlan(s, planId).Some?
    ensures var prior := FindPlan(s, planId).value;
      var (ok, s') := UpdatePlan(s, planId, newAmount, newPeriodId, newForecast, historyId, now);
      && (newPeriodId.Some? ==> (ok <==> FindPeriod(s, newPeriodId.value).Some?))
      && (newPeriodId.Some? && ok ==>
            FindPlan(s', planId).value.forecast == YearTotal(newAmount.GetOr(prior.amount), FindPeriod(s, newPeriodId.value).value.count))
      && (newPeriodId.None? && newForecast.Some? ==> ok && FindPlan(s', planId).value.forecast == newForecast.value)
      && (newPeriodId.None? && newForecast.None? && newAmount.Some? ==> (ok <==> FindPeriod(s, prior.periodId).Some?))
      && (newPeriodId.None? && newForecast.None? && newAmount.Some? && ok ==>
            FindPlan(s', planId).value.forecast == YearTotal(newAmount.value, FindPeriod(s, prior.periodId).value.count))
      && (newPeriodId.None? && newForecast.None? && newAmount.None? ==> ok && FindPlan(s', planId).value.forecast == prior.forecast)
  {
    if UpdatePlan(s, planId, newAmount, newPeriodId, newForecast, historyId, now).0 {
      UpdatePlanReadBack(s, planId, newAmount, newPeriodId, newForecast, historyId, now);
    }
  }

  /** The stored forecast is the amount times the count of the plan's period. */
  ghost predicate ForecastConsistent(s: Store, p: Plan) {
    FindPeriod(s, p.periodId).Some? && p.forecast == YearTotal(p.amount, FindPeriod(s, p.periodId).value.count)
  }

  /** Without an explicit forecast, a successful update leaves the plan's forecast equal to its
      amount times its period's count, whenever that held before or the amount or period changed. */
  lemma UpdatePlanKeepsForecastConsistent(s: Store, planId: Id, newAmount: Option<real>, newPeriodId: Option<Id>,
                                          historyId: Id, now: string)
    requires UpdatePlan(s, planId, newAmount, newPeriodId, None, historyId, now).0
    requires newAmount.Some? || newPeriodId.Some? || ForecastConsistent(s, FindPlan(s, planId).value)
    ensures var s' := UpdatePlan(s, planId, newAmount, newPeriodId, None, historyId, now).1;
      ForecastConsistent(s', FindPlan(s', planId).value)
  {
    var prior := FindPlan(s, planId).value;
    var s' := UpdatePlan(s, planId, newAmount, newPeriodId, None, historyId, now).1;
    UpdatePlanReadBack(s, planId, newAmount, newPeriodId, None, historyId, now);
    var p := FindPlan(s', planId).value;
    assert s'.periods == s.periods;
    assert FindPeriod(s', p.periodId) == FindPeriod(s, p.periodId);
    var amount := newAmount.GetOr(prior.amount);
    if newPeriodId.Some? {
      assert p.periodId == newPeriodId.value;
      assert p.forecast == YearTotal(amount, FindPeriod(s, newPeriodId.value).value.count);
    } else if newAmount.Some? {
      assert p.periodId == prior.periodId;
      assert p.forecast == YearTotal(amount, FindPeriod(s, prior.periodId).value.count);
    } else {
      assert p == prior;
    }
  }

  /** Updates keep the plan ids unique, and the history ids unique for a fresh history id. */
  lemma UpdatePlanKeepsWf(s: Store, planId: Id, newAmount: Option<real>, newPeriodId: Option<Id>, newForecast: Option<real>,
                          historyId: Id, now: string)
    requires Wf(s) && Fresh(s, historyId)
    ensures Wf(UpdatePlan(s, planId, newAmount, newPeriodId, newForecast, historyId, now).1)
  {
    var (ok, s') := UpdatePlan(s, planId, newAmount, newPeriodId, newForecast, historyId, now);
    if ok {
      FreshFacts(s, historyId);
      UniqueKeysRewrite(s.plans, s'.plans, PlanKey);
      if |s'.history| > |s.history| {
        assert s'.history == s.history + [s'.history[|s.history|]];
        UniqueKeysAppend(s.history, s'.history[|s.history|], HistoryKey);
      }
    }
  }

  /** An update never moves a plan to another subcategory, so one plan per subcategory is
      kept. */
  lemma UpdatePlanKeepsOnePlan(s: Store, planId: Id, newAmount: Option<real>, newPeriodId: Option<Id>, newForecast: Option<real>,
                               historyId: Id, now: string)
    requires OnePlanPerSubcategory(s)
    ensures OnePlanPerSubcategory(UpdatePlan(s, planId, newAmount, newPeriodId, newForecast, historyId, now).1)
  {
    var (ok, s') := UpdatePlan(s, planId, newAmount, newPeriodId, newForecast, historyId, now);
    if ok {
      UniqueKeysRewrite(s.plans, s'.plans, PlanSubcategoryKey);
    }
  }

  // ---------------------------------------------------------------------------
  // get_all_plans
  // ---------------------------------------------------------------------------

  /** The optional `WHERE ps.category_id = ? AND ps.period_id = ?` of `get_all_plans`: each
      condition applies only when its argument is given (non-empty). */
  predicate PlanSelected(v: PlanRow, categoryId: Option<Id>, periodId: Option<Id>) {
    && (Given(categoryId) ==> v.plan.categoryId == categoryId.value)
    && (Given(periodId) ==> v.plan.periodId == periodId.value)
  }

  /** `ORDER BY c.type DESC, c.name, s.name`. */
  predicate PlanOrder(a: PlanRow, b: PlanRow) {
    var t := StrCmp(KindName(b.categoryKind), KindName(a.categoryKind));
    var c := StrCmp(a.categoryName, b.categoryName);
    t < 0 || (t == 0 && (c < 0 || (c == 0 && StrLe(a.subcategoryName, b.subcategoryName))))
  }

  lemma PlanOrderTotal()
    ensures TotalPreorder(PlanOrder)
  {
    forall a, b ensures PlanOrder(a, b) || PlanOrder(b, a) {
      StrCmpLaws(KindName(a.categoryKind), KindName(b.categoryKind), KindName(a.categoryKind));
      StrCmpLaws(a.categoryName, b.categoryName, a.categoryName);
      StrCmpLaws(a.subcategoryName, b.subcategoryName, a.subcategoryName);
    }
    forall a, b, c | PlanOrder(a, b) && PlanOrder(b, c) ensures PlanOrder(a, c) {
      StrCmpLaws(KindName(c.categoryKind), KindName(b.categoryKind), KindName(a.categoryKind));
      StrCmpLaws(a.categoryName, b.categoryName, c.categoryName);
      StrCmpLaws(a.subcategoryName, b.subcategoryName, c.subcategoryName);
    }
  }

  /** `get_all_plans(category_id, period_id)`: the joined plans the filters select, each once
      per stored plan, income plans before expense plans, then by category name and
      subcategory name. */
  function GetAllPlans(s: Store, categoryId: Option<Id>, periodId: Option<Id>): (r: seq<PlanRow>)
    ensures SortedBy(r, PlanOrder)
    ensures forall v :: v in r <==> v in PlanRows(s) && PlanSelected(v, categoryId, periodId)
    ensures forall v :: multiset(r)[v] == if PlanSelected(v, categoryId, periodId) then multiset(PlanRows(s))[v] else 0
  {
    var selected := Filter(PlanRows(s), (v: PlanRow) => PlanSelected(v, categoryId, periodId));
    PlanOrderTotal();
    var r := SortBy(selected, PlanOrder);
    SameElements(r, selected);
    r
  }

  /** In every plan listing, no expense plan comes before an income plan. */
  lemma IncomePlansFirst(s: Store, categoryId: Option<Id>, periodId: Option<Id>, i: int, j: int)
    requires var r := GetAllPlans(s, categoryId, periodId); 0 <= i < j < |r| && r[j].categoryKind == Income
    ensures GetAllPlans(s, categoryId, periodId)[i].categoryKind == Income
  {
    var r := GetAllPlans(s, categoryId, periodId);
    assert PlanOrder(r[i], r[j]);
    assert StrCmp("income", "expense") == 1;
  }

  // ---------------------------------------------------------------------------
  // create_plan
  // ---------------------------------------------------------------------------

  /** `create_plan(category_id, subcategory_id, period_id, amount)`: when the subcategory
      already has a plan, that plan's id is returned and nothing changes; otherwise an unknown
      period gives `None`, and a known one stores a plan whose forecast is the amount times the
      period's count. The category and subcategory are not checked. */
  function CreatePlan(s: Store, categoryId: Id, subcategoryId: Id, periodId: Id, amount: real, newId: Id): (r: (Option<Id>, Store))
    requires Fresh(s, newId)
    ensures Find(s.plans, PlanOfSubcategory(subcategoryId)).Some? ==>
      r == (Some(Find(s.plans, PlanOfSubcategory(subcategoryId)).value.id), s)
    ensures Find(s.plans, PlanOfSubcategory(subcategoryId)).None? && FindPeriod(s, periodId).None? ==> r == (None, s)
    ensures Find(s.plans, PlanOfSubcategory(subcategoryId)).None? && FindPeriod(s, periodId).Some? ==>
      && r.0 == Some(newId)
      && r.1.plans == s.plans + [Plan(newId, categoryId, subcategoryId, periodId, amount, YearTotal(amount, FindPeriod(s, periodId).value.count))]
    ensures r.1 == s.(plans := r.1.plans)
  {
    match Find(s.plans, PlanOfSubcategory(subcategoryId))
    case Some(existing) => (Some(existing.id), s)
    case None =>
      match FindPeriod(s, periodId)
      case None => (None, s)
      case Some(q) =>
        var p := Plan(newId, categoryId, subcategoryId, periodId, amount, YearTotal(amount, q.count));
        assert q == FindPeriod(s, periodId).value;
        assert p == Plan(newId, categoryId, subcategoryId, periodId, amount, YearTotal(amount, FindPeriod(s, periodId).value.count));
        (Some(newId), s.(plans := s.plans + [p]))
  }

  /** `create_plan` keeps at most one plan per subcategory, keeps plan ids unique, and after
      it the subcategory has a plan whose id is the one returned. */
  lemma CreatePlanKeepsOnePlan(s: Store, categoryId: Id, subcategoryId: Id, periodId: Id, amount: real, newId: Id)
    requires Fresh(s, newId)
    requires CreatePlan(s, categoryId, subcategoryId, periodId, amount, newId).0.Some?
    ensures var (id, s') := CreatePlan(s, categoryId, subcategoryId, periodId, amount, newId);
      Find(s'.plans, PlanOfSubcategory(subcategoryId)).Some? && Find(s'.plans, PlanOfSubcategory(subcategoryId)).value.id == id.value
    ensures OnePlanPerSubcategory(s) ==> OnePlanPerSubcategory(CreatePlan(s, categoryId, subcategoryId, periodId, amount, newId).1)
    ensures Wf(s) ==> Wf(CreatePlan(s, categoryId, subcategoryId, periodId, amount, newId).1)
  {
    var (id, s') := CreatePlan(s, categoryId, subcategoryId, periodId, amount, newId);
    if Find(s.plans, PlanOfSubcategory(subcategoryId)).None? {
      var p := s'.plans[|s.plans|];
      assert s'.plans == s.plans + [p];
      FindAppend(s.plans, p, PlanOfSubcategory(subcategoryId));
      if Wf(s) {
        AppendPlanKeepsWf(s, p);
      }
      if OnePlanPerSubcategory(s) {
        assert forall i :: 0 <= i < |s.plans| ==> !PlanOfSubcategory(subcategoryId)(s.plans[i]);
        UniqueKeysAppend(s.plans, p, PlanSubcategoryKey);
      }
    }
  }

  /** Calling `create_plan` again for the same subcategory returns the same id, changes
      nothing, and ignores the new category, period and amount. */
  lemma CreatePlanIdempotent(s: Store, categoryId: Id, subcategoryId: Id, periodId: Id, amount: real, newId: Id,
                             categoryId2: Id, periodId2: Id, amount2: real, newId2: Id)
    requires Fresh(s, newId)
    requires CreatePlan(s, categoryId, subcategoryId, periodId, amount, newId).0.Some?
    requires Fresh(CreatePlan(s, categoryId, subcategoryId, periodId, amount, newId).1, newId2)
    ensures var (id, s') := CreatePlan(s, categoryId, subcategoryId, periodId, amount, newId);
      CreatePlan(s', categoryId2, subcategoryId, periodId2, amount2, newId2) == (id, s')
  {
    CreatePlanKeepsOnePlan(s, categoryId, subcategoryId, periodId, amount, newId);
  }

  /** A plan created for a subcategory without one, whose category and subcategory exist,
      reads back through `get_budget_by_subcategory` with the period's name and count and a
      forecast of amount times count. */
  lemma CreatePlanReadBack(s: Store, categoryId: Id, subcategoryId: Id, periodId: Id, amount: real, newId: Id)
    requires Fresh(s, newId)
    requires forall p :: p in s.plans ==> p.subcategoryId != subcategoryId
    requires FindPeriod(s, periodId).Some? && FindCategory(s, categoryId).Some? && FindSubcategory(s, subcategoryId).Some?
    ensures var s' := CreatePlan(s, categoryId, subcategoryId, periodId, amount, newId).1;
      var q := FindPeriod(s, periodId).value;
      var v := GetBudgetBySubcategory(s', subcategoryId);
      && v.Some?
      && v.value.plan == Plan(newId, categoryId, subcategoryId, periodId, amount, YearTotal(amount, q.count))
      && v.value.periodName == q.name && v.value.periodCount == q.count
      && v.value.categoryName == FindCategory(s, categoryId).value.name
      && v.value.subcategoryName == FindSubcategory(s, subcategoryId).value.name
  {
    var s' := CreatePlan(s, categoryId, subcategoryId, periodId, amount, newId).1;
    assert forall i :: 0 <= i < |s.plans| ==> !PlanOfSubcategory(subcategoryId)(s.plans[i]);
    var q := FindPeriod(s, periodId).value;
    NewPlanReadBack(s, s', Plan(newId, categoryId, subcategoryId, periodId, amount, YearTotal(amount, q.count)));
  }
}
