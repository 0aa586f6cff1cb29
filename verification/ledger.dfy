/** The ledger's records and the store that holds them.

    Each SQLite table is a sequence of rows in insertion (rowid) order. Queries in the source
    without an ORDER BY (`fetch_one`, `LIMIT 1`) return the first matching row in that order.
    Identifiers are opaque strings (uuid4 text in the source). */
module Ledger {
  import opened Common

  type Id = string

  /** The two values the `type` column's CHECK constraint admits. */
  datatype Kind = Income | Expense

  /** The text stored in a `type` column. */
  function KindName(k: Kind): string {
    match k
    case Income => "income"
    case Expense => "expense"
  }

  /** The `CHECK (type IN ('income', 'expense'))` constraint of the categories and operations
      tables: any other text makes the INSERT raise, which the managers turn into `None`. */
  function ParseKind(t: string): (r: Option<Kind>)
    ensures r.Some? <==> t == "income" || t == "expense"
    ensures r.Some? ==> KindName(r.value) == t
  {
    if t == "income" then Some(Income)
    else if t == "expense" then Some(Expense)
    else None
  }

  lemma ParseKindName(k: Kind)
    ensures ParseKind(KindName(k)) == Some(k)
  {
  }

  datatype Category = Category(id: Id, name: string, kind: Kind)

  datatype Subcategory = Subcategory(id: Id, categoryId: Id, name: string)

  /** A planning period; `count` is how many such periods a year holds. */
  datatype Period = Period(id: Id, name: string, count: int)

  /** A row of `plan_subcategories`: the per-period amount and its yearly forecast. */
  datatype Plan = Plan(id: Id, categoryId: Id, subcategoryId: Id, periodId: Id, amount: real, forecast: real)

  /** A row of `plan_subcategory_history`; `changedAt` is the timestamp text the source takes
      from the clock. */
  datatype PlanHistory = PlanHistory(id: Id, planId: Id, changedAt: string, oldAmount: real, newAmount: real)

  datatype Operation = Operation(
    id: Id,
    kind: Kind,
    categoryId: Id,
    subcategoryId: Option<Id>,
    amount: real,
    date: string,
    description: Option<string>)

  datatype Store = Store(
    categories: seq<Category>,
    subcategories: seq<Subcategory>,
    periods: seq<Period>,
    plans: seq<Plan>,
    history: seq<PlanHistory>,
    operations: seq<Operation>)

  const EmptyStore := Store([], [], [], [], [], [])

  // ---------------------------------------------------------------------------
  // Primary keys and fresh identifiers
  // ---------------------------------------------------------------------------

  function CategoryKey(c: Category): Id { c.id }
  function SubcategoryKey(x: Subcategory): Id { x.id }
  function PeriodKey(p: Period): Id { p.id }
  function PlanKey(p: Plan): Id { p.id }
  function HistoryKey(h: PlanHistory): Id { h.id }
  function OperationKey(o: Operation): Id { o.id }

  /** Every table's `id` column is a primary key. */
  ghost predicate Wf(s: Store) {
    && UniqueKeys(s.categories, CategoryKey)
    && UniqueKeys(s.subcategories, SubcategoryKey)
    && UniqueKeys(s.periods, PeriodKey)
    && UniqueKeys(s.plans, PlanKey)
    && UniqueKeys(s.history, HistoryKey)
    && UniqueKeys(s.operations, OperationKey)
  }

  /** Every identifier the store mentions, as a key or as a reference. */
  ghost function UsedIds(s: Store): set<Id> {
    (set c | c in s.categories :: c.id)
    + (set x | x in s.subcategories :: x.id)
    + (set x | x in s.subcategories :: x.categoryId)
    + (set p | p in s.periods :: p.id)
    + (set p | p in s.plans :: p.id)
    + (set p | p in s.plans :: p.categoryId)
    + (set p | p in s.plans :: p.subcategoryId)
    + (set p | p in s.plans :: p.periodId)
    + (set h | h in s.history :: h.id)
    + (set h | h in s.history :: h.planId)
    + (set o | o in s.operations :: o.id)
    + (set o | o in s.operations :: o.categoryId)
    + (set o | o in s.operations && o.subcategoryId.Some? :: o.subcategoryId.value)
  }

  /** A newly generated uuid4: it collides with nothing the store holds. */
  ghost predicate Fresh(s: Store, id: Id) {
    id !in UsedIds(s)
  }

  lemma FreshFacts(s: Store, id: Id)
    requires Fresh(s, id)
    ensures forall c :: c in s.categories ==> c.id != id
    ensures forall x :: x in s.subcategories ==> x.id != id && x.categoryId != id
    ensures forall p :: p in s.periods ==> p.id != id
    ensures forall p :: p in s.plans ==> p.id != id && p.subcategoryId != id
    ensures forall h :: h in s.history ==> h.id != id
    ensures forall o :: o in s.operations ==> o.id != id
  {
    forall c | c in s.categories ensures c.id != id {
      assert c.id in (set c | c in s.categories :: c.id);
    }
    forall x | x in s.subcategories ensures x.id != id && x.categoryId != id {
      assert x.id in (set x | x in s.subcategories :: x.id);
      assert x.categoryId in (set x | x in s.subcategories :: x.categoryId);
    }
    forall p | p in s.periods ensures p.id != id {
      assert p.id in (set p | p in s.periods :: p.id);
    }
    forall p | p in s.plans ensures p.id != id && p.subcategoryId != id {
      assert p.id in (set p | p in s.plans :: p.id);
      assert p.subcategoryId in (set p | p in s.plans :: p.subcategoryId);
    }
    forall h | h in s.history ensures h.id != id {
      assert h.id in (set h | h in s.history :: h.id);
    }
    forall o | o in s.operations ensures o.id != id {
      assert o.id in (set o | o in s.operations :: o.id);
    }
  }

  // ---------------------------------------------------------------------------
  // Primary-key lookups (`SELECT * FROM t WHERE id = ?` with `fetch_one`)
  // ---------------------------------------------------------------------------

  /** Row selectors for `WHERE id = ?`, named so that every lookup uses the same predicate. */
  function CategoryWithId(id: Id): Category -> bool { (c: Category) => c.id == id }
  function SubcategoryWithId(id: Id): Subcategory -> bool { (x: Subcategory) => x.id == id }
  function PeriodWithId(id: Id): Period -> bool { (p: Period) => p.id == id }
  function PlanWithId(id: Id): Plan -> bool { (p: Plan) => p.id == id }

  function FindCategory(s: Store, id: Id): Option<Category> {
    Find(s.categories, CategoryWithId(id))
  }

  function FindSubcategory(s: Store, id: Id): Option<Subcategory> {
    Find(s.subcategories, SubcategoryWithId(id))
  }

  function FindPeriod(s: Store, id: Id): Option<Period> {
    Find(s.periods, PeriodWithId(id))
  }

  function FindPlan(s: Store, id: Id): Option<Plan> {
    Find(s.plans, PlanWithId(id))
  }

  /** With unique keys, a lookup by id returns exactly the row that carries the id. */
  lemma FindCategoryUnique(s: Store, c: Category)
    requires Wf(s) && c in s.categories
    ensures FindCategory(s, c.id) == Some(c)
  {
    var r := FindCategory(s, c.id);
    var i :| 0 <= i < |s.categories| && s.categories[i] == r.value;
    var j :| 0 <= j < |s.categories| && s.categories[j] == c;
    assert CategoryKey(s.categories[i]) == CategoryKey(s.categories[j]);
  }
}
