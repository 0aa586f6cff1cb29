/** Period.py: the catalog of planning periods, each with how many of it a year holds, and
    the default-period rule the plan engine and the subcategory store share. */
module Periods {
  import opened Common
  import opened Ledger

  /** The name of the preferred default period ("month"). */
  const MonthName: string := "Месяц"

  function PeriodNamed(name: string): Period -> bool { (p: Period) => p.name == name }

  /** `get_period_by_name`: the first period carrying that name, or `None`. */
  function GetPeriodByName(s: Store, name: string): (r: Option<Period>)
    ensures r.Some? ==> r.value in s.periods && r.value.name == name
    ensures r.None? <==> forall p :: p in s.periods ==> p.name != name
  {
    Find(s.periods, PeriodNamed(name))
  }

  /** `get_period_by_id` (the second definition in the class, which replaces the first; both
      run the same query): the period with that id, or `None`. */
  function GetPeriodById(s: Store, id: Id): (r: Option<Period>)
    ensures r.Some? ==> r.value in s.periods && r.value.id == id
    ensures r.None? <==> forall p :: p in s.periods ==> p.id != id
  {
    FindPeriod(s, id)
  }

  /** `create_period(name, period_count)`: idempotent by name. An existing name returns that
      period's id and changes nothing; a new name appends one period with the fresh id. */
  function CreatePeriod(s: Store, name: string, count: int, newId: Id): (r: (Option<Id>, Store))
    requires Fresh(s, newId)
    ensures r.0.Some?
    ensures GetPeriodByName(s, name).Some? ==> r == (Some(GetPeriodByName(s, name).value.id), s)
    ensures GetPeriodByName(s, name).None? ==>
      r.0 == Some(newId) && r.1.periods == s.periods + [Period(newId, name, count)]
    ensures r.1 == s.(periods := r.1.periods)
  {
    match GetPeriodByName(s, name)
    case Some(p) => (Some(p.id), s)
    case None => (Some(newId), s.(periods := s.periods + [Period(newId, name, count)]))
  }

  /** Period names are unique: no two periods share a name. */
  ghost predicate UniqueNames(s: Store) {
    forall i, j :: 0 <= i < |s.periods| && 0 <= j < |s.periods| && s.periods[i].name == s.periods[j].name ==> i == j
  }

  /** After `create_period(name, c)` the name resolves, to the id the call returned; under this
      API period names stay unique and ids stay keys. */
  lemma CreatePeriodResolves(s: Store, name: string, count: int, newId: Id)
    requires Fresh(s, newId)
    ensures var (id, s') := CreatePeriod(s, name, count, newId);
      GetPeriodByName(s', name).Some? && Some(GetPeriodByName(s', name).value.id) == id
    ensures UniqueNames(s) ==> UniqueNames(CreatePeriod(s, name, count, newId).1)
    ensures Wf(s) ==> Wf(CreatePeriod(s, name, count, newId).1)
  {
    var p := Period(newId, name, count);
    if GetPeriodByName(s, name).None? {
      FindAppend(s.periods, p, PeriodNamed(name));
      FreshFacts(s, newId);
      if Wf(s) {
        UniqueKeysAppend(s.periods, p, PeriodKey);
      }
    }
  }

  /** Calling `create_period` again with the same name returns the same id and changes nothing. */
  lemma CreatePeriodIdempotent(s: Store, name: string, count: int, count2: int, newId: Id, newId2: Id)
    requires Fresh(s, newId)
    requires Fresh(CreatePeriod(s, name, count, newId).1, newId2)
    ensures var (id, s') := CreatePeriod(s, name, count, newId);
      CreatePeriod(s', name, count2, newId2) == (id, s')
  {
    CreatePeriodResolves(s, name, count, newId);
  }

  /** The `ORDER BY period_count` of `get_all_periods`. */
  predicate CountOrder(a: Period, b: Period) {
    a.count <= b.count
  }

  /** `get_all_periods`: every period, each once per row, by `period_count` ascending. */
  function GetAllPeriods(s: Store): (r: seq<Period>)
    ensures SortedBy(r, CountOrder)
    ensures multiset(r) == multiset(s.periods)
  {
    SortBy(s.periods, CountOrder)
  }

  /** The default period of a new plan: the period named "Месяц" when there is one,
      otherwise the first period of the table (`LIMIT 1`), and none for an empty catalog. */
  function DefaultPeriod(s: Store): (r: Option<Period>)
    ensures r.None? <==> |s.periods| == 0
    ensures r.Some? ==> r.value in s.periods
    ensures (exists p :: p in s.periods && p.name == MonthName) ==> r.Some? && r.value.name == MonthName
    ensures (forall p :: p in s.periods ==> p.name != MonthName) && |s.periods| > 0 ==> r == Some(s.periods[0])
  {
    match GetPeriodByName(s, MonthName)
    case Some(p) => Some(p)
    case None => if |s.periods| == 0 then None else Some(s.periods[0])
  }
}
