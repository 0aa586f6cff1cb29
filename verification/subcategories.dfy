/** Subcategory.py: subcategories of a category. Creating one also gives it a default plan. */
module Subcategories {
  import opened Common
  import opened Ledger
  import opened Periods
  import opened Plans

  /** The length of a uuid4's text form: identifiers of this length are looked up as ids,
      all others as names. */
  const UuidLength := 36

  function CategoryNamed(name: string): Category -> bool { (c: Category) => c.name == name }

  /** The category an identifier designates in `create_subcategory`: by id when the text has
      the length of a uuid, otherwise the first category with that name. */
  function ResolveCategory(s: Store, identifier: string): (r: Option<Category>)
    ensures r.Some? ==> r.value in s.categories
    ensures |identifier| == UuidLength ==> (r.Some? <==> exists c :: c in s.categories && c.id == identifier)
    ensures |identifier| != UuidLength ==> (r.Some? <==> exists c :: c in s.categories && c.name == identifier)
    ensures r.Some? ==> if |identifier| == UuidLength then r.value.id == identifier else r.value.name == identifier
  {
    if |identifier| == UuidLength then FindCategory(s, identifier) else Find(s.categories, CategoryNamed(identifier))
  }

  /** `SELECT * FROM subcategories WHERE category_id = ? AND name = ?` finds a row. */
  predicate NameTakenIn(s: Store, categoryId: Id, name: string) {
    exists x :: x in s.subcategories && x.categoryId == categoryId && x.name == name
  }

  /** The default period's count as `create_subcategory` reads it back, or 12 if it cannot. */
  function DefaultCount(s: Store, q: Period): int {
    match GetPeriodById(s, q.id)
    case Some(p) => p.count
    case None => 12
  }

  /** `create_subcategory(category_identifier, name)`; `newId` and `planId` are the two uuids
      the call generates. An unresolved category, or a subcategory of exactly that name in the
      category, gives `None` with nothing stored. Otherwise the subcategory is appended and,
      when the period catalog is not empty, a plan of amount 0 on the default period. */
  function CreateSubcategory(s: Store, identifier: string, name: string, newId: Id, planId: Id): (r: (Option<Id>, Store))
    requires Fresh(s, newId) && Fresh(s, planId) && newId != planId
    ensures r.0.Some? <==> ResolveCategory(s, identifier).Some? && !NameTakenIn(s, ResolveCategory(s, identifier).value.id, name)
    ensures r.0.None? ==> r.1 == s
    ensures r.0.Some? ==>
      var c := ResolveCategory(s, identifier).value;
      && r.0.value == newId
      && r.1.subcategories == s.subcategories + [Subcategory(newId, c.id, name)]
      && r.1.plans == s.plans + (if |s.periods| == 0 then [] else [Plan(planId, c.id, newId, DefaultPeriod(s).value.id, 0.0, 0.0)])
    ensures r.1 == s.(subcategories := r.1.subcategories, plans := r.1.plans)
  {
    match ResolveCategory(s, identifier)
    case None => (None, s)
    case Some(c) =>
      if Find(s.subcategories, SubcategoryNamedIn(c.id, name)).Some? then
        (None, s)
      else
        var x := Subcategory(newId, c.id, name);
        var s' := s.(subcategories := s.subcategories + [x]);
        match DefaultPeriod(s')
        case None => (Some(newId), s')
        case Some(q) =>
          var amount := 0.0;
          var p := Plan(planId, c.id, newId, q.id, amount, YearTotal(amount, DefaultCount(s', q)));
          (Some(newId), s'.(plans := s'.plans + [p]))
  }

  function SubcategoryNamedIn(categoryId: Id, name: string): Subcategory -> bool {
    (x: Subcategory) => x.categoryId == categoryId && x.name == name
  }

  // ---------------------------------------------------------------------------
  // The joined view of a subcategory
  // ---------------------------------------------------------------------------

  /** A subcategory with its category's name, as the listings return it. */
  datatype SubcategoryView = SubcategoryView(id: Id, categoryId: Id, name: string, categoryName: string)

  /** `JOIN categories c ON s.category_id = c.id`: no view when the category is missing. */
  function ViewOf(s: Store, x: Subcategory): Option<SubcategoryView> {
    match FindCategory(s, x.categoryId)
    case None => None
    case Some(c) => Some(SubcategoryView(x.id, x.categoryId, x.name, c.name))
  }

  function ViewIn(s: Store): Subcategory -> Option<SubcategoryView> { (x: Subcategory) => ViewOf(s, x) }

  /** The join of subcategories with their categories, in table order. */
  function Views(s: Store): seq<SubcategoryView> {
    FilterMap(s.subcategories, ViewIn(s))
  }

  /** A view comes from a stored subcategory and a stored category it references. */
  ghost predicate ViewFrom(s: Store, v: SubcategoryView) {
    && Subcategory(v.id, v.categoryId, v.name) in s.subcategories
    && exists c :: c in s.categories && c.id == v.categoryId && c.name == v.categoryName
  }

  /** The join has a view for exactly the subcategories whose category exists. */
  lemma ViewsJoin(s: Store)
    ensures forall v :: v in Views(s) ==> ViewFrom(s, v)
    ensures forall x :: x in s.subcategories ==>
      ((exists v :: v in Views(s) && v.id == x.id && v.categoryId == x.categoryId && v.name == x.name)
        <==> exists c :: c in s.categories && c.id == x.categoryId)
  {
    var r := Views(s);
    forall v | v in r ensures ViewFrom(s, v) {
      var i :| 0 <= i < |s.subcategories| && ViewIn(s)(s.subcategories[i]) == Some(v);
      assert s.subcategories[i] == Subcategory(v.id, v.categoryId, v.name);
      assert FindCategory(s, v.categoryId).value in s.categories;
    }
    forall x | x in s.subcategories
      ensures (exists v :: v in r && v.id == x.id && v.categoryId == x.categoryId && v.name == x.name)
        <==> exists c :: c in s.categories && c.id == x.categoryId
    {
      var i :| 0 <= i < |s.subcategories| && s.subcategories[i] == x;
      if exists c :: c in s.categories && c.id == x.categoryId {
        var c :| c in s.categories && c.id == x.categoryId;
        FindSome(s.categories, CategoryWithId(x.categoryId), c);
        assert ViewIn(s)(s.subcategories[i]).Some?;
        assert ViewIn(s)(s.subcategories[i]).value in r;
      }
      if exists v :: v in r && v.id == x.id && v.categoryId == x.categoryId && v.name == x.name {
        var v :| v in r && v.id == x.id && v.categoryId == x.categoryId && v.name == x.name;
        assert ViewFrom(s, v);
      }
    }
  }

  // ---------------------------------------------------------------------------
  // get_all_subcategories / get_subcategory_by_id
  // ---------------------------------------------------------------------------

  /** `ORDER BY s.name` of the filtered listing. */
  predicate ViewNameOrder(a: SubcategoryView, b: SubcategoryView) {
    StrLe(a.name, b.name)
  }

  /** `ORDER BY c.name, s.name` of the unfiltered listing. */
  predicate ViewCategoryOrder(a: SubcategoryView, b: SubcategoryView) {
    var c := StrCmp(a.categoryName, b.categoryName);
    c < 0 || (c == 0 && StrLe(a.name, b.name))
  }

  lemma ViewOrdersTotal()
    ensures TotalPreorder(ViewNameOrder)
    ensures TotalPreorder(ViewCategoryOrder)
  {
    forall a, b ensures ViewNameOrder(a, b) || ViewNameOrder(b, a) {
      StrCmpLaws(a.name, b.name, a.name);
    }
    forall a, b, c | ViewNameOrder(a, b) && ViewNameOrder(b, c) ensures ViewNameOrder(a, c) {
      StrCmpLaws(a.name, b.name, c.name);
    }
    forall a, b ensures ViewCategoryOrder(a, b) || ViewCategoryOrder(b, a) {
      StrCmpLaws(a.categoryName, b.categoryName, a.categoryName);
      StrCmpLaws(a.name, b.name, a.name);
    }
    forall a, b, c | ViewCategoryOrder(a, b) && ViewCategoryOrder(b, c) ensures ViewCategoryOrder(a, c) {
      StrCmpLaws(a.categoryName, b.categoryName, c.categoryName);
      StrCmpLaws(a.name, b.name, c.name);
    }
  }

  /** The `WHERE s.category_id = ?` filter, applied only when a category id is given. */
  predicate InCategory(v: SubcategoryView, categoryId: Option<Id>) {
    Given(categoryId) ==> v.categoryId == categoryId.value
  }

  /** `get_all_subcategories(category_id)`: the joined subcategories of the given category
      ordered by name, or all of them ordered by category name and then name; each once per
      stored row, and none whose category is missing. */
  function GetAllSubcategories(s: Store, categoryId: Option<Id>): (r: seq<SubcategoryView>)
    ensures Given(categoryId) ==> SortedBy(r, ViewNameOrder)
    ensures !Given(categoryId) ==> SortedBy(r, ViewCategoryOrder)
    ensures forall v :: v in r <==> v in Views(s) && InCategory(v, categoryId)
    ensures forall v :: multiset(r)[v] == if InCategory(v, categoryId) then multiset(Views(s))[v] else 0
  {
    var selected := Filter(Views(s), (v: SubcategoryView) => InCategory(v, categoryId));
    ViewOrdersTotal();
    var r := if Given(categoryId) then SortBy(selected, ViewNameOrder) else SortBy(selected, ViewCategoryOrder);
    SameElements(r, selected);
    r
  }

  function ViewWithId(id: Id): SubcategoryView -> bool { (v: SubcategoryView) => v.id == id }

  /** `get_subcategory_by_id`: the joined subcategory with that id, or `None` when there is
      none or its category is missing. */
  function GetSubcategoryById(s: Store, id: Id): (r: Option<SubcategoryView>)
    ensures r.Some? ==> r.value.id == id && ViewFrom(s, r.value)
    ensures r.None? <==> forall x :: x in s.subcategories && x.id == id ==> forall c :: c in s.categories ==> c.id != x.categoryId
  {
    ViewsJoin(s);
    ByIdFacts(s, id);
    Find(Views(s), ViewWithId(id))
  }

  lemma ByIdFacts(s: Store, id: Id)
    ensures Find(Views(s), ViewWithId(id)).None? <==>
      forall x :: x in s.subcategories && x.id == id ==> forall c :: c in s.categories ==> c.id != x.categoryId
  {
    ViewsJoin(s);
    var rows := Views(s);
    if exists x, c :: x in s.subcategories && x.id == id && c in s.categories && c.id == x.categoryId {
      var x, c :| x in s.subcategories && x.id == id && c in s.categories && c.id == x.categoryId;
      var v :| v in rows && v.id == x.id && v.categoryId == x.categoryId && v.name == x.name;
      FindSome(rows, ViewWithId(id), v);
    }
    if Find(rows, ViewWithId(id)).Some? {
      var v := Find(rows, ViewWithId(id)).value;
      assert ViewFrom(s, v);
      var c :| c in s.categories && c.id == v.categoryId && c.name == v.categoryName;
      assert Subcategory(v.id, v.categoryId, v.name) in s.subcategories;
    }
  }

  /** A successful create adds the new subcategory's view at the end of the join. */
  lemma CreateSubcategoryViews(s: Store, identifier: string, name: string, newId: Id, planId: Id)
    requires Fresh(s, newId) && Fresh(s, planId) && newId != planId
    requires CreateSubcategory(s, identifier, name, newId, planId).0.Some?
    ensures var c := ResolveCategory(s, identifier).value;
      var s' := CreateSubcategory(s, identifier, name, newId, planId).1;
      FindCategory(s, c.id).Some?
      && Views(s') == Views(s) + [SubcategoryView(newId, c.id, name, FindCategory(s, c.id).value.name)]
  {
    var c := ResolveCategory(s, identifier).value;
    var s' := CreateSubcategory(s, identifier, name, newId, planId).1;
    var x := Subcategory(newId, c.id, name);
    FindSome(s.categories, CategoryWithId(c.id), c);
    FilterMapExt(s.subcategories, ViewIn(s'), ViewIn(s));
    FilterMapAppend(s.subcategories, x, ViewIn(s'));
    assert s'.subcategories == s.subcategories + [x];
  }

  /** After a successful create the subcategory reads back through `get_subcategory_by_id`
      under its category's name. */
  lemma CreateSubcategoryReadBack(s: Store, identifier: string, name: string, newId: Id, planId: Id)
    requires Fresh(s, newId) && Fresh(s, planId) && newId != planId
    requires CreateSubcategory(s, identifier, name, newId, planId).0.Some?
    ensures var c := ResolveCategory(s, identifier).value;
      var s' := CreateSubcategory(s, identifier, name, newId, planId).1;
      GetSubcategoryById(s', newId) == Some(SubcategoryView(newId, c.id, name, FindCategory(s, c.id).value.name))
  {
    var c := ResolveCategory(s, identifier).value;
    var view := SubcategoryView(newId, c.id, name, FindCategory(s, c.id).value.name);
    FreshFacts(s, newId);
    CreateSubcategoryViews(s, identifier, name, newId, planId);
    ViewsJoin(s);
    forall i | 0 <= i < |Views(s)| ensures !ViewWithId(newId)(Views(s)[i]) {
      assert ViewFrom(s, Views(s)[i]);
    }
    FindAppend(Views(s), view, ViewWithId(newId));
  }

  /** A new subcategory has a budget, of amount and forecast 0 on the default period, exactly
      when the period catalog is not empty. */
  lemma CreateSubcategoryBudget(s: Store, identifier: string, name: string, newId: Id, planId: Id)
    requires Fresh(s, newId) && Fresh(s, planId) && newId != planId
    requires CreateSubcategory(s, identifier, name, newId, planId).0.Some?
    ensures var s' := CreateSubcategory(s, identifier, name, newId, planId).1;
      GetBudgetBySubcategory(s', newId).Some? <==> |s.periods| > 0
    ensures var s' := CreateSubcategory(s, identifier, name, newId, planId).1;
      GetBudgetBySubcategory(s', newId).Some? ==>
        GetBudgetBySubcategory(s', newId).value.plan
          == Plan(planId, ResolveCategory(s, identifier).value.id, newId, DefaultPeriod(s).value.id, 0.0, 0.0)
  {
    var c := ResolveCategory(s, identifier).value;
    var s' := CreateSubcategory(s, identifier, name, newId, planId).1;
    var x := Subcategory(newId, c.id, name);
    var s1 := s.(subcategories := s.subcategories + [x]);
    FreshFacts(s, newId);
    assert forall p :: p in s1.plans ==> p.subcategoryId != newId;
    if |s.periods| > 0 {
      var p := Plan(planId, c.id, newId, DefaultPeriod(s).value.id, 0.0, 0.0);
      assert s' == s1.(plans := s1.plans + [p]);
      FindSome(s1.subcategories, SubcategoryWithId(newId), x);
      FindSome(s1.periods, PeriodWithId(p.periodId), DefaultPeriod(s).value);
      FindSome(s1.categories, CategoryWithId(c.id), c);
      NewPlanReadBack(s1, s', p);
    } else {
      assert s'.plans == s.plans;
      assert forall p :: p in s'.plans ==> p.subcategoryId != newId;
    }
  }

  /** Creation keeps ids unique. */
  lemma CreateSubcategoryKeepsWf(s: Store, identifier: string, name: string, newId: Id, planId: Id)
    requires Fresh(s, newId) && Fresh(s, planId) && newId != planId
    requires Wf(s)
    ensures Wf(CreateSubcategory(s, identifier, name, newId, planId).1)
  {
    var (r, s') := CreateSubcategory(s, identifier, name, newId, planId);
    if r.Some? {
      var c := ResolveCategory(s, identifier).value;
      FreshFacts(s, newId);
      FreshFacts(s, planId);
      UniqueKeysAppend(s.subcategories, Subcategory(newId, c.id, name), SubcategoryKey);
      if |s.periods| > 0 {
        UniqueKeysAppend(s.plans, s'.plans[|s.plans|], PlanKey);
      }
    }
  }

  /** Creation keeps at most one plan per subcategory: the new plan is for the new id. */
  lemma CreateSubcategoryKeepsOnePlan(s: Store, identifier: string, name: string, newId: Id, planId: Id)
    requires Fresh(s, newId) && Fresh(s, planId) && newId != planId
    requires OnePlanPerSubcategory(s)
    ensures OnePlanPerSubcategory(CreateSubcategory(s, identifier, name, newId, planId).1)
  {
    var (r, s') := CreateSubcategory(s, identifier, name, newId, planId);
    if r.Some? && |s.periods| > 0 {
      FreshFacts(s, newId);
      UniqueKeysAppend(s.plans, s'.plans[|s.plans|], PlanSubcategoryKey);
    }
  }

  /** A second create with the same category and name is refused and changes nothing. */
  lemma CreateSubcategoryOnce(s: Store, identifier: string, name: string, newId: Id, planId: Id, newId2: Id, planId2: Id)
    requires Fresh(s, newId) && Fresh(s, planId) && newId != planId
    requires CreateSubcategory(s, identifier, name, newId, planId).0.Some?
    requires var s' := CreateSubcategory(s, identifier, name, newId, planId).1;
      Fresh(s', newId2) && Fresh(s', planId2) && newId2 != planId2
    ensures var s' := CreateSubcategory(s, identifier, name, newId, planId).1;
      CreateSubcategory(s', identifier, name, newId2, planId2) == (None, s')
  {
    var s' := CreateSubcategory(s, identifier, name, newId, planId).1;
    var c := ResolveCategory(s, identifier).value;
    var x := Subcategory(newId, c.id, name);
    assert ResolveCategory(s', identifier) == ResolveCategory(s, identifier);
    assert x in s'.subcategories;
    FindSome(s'.subcategories, SubcategoryNamedIn(c.id, name), x);
  }

  // ---------------------------------------------------------------------------
  // update_subcategory
  // ---------------------------------------------------------------------------

  function SubcategoryNamed(s: Store, name: string): Subcategory -> bool {
    (x: Subcategory) => x.name == name && FindCategory(s, x.categoryId).Some?
  }

  /** The subcategory `update_subcategory` and `delete_subcategory` act on when given an id:
      the row with that id, whether or not its category exists. Given a name (any other
      length), `update_subcategory` takes the first subcategory of that name whose category
      exists. */
  function LookupSubcategory(s: Store, identifier: string): (r: Option<Subcategory>)
    ensures r.Some? ==> r.value in s.subcategories
    ensures |identifier| == UuidLength ==> (r.Some? <==> exists x :: x in s.subcategories && x.id == identifier)
    ensures |identifier| != UuidLength ==>
      (r.Some? <==> exists x :: x in s.subcategories && x.name == identifier && FindCategory(s, x.categoryId).Some?)
    ensures r.Some? && |identifier| == UuidLength ==> r.value.id == identifier
    ensures r.Some? && |identifier| != UuidLength ==> r.value.name == identifier && FindCategory(s, r.value.categoryId).Some?
  {
    if |identifier| == UuidLength then FindSubcategory(s, identifier)
    else Find(s.subcategories, SubcategoryNamed(s, identifier))
  }

  /** The menu choice and its follow-up answer (already stripped): cancel, a new name, a new
      category id, or an answer outside the menu. */
  datatype SubcategoryEdit = Cancel | Rename(name: string) | MoveTo(categoryId: Id) | BadChoice

  /** What an edit does to the chosen row; an empty answer changes nothing. */
  function ApplyEdit(x: Subcategory, edit: SubcategoryEdit): Subcategory {
    match edit
    case Rename(n) => if n != "" then x.(name := n) else x
    case MoveTo(c) => if c != "" then x.(categoryId := c) else x
    case _ => x
  }

  /** `update_subcategory(identifier)`: every row with the chosen subcategory's id takes the
      edit. A new category id is stored without checking that the category exists. */
  function UpdateSubcategory(s: Store, identifier: string, edit: SubcategoryEdit): (r: Store)
    ensures LookupSubcategory(s, identifier).None? ==> r == s
    ensures edit.Cancel? || edit.BadChoice? || edit == Rename("") || edit == MoveTo("") ==> r == s
    ensures |r.subcategories| == |s.subcategories|
    ensures forall i :: 0 <= i < |s.subcategories| ==>
      r.subcategories[i] ==
        if LookupSubcategory(s, identifier).Some? && s.subcategories[i].id == LookupSubcategory(s, identifier).value.id
        then ApplyEdit(s.subcategories[i], edit) else s.subcategories[i]
    ensures r == s.(subcategories := r.subcategories)
  {
    match LookupSubcategory(s, identifier)
    case None => s
    case Some(x) =>
      s.(subcategories := seq(|s.subcategories|, i requires 0 <= i < |s.subcategories| =>
        if s.subcategories[i].id == x.id then ApplyEdit(s.subcategories[i], edit) else s.subcategories[i]))
  }

  /** After an update the chosen subcategory reads back by id with the edit applied. */
  lemma UpdateSubcategoryReadBack(s: Store, identifier: string, edit: SubcategoryEdit)
    requires LookupSubcategory(s, identifier).Some?
    ensures var id := LookupSubcategory(s, identifier).value.id;
      FindSubcategory(UpdateSubcategory(s, identifier, edit), id) == Some(ApplyEdit(FindSubcategory(s, id).value, edit))
  {
    var id := LookupSubcategory(s, identifier).value.id;
    var s' := UpdateSubcategory(s, identifier, edit);
    FindAfterRewrite(s.subcategories, s'.subcategories, SubcategoryWithId(id));
  }

  /** An update never changes an id, so ids stay unique. */
  lemma UpdateSubcategoryKeepsWf(s: Store, identifier: string, edit: SubcategoryEdit)
    requires Wf(s)
    ensures Wf(UpdateSubcategory(s, identifier, edit))
  {
    if LookupSubcategory(s, identifier).Some? {
      UniqueKeysRewrite(s.subcategories, UpdateSubcategory(s, identifier, edit).subcategories, SubcategoryKey);
    }
  }

  /** Moving a subcategory to a category id that does not exist is accepted, and hides the
      subcategory from every joined lookup. */
  lemma MoveToMissingCategoryHides(s: Store, identifier: string, categoryId: Id)
    requires LookupSubcategory(s, identifier).Some?
    requires categoryId != "" && forall c :: c in s.categories ==> c.id != categoryId
    ensures GetSubcategoryById(UpdateSubcategory(s, identifier, MoveTo(categoryId)), LookupSubcategory(s, identifier).value.id).None?
  {
    var id := LookupSubcategory(s, identifier).value.id;
    var s' := UpdateSubcategory(s, identifier, MoveTo(categoryId));
    forall x | x in s'.subcategories && x.id == id ensures forall c :: c in s'.categories ==> c.id != x.categoryId {
      var i :| 0 <= i < |s'.subcategories| && s'.subcategories[i] == x;
      assert x.categoryId == categoryId;
    }
  }

  // ---------------------------------------------------------------------------
  // delete_subcategory
  // ---------------------------------------------------------------------------

  function ViewNamed(name: string): SubcategoryView -> bool { (v: SubcategoryView) => v.name == name }

  /** The id `delete_subcategory` deletes: for an id-length identifier the row with that id;
      for a name, the `pick`-th (from 1) of the joined subcategories with that name, and none
      when `pick` is out of range (an answer that is not a number behaves like 0). */
  function DeleteTarget(s: Store, identifier: string, pick: int): (r: Option<Id>)
    ensures |identifier| == UuidLength ==>
      (r.Some? <==> exists x :: x in s.subcategories && x.id == identifier) && (r.Some? ==> r.value == identifier)
    ensures |identifier| != UuidLength ==>
      var matches := Filter(Views(s), ViewNamed(identifier));
      (r.Some? <==> 1 <= pick <= |matches|) && (r.Some? ==> r.value == matches[pick - 1].id)
    ensures |identifier| != UuidLength && r.Some? ==>
      exists x :: x in s.subcategories && x.id == r.value && x.name == identifier
        && exists c :: c in s.categories && c.id == x.categoryId
  {
    if |identifier| == UuidLength then
      match FindSubcategory(s, identifier)
      case None => None
      case Some(x) => Some(x.id)
    else
      var matches := Filter(Views(s), ViewNamed(identifier));
      if 1 <= pick <= |matches| then
        NamedViewFrom(s, identifier, matches[pick - 1]);
        Some(matches[pick - 1].id)
      else None
  }

  /** A joined row with a given name is a stored subcategory of that name whose category exists. */
  lemma NamedViewFrom(s: Store, name: string, v: SubcategoryView)
    requires v in Filter(Views(s), ViewNamed(name))
    ensures exists x ::
      x in s.subcategories && x.id == v.id && x.name == name && exists c :: c in s.categories && c.id == x.categoryId
  {
    ViewsJoin(s);
    var x := Subcategory(v.id, v.categoryId, v.name);
    assert x in s.subcategories;
  }

  /** `delete_subcategory(identifier)`; `confirmed` is the answer `y` to the prompt. Only the
      subcategory rows go: its plans and operations stay, since foreign keys are not enforced. */
  function DeleteSubcategory(s: Store, identifier: string, pick: int, confirmed: bool): (r: (bool, Store))
    ensures r.0 <==> DeleteTarget(s, identifier, pick).Some? && confirmed
    ensures !r.0 ==> r.1 == s
    ensures r.0 ==> forall x :: x in r.1.subcategories <==> x in s.subcategories && x.id != DeleteTarget(s, identifier, pick).value
    ensures r.1 == s.(subcategories := r.1.subcategories)
  {
    match DeleteTarget(s, identifier, pick)
    case None => (false, s)
    case Some(id) =>
      if confirmed then (true, s.(subcategories := Filter(s.subcategories, (x: Subcategory) => x.id != id)))
      else (false, s)
  }

  /** A deleted subcategory is gone by id and from the listings, ids stay unique, and its plans
      are left behind unchanged. */
  lemma DeleteSubcategoryLeavesPlans(s: Store, identifier: string, pick: int)
    requires DeleteSubcategory(s, identifier, pick, true).0
    ensures var id := DeleteTarget(s, identifier, pick).value;
      var s' := DeleteSubcategory(s, identifier, pick, true).1;
      && FindSubcategory(s', id).None?
      && GetSubcategoryById(s', id).None?
      && PlansOf(s'.plans, id) == PlansOf(s.plans, id)
    ensures Wf(s) ==> Wf(DeleteSubcategory(s, identifier, pick, true).1)
  {
    var id := DeleteTarget(s, identifier, pick).value;
    if Wf(s) {
      UniqueKeysFilter(s.subcategories, (x: Subcategory) => x.id != id, SubcategoryKey);
    }
  }
}
