/** Operation.py: income and expense operations. */
module Operations {
  import opened Common
  import opened Ledger
  import opened Dates

  /** `create_operation(type_, category_id, subcategory_id, amount, date, description)`: one new
      row; a type outside the CHECK constraint stores nothing and gives `None`. The category and
      subcategory ids are stored as given. */
  function CreateOperation(s: Store, type_: string, categoryId: Id, subcategoryId: Option<Id>, amount: real,
                           date: string, description: Option<string>, newId: Id): (r: (Option<Id>, Store))
    requires Fresh(s, newId)
    ensures ParseKind(type_).None? ==> r == (None, s)
    ensures ParseKind(type_).Some? ==>
      && r.0 == Some(newId)
      && r.1.operations == s.operations + [Operation(newId, ParseKind(type_).value, categoryId, subcategoryId, amount, date, description)]
    ensures r.1 == s.(operations := r.1.operations)
  {
    match ParseKind(type_)
    case None => (None, s)
    case Some(k) =>
      (Some(newId), s.(operations := s.operations + [Operation(newId, k, categoryId, subcategoryId, amount, date, description)]))
  }

  // ---------------------------------------------------------------------------
  // The joined view of an operation
  // ---------------------------------------------------------------------------

  /** An operation with its category's name and, when it resolves, its subcategory's name. */
  datatype OperationView = OperationView(op: Operation, categoryName: string, subcategoryName: Option<string>)

  /** `LEFT JOIN subcategories s ON o.subcategory_id = s.id`: a missing or unset subcategory
      gives no name. */
  function SubcategoryName(s: Store, subcategoryId: Option<Id>): Option<string> {
    match subcategoryId
    case None => None
    case Some(id) =>
      match FindSubcategory(s, id)
      case None => None
      case Some(x) => Some(x.name)
  }

  /** `JOIN categories c ON o.category_id = c.id`: no view when the category is missing. */
  function OperationViewOf(s: Store, o: Operation): Option<OperationView> {
    match FindCategory(s, o.categoryId)
    case None => None
    case Some(c) => Some(OperationView(o, c.name, SubcategoryName(s, o.subcategoryId)))
  }

  function OperationViewIn(s: Store): Operation -> Option<OperationView> { (o: Operation) => OperationViewOf(s, o) }

  /** The join of the operations with their categories and subcategories, in table order. */
  function OperationViews(s: Store): seq<OperationView> {
    FilterMap(s.operations, OperationViewIn(s))
  }

  /** The view's columns come from a stored operation, the category it references and, when
      named, the subcategory it references. */
  ghost predicate OperationViewFrom(s: Store, v: OperationView) {
    && v.op in s.operations
    && (exists c :: c in s.categories && c.id == v.op.categoryId && c.name == v.categoryName)
    && (v.subcategoryName.Some? ==>
          v.op.subcategoryId.Some?
          && exists x :: x in s.subcategories && x.id == v.op.subcategoryId.value && x.name == v.subcategoryName.value)
    && (v.subcategoryName.None? ==>
          v.op.subcategoryId.None? || forall x :: x in s.subcategories ==> x.id != v.op.subcategoryId.value)
  }

  /** The join keeps exactly the operations whose category exists, one view each. */
  lemma OperationViewsJoin(s: Store)
    ensures forall v :: v in OperationViews(s) ==> OperationViewFrom(s, v)
    ensures forall o :: o in s.operations ==>
      ((exists v :: v in OperationViews(s) && v.op == o) <==> exists c :: c in s.categories && c.id == o.categoryId)
  {
    var r := OperationViews(s);
    forall v | v in r ensures OperationViewFrom(s, v) {
      var i :| 0 <= i < |s.operations| && OperationViewIn(s)(s.operations[i]) == Some(v);
      assert FindCategory(s, v.op.categoryId).value in s.categories;
      if v.op.subcategoryId.Some? && FindSubcategory(s, v.op.subcategoryId.value).Some? {
        assert FindSubcategory(s, v.op.subcategoryId.value).value in s.subcategories;
      }
    }
    forall o | o in s.operations
      ensures (exists v :: v in r && v.op == o) <==> exists c :: c in s.categories && c.id == o.categoryId
    {
      var i :| 0 <= i < |s.operations| && s.operations[i] == o;
      if exists c :: c in s.categories && c.id == o.categoryId {
        var c :| c in s.categories && c.id == o.categoryId;
        FindSome(s.categories, CategoryWithId(o.categoryId), c);
        assert OperationViewIn(s)(s.operations[i]).Some?;
        assert OperationViewIn(s)(s.operations[i]).value in r;
      }
      if exists v :: v in r && v.op == o {
        var v :| v in r && v.op == o;
        assert OperationViewFrom(s, v);
      }
    }
  }

  // ---------------------------------------------------------------------------
  // get_all_operations / get_operation_by_id
  // ---------------------------------------------------------------------------

  /** The filters of `get_all_operations`, each applied only when its argument is given:
      `o.type = ?`, `o.date >= ?`, `o.date <= ?`, the dates compared as text. The `DATETIME`
      column has NUMERIC affinity, so SQLite would compare a date that reads as a number
      numerically; such values are outside this model. */
  predicate OperationSelected(v: OperationView, start: Option<string>, end: Option<string>, type_: Option<string>) {
    && (Given(type_) ==> KindName(v.op.kind) == type_.value)
    && (Given(start) ==> StrLe(start.value, v.op.date))
    && (Given(end) ==> StrLe(v.op.date, end.value))
  }

  /** `ORDER BY o.date DESC`. */
  predicate LaterFirst(a: OperationView, b: OperationView) {
    StrLe(b.op.date, a.op.date)
  }

  lemma LaterFirstTotal()
    ensures TotalPreorder(LaterFirst)
  {
    forall a, b ensures LaterFirst(a, b) || LaterFirst(b, a) {
      StrCmpLaws(a.op.date, b.op.date, a.op.date);
    }
    forall a, b, c | LaterFirst(a, b) && LaterFirst(b, c) ensures LaterFirst(a, c) {
      StrCmpLaws(c.op.date, b.op.date, a.op.date);
    }
  }

  /** `get_all_operations(start_date, end_date, type_)`: the joined operations the filters
      select, each once per stored row, latest date first. */
  function GetAllOperations(s: Store, start: Option<string>, end: Option<string>, type_: Option<string>): (r: seq<OperationView>)
    ensures SortedBy(r, LaterFirst)
    ensures forall v :: v in r <==> v in OperationViews(s) && OperationSelected(v, start, end, type_)
    ensures forall v :: multiset(r)[v] == if OperationSelected(v, start, end, type_) then multiset(OperationViews(s))[v] else 0
  {
    var selected := Filter(OperationViews(s), (v: OperationView) => OperationSelected(v, start, end, type_));
    LaterFirstTotal();
    var r := SortBy(selected, LaterFirst);
    SameElements(r, selected);
    r
  }

  /** With both bounds given, the filter is the two text comparisons. */
  lemma SelectedBetween(v: OperationView, start: string, end: string)
    requires start != "" && end != ""
    ensures OperationSelected(v, Some(start), Some(end), None) <==> StrLe(start, v.op.date) && StrLe(v.op.date, end)
  {
  }

  /** When every date involved is written `YYYY-MM-DD`, the text filter selects by calendar
      date: an operation is listed exactly when its date is not before `start` and not after
      `end`. */
  lemma DateFilterIsChronological(v: OperationView, start: string, end: string)
    requires ValidateIsoDate(v.op.date) && ValidateIsoDate(start) && ValidateIsoDate(end)
    ensures OperationSelected(v, Some(start), Some(end), None) <==>
      DateCmp(ParseDate(start).value, ParseDate(v.op.date).value) <= 0
      && DateCmp(ParseDate(v.op.date).value, ParseDate(end).value) <= 0
  {
    IsoDateLength(start);
    IsoDateLength(end);
    SelectedBetween(v, start, end);
    IsoDatesCompareChronologically(start, v.op.date);
    IsoDatesCompareChronologically(v.op.date, end);
  }

  function OperationViewWithId(id: Id): OperationView -> bool { (v: OperationView) => v.op.id == id }

  /** `get_operation_by_id`: the first joined operation with that id; an operation whose
      category is missing is not found. */
  function GetOperationById(s: Store, id: Id): (r: Option<OperationView>)
    ensures r.Some? ==> r.value.op.id == id && OperationViewFrom(s, r.value)
    ensures r.None? <==> forall o :: o in s.operations && o.id == id ==> forall c :: c in s.categories ==> c.id != o.categoryId
  {
    OperationViewsJoin(s);
    OperationByIdFacts(s, id);
    Find(OperationViews(s), OperationViewWithId(id))
  }

  lemma OperationByIdFacts(s: Store, id: Id)
    ensures Find(OperationViews(s), OperationViewWithId(id)).None? <==>
      forall o :: o in s.operations && o.id == id ==> forall c :: c in s.categories ==> c.id != o.categoryId
  {
    OperationViewsJoin(s);
    var rows := OperationViews(s);
    if exists o, c :: o in s.operations && o.id == id && c in s.categories && c.id == o.categoryId {
      var o, c :| o in s.operations && o.id == id && c in s.categories && c.id == o.categoryId;
      var v :| v in rows && v.op == o;
      FindSome(rows, OperationViewWithId(id), v);
    }
    if Find(rows, OperationViewWithId(id)).Some? {
      var v := Find(rows, OperationViewWithId(id)).value;
      assert OperationViewFrom(s, v);
    }
  }

  /** The joined view of an operation reads only the categories and subcategories. */
  lemma OperationViewOfFrame(s: Store, t: Store, o: Operation)
    requires s.categories == t.categories && s.subcategories == t.subcategories
    ensures OperationViewOf(s, o) == OperationViewOf(t, o)
  {
    assert FindCategory(s, o.categoryId) == FindCategory(t, o.categoryId);
    assert SubcategoryName(s, o.subcategoryId) == SubcategoryName(t, o.subcategoryId);
  }

  /** Appending an operation adds its view, if its category exists, at the end of the join. */
  lemma OperationViewsAppend(s: Store, o: Operation)
    ensures OperationViews(s.(operations := s.operations + [o])) ==
      OperationViews(s) + (if OperationViewOf(s, o).Some? then [OperationViewOf(s, o).value] else [])
  {
    var s' := s.(operations := s.operations + [o]);
    assert s'.categories == s.categories && s'.subcategories == s.subcategories;
    forall k | 0 <= k < |s.operations| ensures OperationViewIn(s')(s.operations[k]) == OperationViewIn(s)(s.operations[k]) {
      OperationViewOfFrame(s', s, s.operations[k]);
    }
    FilterMapExt(s.operations, OperationViewIn(s'), OperationViewIn(s));
    FilterMapAppend(s.operations, o, OperationViewIn(s'));
    assert OperationViewIn(s')(o) == OperationViewOf(s, o) by {
      OperationViewOfFrame(s', s, o);
    }
  }

  /** A created operation whose category exists reads back by id with the names of its
      category and (when it resolves) subcategory. */
  lemma CreateOperationReadBack(s: Store, type_: string, categoryId: Id, subcategoryId: Option<Id>, amount: real,
                                date: string, description: Option<string>, newId: Id)
    requires Fresh(s, newId)
    requires ParseKind(type_).Some? && FindCategory(s, categoryId).Some?
    ensures var s' := CreateOperation(s, type_, categoryId, subcategoryId, amount, date, description, newId).1;
      GetOperationById(s', newId) ==
        Some(OperationView(Operation(newId, ParseKind(type_).value, categoryId, subcategoryId, amount, date, description),
                           FindCategory(s, categoryId).value.name, SubcategoryName(s, subcategoryId)))
  {
    var o := Operation(newId, ParseKind(type_).value, categoryId, subcategoryId, amount, date, description);
    var v := OperationView(o, FindCategory(s, categoryId).value.name, SubcategoryName(s, subcategoryId));
    FreshFacts(s, newId);
    OperationViewsAppend(s, o);
    OperationViewsJoin(s);
    var rows := OperationViews(s);
    forall i | 0 <= i < |rows| ensures !OperationViewWithId(newId)(rows[i]) {
      assert OperationViewFrom(s, rows[i]);
    }
    FindAppend(rows, v, OperationViewWithId(newId));
  }

  /** Creating an operation with a fresh id keeps ids unique. */
  lemma CreateOperationKeepsWf(s: Store, type_: string, categoryId: Id, subcategoryId: Option<Id>, amount: real,
                               date: string, description: Option<string>, newId: Id)
    requires Wf(s) && Fresh(s, newId)
    ensures Wf(CreateOperation(s, type_, categoryId, subcategoryId, amount, date, description, newId).1)
  {
    if ParseKind(type_).Some? {
      FreshFacts(s, newId);
      var o := Operation(newId, ParseKind(type_).value, categoryId, subcategoryId, amount, date, description);
      UniqueKeysAppend(s.operations, o, OperationKey);
    }
  }

  // ---------------------------------------------------------------------------
  // update_operation / delete_operation
  // ---------------------------------------------------------------------------

  /** `ConsoleFormatter.get_input` with a default: an empty answer takes the default when the
      default is set (truthy); otherwise the answer stands. */
  function WithDefault(answer: string, default: Option<string>): (r: string)
    ensures answer != "" ==> r == answer
    ensures answer == "" && Given(default) ==> r == default.value
    ensures answer == "" && !Given(default) ==> r == ""
  {
    if Given(default) && answer == "" then default.value else answer
  }

  /** The answers `update_operation` collects: the amount and date the prompts return (`None`
      when the user interrupts), the stripped description, and the stripped raw answers for
      category id and subcategory id (`None` when the user interrupts). */
  datatype OperationAnswers = OperationAnswers(
    amount: Option<real>,
    date: Option<string>,
    description: string,
    categoryId: Option<string>,
    subcategoryId: Option<string>)

  /** The row `update_operation` writes for the operation it read, or `None` when the amount,
      date or category prompt was interrupted. A blank description keeps the old one, a blank
      category or subcategory answer keeps the old id, and a blank subcategory answer clears the
      subcategory only when the operation had none. An interrupted subcategory prompt is not
      checked for: the edit goes ahead and clears the subcategory. The type never changes. */
  function EditedOperation(o: Operation, a: OperationAnswers): (r: Option<Operation>)
    ensures r.None? <==> a.amount.None? || a.date.None? || a.categoryId.None?
    ensures r.Some? ==> r.value.id == o.id && r.value.kind == o.kind
    ensures r.Some? ==> r.value.amount == a.amount.value && r.value.date == a.date.value
    ensures r.Some? ==> r.value.description == if a.description != "" then Some(a.description) else o.description
    ensures r.Some? ==> r.value.categoryId == WithDefault(a.categoryId.value, Some(o.categoryId))
    ensures r.Some? && a.subcategoryId.None? ==> r.value.subcategoryId.None?
    ensures r.Some? && a.subcategoryId.Some? && a.subcategoryId.value != "" ==> r.value.subcategoryId == a.subcategoryId
    ensures r.Some? && a.subcategoryId == Some("") ==> r.value.subcategoryId == if Given(o.subcategoryId) then o.subcategoryId else None
  {
    if a.amount.None? || a.date.None? || a.categoryId.None? then None
    else
      var description := if a.description != "" then Some(a.description) else o.description;
      var sub := if a.subcategoryId.None? then "" else WithDefault(a.subcategoryId.value, o.subcategoryId);
      Some(o.(amount := a.amount.value, date := a.date.value, description := description,
              categoryId := WithDefault(a.categoryId.value, Some(o.categoryId)),
              subcategoryId := if sub == "" then None else Some(sub)))
  }

  /** `update_operation(op_id)`: an operation the joined lookup does not find (unknown id, or
      its category is missing) or an interrupted prompt gives false with nothing changed;
      otherwise every row with the id is overwritten with the edited operation. */
  function UpdateOperation(s: Store, id: Id, a: OperationAnswers): (r: (bool, Store))
    ensures r.0 <==> GetOperationById(s, id).Some? && EditedOperation(GetOperationById(s, id).value.op, a).Some?
    ensures !r.0 ==> r.1 == s
    ensures |r.1.operations| == |s.operations|
    ensures r.0 ==> forall i :: 0 <= i < |s.operations| ==>
      r.1.operations[i] == if s.operations[i].id == id then EditedOperation(GetOperationById(s, id).value.op, a).value else s.operations[i]
    ensures r.1 == s.(operations := r.1.operations)
  {
    match GetOperationById(s, id)
    case None => (false, s)
    case Some(v) =>
      match EditedOperation(v.op, a)
      case None => (false, s)
      case Some(e) =>
        (true, s.(operations := seq(|s.operations|, i requires 0 <= i < |s.operations| =>
          if s.operations[i].id == id then e else s.operations[i])))
  }

  function OperationWithId(id: Id): Operation -> bool { (o: Operation) => o.id == id }

  /** After a successful update the operation reads back as the edited row. */
  lemma UpdateOperationReadBack(s: Store, id: Id, a: OperationAnswers)
    requires UpdateOperation(s, id, a).0
    ensures Find(UpdateOperation(s, id, a).1.operations, OperationWithId(id)) == EditedOperation(GetOperationById(s, id).value.op, a)
  {
    var s' := UpdateOperation(s, id, a).1;
    var o := GetOperationById(s, id).value.op;
    FindSome(s.operations, OperationWithId(id), o);
    FindAfterRewrite(s.operations, s'.operations, OperationWithId(id));
  }

  /** An update keeps ids unique. */
  lemma UpdateOperationKeepsWf(s: Store, id: Id, a: OperationAnswers)
    requires Wf(s)
    ensures Wf(UpdateOperation(s, id, a).1)
  {
    var s' := UpdateOperation(s, id, a).1;
    if UpdateOperation(s, id, a).0 {
      UniqueKeysRewrite(s.operations, s'.operations, OperationKey);
    }
  }

  /** An interrupted subcategory prompt does not abandon the update: it succeeds as far as the
      other answers allow and the operation reads back with no subcategory, whatever it had. */
  lemma InterruptedSubcategoryClears(s: Store, id: Id, a: OperationAnswers)
    requires UpdateOperation(s, id, a).0 && a.subcategoryId.None?
    ensures var found := Find(UpdateOperation(s, id, a).1.operations, OperationWithId(id));
      found.Some? && found.value.subcategoryId.None?
  {
    UpdateOperationReadBack(s, id, a);
  }

  /** What `get_input`'s validation functions guarantee of the answers it returns: a positive
      amount and a date `validate_date` accepts. */
  predicate PromptsValidated(a: OperationAnswers) {
    && (a.amount.Some? ==> a.amount.value > 0.0)
    && (a.date.Some? ==> ValidateDate(a.date.value))
  }

  /** With validated answers, an update writes a positive amount and an accepted date, so a
      table whose dates all pass `validate_date` keeps that property. */
  lemma UpdateOperationKeepsDatesValid(s: Store, id: Id, a: OperationAnswers)
    requires PromptsValidated(a)
    ensures var (ok, s') := UpdateOperation(s, id, a);
      ok ==> forall o :: o in s'.operations && o.id == id ==> o.amount > 0.0 && ValidateDate(o.date)
    ensures (forall o :: o in s.operations ==> ValidateDate(o.date)) ==>
      forall o :: o in UpdateOperation(s, id, a).1.operations ==> ValidateDate(o.date)
  {
  }

  /** An operation whose category has been deleted can be neither updated nor deleted: the
      joined lookup both start from does not find it. */
  lemma OrphanedOperationIsStuck(s: Store, id: Id, a: OperationAnswers, confirmed: bool)
    requires forall o :: o in s.operations && o.id == id ==> forall c :: c in s.categories ==> c.id != o.categoryId
    ensures UpdateOperation(s, id, a) == (false, s)
    ensures DeleteOperation(s, id, confirmed) == (false, s)
  {
  }

  /** `delete_operation(op_id)`; `confirmed` is the answer `y`. The joined lookup must find
      the operation; then every row with the id is removed. */
  function DeleteOperation(s: Store, id: Id, confirmed: bool): (r: (bool, Store))
    ensures r.0 <==> GetOperationById(s, id).Some? && confirmed
    ensures !r.0 ==> r.1 == s
    ensures r.0 ==> forall o :: o in r.1.operations <==> o in s.operations && o.id != id
    ensures r.1 == s.(operations := r.1.operations)
  {
    if GetOperationById(s, id).None? || !confirmed then (false, s)
    else (true, s.(operations := Filter(s.operations, (o: Operation) => o.id != id)))
  }

  /** A deleted operation is gone from every lookup and ids stay unique. */
  lemma DeleteOperationRemoves(s: Store, id: Id)
    requires DeleteOperation(s, id, true).0
    ensures GetOperationById(DeleteOperation(s, id, true).1, id).None?
    ensures Wf(s) ==> Wf(DeleteOperation(s, id, true).1)
  {
    if Wf(s) {
      UniqueKeysFilter(s.operations, (o: Operation) => o.id != id, OperationKey);
    }
  }
}
