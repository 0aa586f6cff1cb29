/** Category.py: the category store. A category is a name tagged income or expense; names
    need not be unique. */
module Categories {
  import opened Common
  import opened Ledger

  /** `create_category`: one new row with a fresh id; a type outside the CHECK constraint
      makes the INSERT fail and nothing is stored. Duplicate names are accepted. */
  function CreateCategory(s: Store, name: string, type_: string, newId: Id): (r: (Option<Id>, Store))
    requires Fresh(s, newId)
    ensures ParseKind(type_).None? ==> r == (None, s)
    ensures ParseKind(type_).Some? ==> r.0 == Some(newId)
    ensures r.0.Some? ==> r.1.categories == s.categories + [Category(newId, name, ParseKind(type_).value)]
    ensures r.1 == s.(categories := r.1.categories)
  {
    match ParseKind(type_)
    case None => (None, s)
    case Some(k) => (Some(newId), s.(categories := s.categories + [Category(newId, name, k)]))
  }

  /** After a successful create the new id reads back as exactly the stored record, and the
      primary key stays unique. */
  lemma CreateCategoryReadBack(s: Store, name: string, type_: string, newId: Id)
    requires Fresh(s, newId)
    requires CreateCategory(s, name, type_, newId).0.Some?
    ensures var s' := CreateCategory(s, name, type_, newId).1;
      GetCategoryById(s', newId) == Some(Category(newId, name, ParseKind(type_).value))
    ensures Wf(s) ==> Wf(CreateCategory(s, name, type_, newId).1)
  {
    var c := Category(newId, name, ParseKind(type_).value);
    FreshFacts(s, newId);
    FindAppend(s.categories, c, CategoryWithId(newId));
    if Wf(s) {
      UniqueKeysAppend(s.categories, c, CategoryKey);
    }
  }

  /** The `ORDER BY name` of the category listings. */
  predicate NameOrder(a: Category, b: Category) {
    StrLe(a.name, b.name)
  }

  lemma NameOrderTotal()
    ensures TotalPreorder(NameOrder)
  {
    forall a, b ensures NameOrder(a, b) || NameOrder(b, a) {
      StrCmpFlip(a.name, b.name);
    }
    forall a, b, c | NameOrder(a, b) && NameOrder(b, c) ensures NameOrder(a, c) {
      StrCmpTrans(a.name, b.name, c.name);
    }
  }

  /** The `WHERE type = ?` filter, applied only when a type is given. */
  predicate OfType(c: Category, type_: Option<string>) {
    Given(type_) ==> KindName(c.kind) == type_.value
  }

  /** `get_all_categories(type_)`: the categories of the given type (all of them when no type
      is given), each as often as it is stored, ordered by name. */
  function GetAllCategories(s: Store, type_: Option<string>): (r: seq<Category>)
    ensures SortedBy(r, NameOrder)
    ensures forall c :: c in r <==> c in s.categories && OfType(c, type_)
    ensures forall c :: multiset(r)[c] == (if OfType(c, type_) then multiset(s.categories)[c] else 0)
  {
    var selected := Filter(s.categories, (c: Category) => OfType(c, type_));
    NameOrderTotal();
    var r := SortBy(selected, NameOrder);
    SameElements(r, selected);
    r
  }

  /** `get_category_by_id`: the record with that id, or `None`. */
  function GetCategoryById(s: Store, id: Id): (r: Option<Category>)
    ensures r.Some? ==> r.value in s.categories && r.value.id == id
    ensures r.None? <==> forall c :: c in s.categories ==> c.id != id
  {
    FindCategory(s, id)
  }

  /** With unique keys the lookup returns the one stored record carrying the id. */
  lemma GetCategoryByIdExact(s: Store, c: Category)
    requires Wf(s) && c in s.categories
    ensures GetCategoryById(s, c.id) == Some(c)
  {
    FindCategoryUnique(s, c);
  }

  /** The categories table after `UPDATE categories SET name = ? WHERE id = ?`. */
  function RenameCategoryRows(rows: seq<Category>, id: Id, name: string): (r: seq<Category>)
    ensures |r| == |rows|
    ensures forall i :: 0 <= i < |rows| ==> r[i] == if rows[i].id == id then rows[i].(name := name) else rows[i]
  {
    seq(|rows|, i requires 0 <= i < |rows| => if rows[i].id == id then rows[i].(name := name) else rows[i])
  }

  /** `update_category(category_id, name)`: `prompted` is the answer to the name prompt the
      source shows when `name` is omitted (`None` when the prompt is interrupted). An unknown
      id or an interrupted prompt returns false with nothing changed; otherwise only that
      category's name changes. */
  function UpdateCategory(s: Store, id: Id, name: Option<string>, prompted: Option<string>): (r: (bool, Store))
    ensures GetCategoryById(s, id).None? ==> r == (false, s)
    ensures name.None? && prompted.None? ==> r == (false, s)
    ensures r.0 <==> GetCategoryById(s, id).Some? && (name.Some? || prompted.Some?)
    ensures !r.0 ==> r.1 == s
    ensures r.0 ==> var n := if name.Some? then name.value else prompted.value;
      && |r.1.categories| == |s.categories|
      && (forall i :: 0 <= i < |s.categories| && s.categories[i].id == id ==>
            r.1.categories[i] == Category(id, n, s.categories[i].kind))
      && (forall i :: 0 <= i < |s.categories| && s.categories[i].id != id ==> r.1.categories[i] == s.categories[i])
    ensures r.1 == s.(categories := r.1.categories)
  {
    if FindCategory(s, id).None? then (false, s)
    else
      var effective := if name.Some? then name else prompted;
      match effective
      case None => (false, s)
      case Some(n) => (true, s.(categories := RenameCategoryRows(s.categories, id, n)))
  }

  /** A renamed category reads back with the new name and its prior type; keys stay unique. */
  lemma UpdateCategoryReadBack(s: Store, id: Id, name: Option<string>, prompted: Option<string>)
    requires UpdateCategory(s, id, name, prompted).0
    ensures var n := if name.Some? then name.value else prompted.value;
      GetCategoryById(UpdateCategory(s, id, name, prompted).1, id)
        == Some(Category(id, n, GetCategoryById(s, id).value.kind))
    ensures Wf(s) ==> Wf(UpdateCategory(s, id, name, prompted).1)
  {
    var n := if name.Some? then name.value else prompted.value;
    var rows := s.categories;
    var rows' := RenameCategoryRows(rows, id, n);
    assert UpdateCategory(s, id, name, prompted).1.categories == rows';
    FindAfterRewrite(rows, rows', CategoryWithId(id));
    if Wf(s) {
      UniqueKeysRewrite(rows, rows', CategoryKey);
    }
  }

  /** `SELECT COUNT(*) FROM subcategories WHERE category_id = ?` is positive. */
  predicate HasSubcategories(s: Store, id: Id) {
    exists x :: x in s.subcategories && x.categoryId == id
  }

  /** `delete_category(category_id)`; `confirmed` is the user's answer to the cascade prompt,
      asked only when the category has subcategories. Plans and operations that reference the
      removed rows stay: foreign keys are not enforced on this connection. */
  function DeleteCategory(s: Store, id: Id, confirmed: bool): (r: (bool, Store))
    ensures GetCategoryById(s, id).None? ==> r == (false, s)
    ensures HasSubcategories(s, id) && !confirmed ==> r == (false, s)
    ensures r.0 <==> GetCategoryById(s, id).Some? && (confirmed || !HasSubcategories(s, id))
    ensures !r.0 ==> r.1 == s
    ensures r.0 ==> forall x :: x in r.1.subcategories <==> x in s.subcategories && x.categoryId != id
    ensures r.0 ==> forall c :: c in r.1.categories <==> c in s.categories && c.id != id
    ensures r.1.periods == s.periods && r.1.plans == s.plans && r.1.history == s.history
    ensures r.1.operations == s.operations
  {
    if FindCategory(s, id).None? then (false, s)
    else if HasSubcategories(s, id) && !confirmed then (false, s)
    else
      var subcategories :=
        if HasSubcategories(s, id) then Filter(s.subcategories, (x: Subcategory) => x.categoryId != id)
        else s.subcategories;
      (true, s.(subcategories := subcategories, categories := Filter(s.categories, (c: Category) => c.id != id)))
  }

  /** A successful delete leaves neither the category nor any subcategory pointing at it,
      and keeps keys unique. */
  lemma DeleteCategoryNoOrphans(s: Store, id: Id, confirmed: bool)
    requires DeleteCategory(s, id, confirmed).0
    ensures var s' := DeleteCategory(s, id, confirmed).1;
      && GetCategoryById(s', id).None?
      && (forall x :: x in s'.subcategories ==> x.categoryId != id)
    ensures Wf(s) ==> Wf(DeleteCategory(s, id, confirmed).1)
  {
    if Wf(s) {
      UniqueKeysFilter(s.categories, (c: Category) => c.id != id, CategoryKey);
      if HasSubcategories(s, id) {
        UniqueKeysFilter(s.subcategories, (x: Subcategory) => x.categoryId != id, SubcategoryKey);
      }
    }
  }
}
