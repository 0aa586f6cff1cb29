/** main.py: the rules the console application adds on top of the managers — which
    subcategory an operation being entered is filed under, and the default catalog seeded
    into an empty database. */
module App {
  import opened Common
  import opened Ledger
  import opened Subcategories

  // ---------------------------------------------------------------------------
  // Case-insensitive names
  // ---------------------------------------------------------------------------

  /** `str.lower` on one character, for the Latin and Russian alphabets. */
  function LowerChar(c: char): (r: char)
    ensures 'A' <= c <= 'Z' ==> r as int == c as int + 32
    ensures 'А' <= c <= 'Я' ==> r as int == c as int + 32
    ensures c == 'Ё' ==> r == 'ё'
    ensures !('A' <= c <= 'Z' || 'А' <= c <= 'Я' || c == 'Ё') ==> r == c
  {
    if 'A' <= c <= 'Z' || 'А' <= c <= 'Я' then (c as int + 32) as char
    else if c == 'Ё' then 'ё'
    else c
  }

  function Lower(s: string): (r: string)
    ensures |r| == |s| && forall i :: 0 <= i < |s| ==> r[i] == LowerChar(s[i])
  {
    seq(|s|, i requires 0 <= i < |s| => LowerChar(s[i]))
  }

  function NameMatches(input: string): SubcategoryView -> bool {
    (v: SubcategoryView) => Lower(v.name) == Lower(input)
  }

  // ---------------------------------------------------------------------------
  // Subcategory resolution while entering an operation
  // ---------------------------------------------------------------------------

  /** The typed text names, by id, a subcategory of the chosen category. */
  predicate AcceptedById(s: Store, categoryId: Id, input: string) {
    GetSubcategoryById(s, input).Some? && GetSubcategoryById(s, input).value.categoryId == categoryId
  }

  /** The subcategory an operation of category `categoryId` is filed under when the user
      types `input` (already stripped); `create` is the answer to "create a new one?", and
      `newId`, `planId` the uuids a creation generates. Empty input files it under none. An
      id is accepted only for a subcategory of the chosen category; otherwise the first of the
      category's subcategories, in name order, whose name matches ignoring case is used; when
      that too fails (or the match has an empty, falsy id) a new subcategory is created on
      request. */
  function ResolveSubcategory(s: Store, categoryId: Id, input: string, create: bool, newId: Id, planId: Id): (r: (Option<Id>, Store))
    requires Fresh(s, newId) && Fresh(s, planId) && newId != planId
    ensures input == "" ==> r == (None, s)
    ensures input != "" && AcceptedById(s, categoryId, input) ==> r == (Some(input), s)
    ensures r.1 == s && r.0.Some? ==>
      exists v :: v in GetAllSubcategories(s, Some(categoryId)) && v.id == r.0.value && (v.id == input || NameMatches(input)(v))
    ensures r.1 != s ==> create && r == CreateSubcategory(s, categoryId, input, newId, planId)
    ensures r.0.None? && input != "" ==>
      && !AcceptedById(s, categoryId, input)
      && (FirstNameMatch(s, categoryId, input).None? || FirstNameMatch(s, categoryId, input).value.id == "")
      && (!create || CreateSubcategory(s, categoryId, input, newId, planId).0.None?)
    ensures var found := FirstNameMatch(s, categoryId, input);
      input != "" && !AcceptedById(s, categoryId, input) && found.Some? && (found.value.id != "" || !create) ==>
        r == (Some(found.value.id), s)
  {
    if input == "" then (None, s)
    else if AcceptedById(s, categoryId, input) then (Some(GetSubcategoryById(s, input).value.id), s)
    else
      var found := FirstNameMatch(s, categoryId, input);
      if found.Some? && found.value.id != "" then (Some(found.value.id), s)
      else if create then CreateSubcategory(s, categoryId, input, newId, planId)
      else (if found.Some? then Some(found.value.id) else None, s)
  }

  /** The first subcategory of the category, in the name order of its listing, whose name
      matches the input ignoring case. */
  function FirstNameMatch(s: Store, categoryId: Id, input: string): (r: Option<SubcategoryView>)
    ensures r.Some? ==> r.value in GetAllSubcategories(s, Some(categoryId)) && NameMatches(input)(r.value)
    ensures r.None? <==> forall v :: v in GetAllSubcategories(s, Some(categoryId)) ==> !NameMatches(input)(v)
    ensures r.Some? ==>
      exists i :: FirstMatch(GetAllSubcategories(s, Some(categoryId)), NameMatches(input), i) && GetAllSubcategories(s, Some(categoryId))[i] == r.value
  {
    var listing := GetAllSubcategories(s, Some(categoryId));
    NoMatchFacts(listing, input);
    Find(listing, NameMatches(input))
  }

  lemma NoMatchFacts(listing: seq<SubcategoryView>, input: string)
    ensures Find(listing, NameMatches(input)).None? <==> forall v :: v in listing ==> !NameMatches(input)(v)
    ensures Find(listing, NameMatches(input)).Some? ==>
      exists i :: FirstMatch(listing, NameMatches(input), i) && listing[i] == Find(listing, NameMatches(input)).value
  {
    if Find(listing, NameMatches(input)).Some? {
      FindIsFirst(listing, NameMatches(input));
    }
    if exists v :: v in listing && NameMatches(input)(v) {
      var v :| v in listing && NameMatches(input)(v);
      FindSome(listing, NameMatches(input), v);
    }
  }

  /** Stored ids are never empty: they are uuid4 text. */
  predicate IdsGiven(s: Store) {
    forall x :: x in s.subcategories ==> x.id != ""
  }

  /** The resolved subcategory always belongs to the chosen category, whether it was found
      or created. */
  lemma ResolvedBelongs(s: Store, categoryId: Id, input: string, create: bool, newId: Id, planId: Id)
    requires Fresh(s, newId) && Fresh(s, planId) && newId != planId
    requires |categoryId| == UuidLength
    ensures var r := ResolveSubcategory(s, categoryId, input, create, newId, planId);
      r.0.Some? ==> exists v :: v in GetAllSubcategories(r.1, Some(categoryId)) && v.id == r.0.value
  {
    var r := ResolveSubcategory(s, categoryId, input, create, newId, planId);
    if r.1 != s && r.0.Some? {
      CreateSubcategoryReadBack(s, categoryId, input, newId, planId);
      var v := GetSubcategoryById(r.1, newId).value;
      assert v in Views(r.1);
      assert v in GetAllSubcategories(r.1, Some(categoryId));
    }
  }

  /** A listed subcategory has a non-empty id when every stored one does. */
  lemma ListedIdsGiven(s: Store, categoryId: Id)
    requires IdsGiven(s)
    ensures forall v :: v in GetAllSubcategories(s, Some(categoryId)) ==> v.id != ""
  {
    ViewsJoin(s);
    forall v | v in GetAllSubcategories(s, Some(categoryId)) ensures v.id != "" {
      assert ViewFrom(s, v);
    }
  }

  /** With non-empty ids, resolution fails only when no subcategory of the category has the
      name, ignoring case, and creating one was declined or failed. */
  lemma UnresolvedMeansNoMatch(s: Store, categoryId: Id, input: string, create: bool, newId: Id, planId: Id)
    requires Fresh(s, newId) && Fresh(s, planId) && newId != planId
    requires IdsGiven(s) && input != ""
    requires ResolveSubcategory(s, categoryId, input, create, newId, planId).0.None?
    ensures forall v :: v in GetAllSubcategories(s, Some(categoryId)) ==> !NameMatches(input)(v)
    ensures !create || CreateSubcategory(s, categoryId, input, newId, planId).0.None?
  {
    ListedIdsGiven(s, categoryId);
    var found := FirstNameMatch(s, categoryId, input);
    assert found.None?;
  }

  /** The subcategory a successful create adds, as the join shows it. */
  function CreatedView(s: Store, categoryId: Id, input: string, newId: Id): SubcategoryView
    requires FindCategory(s, categoryId).Some?
  {
    SubcategoryView(newId, categoryId, input, FindCategory(s, categoryId).value.name)
  }

  /** After creating a subcategory the id lookup of any other text is unchanged. */
  lemma CreateKeepsOtherIds(s: Store, categoryId: Id, input: string, newId: Id, planId: Id, id: Id)
    requires Fresh(s, newId) && Fresh(s, planId) && newId != planId
    requires |categoryId| == UuidLength && id != newId
    requires CreateSubcategory(s, categoryId, input, newId, planId).0.Some?
    ensures GetSubcategoryById(CreateSubcategory(s, categoryId, input, newId, planId).1, id) == GetSubcategoryById(s, id)
  {
    CreateSubcategoryViews(s, categoryId, input, newId, planId);
    FindAppend(Views(s), CreatedView(s, categoryId, input, newId), ViewWithId(id));
  }

  /** When nothing in the category matched, the created subcategory is the first match
      afterwards. */
  lemma CreatedIsFirstMatch(s: Store, categoryId: Id, input: string, newId: Id, planId: Id)
    requires Fresh(s, newId) && Fresh(s, planId) && newId != planId
    requires |categoryId| == UuidLength
    requires CreateSubcategory(s, categoryId, input, newId, planId).0.Some?
    requires FirstNameMatch(s, categoryId, input).None?
    ensures FindCategory(s, categoryId).Some?
    ensures FirstNameMatch(CreateSubcategory(s, categoryId, input, newId, planId).1, categoryId, input)
      == Some(CreatedView(s, categoryId, input, newId))
  {
    var s' := CreateSubcategory(s, categoryId, input, newId, planId).1;
    CreatedListing(s, categoryId, input, newId, planId);
    var view := CreatedView(s, categoryId, input, newId);
    var listing := GetAllSubcategories(s, Some(categoryId));
    var listing' := GetAllSubcategories(s', Some(categoryId));
    FindSome(listing', NameMatches(input), view);
    var w := FirstNameMatch(s', categoryId, input).value;
    assert w in listing' && NameMatches(input)(w);
    assert w !in listing;
  }

  /** A successful create adds exactly its own subcategory to the category's listing. */
  lemma CreatedListing(s: Store, categoryId: Id, input: string, newId: Id, planId: Id)
    requires Fresh(s, newId) && Fresh(s, planId) && newId != planId
    requires |categoryId| == UuidLength
    requires CreateSubcategory(s, categoryId, input, newId, planId).0.Some?
    ensures FindCategory(s, categoryId).Some?
    ensures forall v :: v in GetAllSubcategories(CreateSubcategory(s, categoryId, input, newId, planId).1, Some(categoryId)) <==>
      v in GetAllSubcategories(s, Some(categoryId)) || v == CreatedView(s, categoryId, input, newId)
  {
    CreateSubcategoryViews(s, categoryId, input, newId, planId);
  }

  /** The second resolution when the first created the subcategory. */
  lemma StableAfterCreate(s: Store, categoryId: Id, input: string, create: bool, newId: Id, planId: Id,
                          create2: bool, newId2: Id, planId2: Id)
    requires Fresh(s, newId) && Fresh(s, planId) && newId != planId
    requires |categoryId| == UuidLength && IdsGiven(s) && newId != "" && input != ""
    requires !AcceptedById(s, categoryId, input) && FirstNameMatch(s, categoryId, input).None?
    requires CreateSubcategory(s, categoryId, input, newId, planId).0.Some?
    requires var s' := CreateSubcategory(s, categoryId, input, newId, planId).1;
      Fresh(s', newId2) && Fresh(s', planId2) && newId2 != planId2
    ensures var s' := CreateSubcategory(s, categoryId, input, newId, planId).1;
      ResolveSubcategory(s', categoryId, input, create2, newId2, planId2) == (Some(newId), s')
  {
    var s' := CreateSubcategory(s, categoryId, input, newId, planId).1;
    CreateSubcategoryReadBack(s, categoryId, input, newId, planId);
    if input == newId {
      assert AcceptedById(s', categoryId, input);
    } else {
      CreateKeepsOtherIds(s, categoryId, input, newId, planId, input);
      assert !AcceptedById(s', categoryId, input);
      CreatedIsFirstMatch(s, categoryId, input, newId, planId);
    }
  }

  /** Resolving the same text again, against the store the first resolution left, gives the
      same subcategory and creates nothing: a subcategory created on request is found by name
      the second time. */
  lemma ResolveIsStable(s: Store, categoryId: Id, input: string, create: bool, newId: Id, planId: Id,
                        create2: bool, newId2: Id, planId2: Id)
    requires Fresh(s, newId) && Fresh(s, planId) && newId != planId
    requires |categoryId| == UuidLength && IdsGiven(s) && newId != ""
    requires ResolveSubcategory(s, categoryId, input, create, newId, planId).0.Some?
    requires var s' := ResolveSubcategory(s, categoryId, input, create, newId, planId).1;
      Fresh(s', newId2) && Fresh(s', planId2) && newId2 != planId2
    ensures var r := ResolveSubcategory(s, categoryId, input, create, newId, planId);
      ResolveSubcategory(r.1, categoryId, input, create2, newId2, planId2) == r
  {
    ListedIdsGiven(s, categoryId);
    var found := FirstNameMatch(s, categoryId, input);
    if input != "" && !AcceptedById(s, categoryId, input) && found.None? {
      StableAfterCreate(s, categoryId, input, create, newId, planId, create2, newId2, planId2);
    }
  }

  // ---------------------------------------------------------------------------
  // The default catalog
  // ---------------------------------------------------------------------------

  /** The categories `create_default_categories` inserts, income first, in this order. */
  const SeedCategories: seq<(string, Kind)> := [
    ("Зарплата", Income),
    ("Инвестиции_Д", Income),
    ("Случайные доход", Income),
    ("Социальные выплаты", Income),
    ("Прочие доходы", Income),
    ("Жильё", Expense),
    ("Коммунальные услуги", Expense),
    ("Связь и интернет", Expense),
    ("Транспорт", Expense),
    ("Продукты питания", Expense),
    ("Налоги и сборы", Expense),
    ("Кредиты и долги", Expense),
    ("Одежда и обувь", Expense),
    ("Личные расходы", Expense),
    ("Здоровье", Expense),
    ("Образование", Expense),
    ("Дети", Expense),
    ("Дом и быт", Expense),
    ("Питомцы", Expense),
    ("Развлечения", Expense),
    ("Хобби", Expense),
    ("Спорт и фитнес", Expense),
    ("Подписки и сервисы", Expense),
    ("Путешествия и отдых", Expense),
    ("Инвестиции", Expense),
    ("Сбережения", Expense),
    ("Страхование", Expense),
    ("Благотворительность", Expense),
    ("Подарки", Expense),
    ("Прочие расходы", Expense)
  ]

  /** The default subcategories, keyed by the name of the category they are filed under, in
      the dict's order. */
  const SeedSubcategories: seq<(string, seq<string>)> := [
    ("Зарплата", ["Зарплата", "Фриланс"]),
    ("Инвестиции_Д", ["Дивиденды по акциям", "Процентный доход"]),
    ("Случайные доход", ["Подарки", "Долг", "Продажа"]),
    ("Социальные выплаты", ["Пенсия", "Стипендия"]),
    ("Прочие доходы", ["Кэшбэк", "Возврат билетов", "Компенсация"]),
    ("Жильё", ["Арендная плата", "Ипотека", "Ремонт и обслуживание"]),
    ("Коммунальные услуги", ["Электричество", "Водоснабжение и водоотведение", "Газоснабжение", "Отопление", "Вывоз мусора", "Капитальный ремонт", "Домофон и консьерж", "Прочие коммунальные платежи"]),
    ("Связь и интернет", ["Мобильная связь", "Домашний интернет", "ТВ"]),
    ("Транспорт", ["Общественный транспорт", "Такси и каршеринг", "Бензин/зарядка для ЭВ", "Техническое обслуживание и ремонт авто", "Страхование (ОСАГО, КАСКО)", "Штрафы и парковка", "Налог на транспорт", "Мойка"]),
    ("Продукты питания", ["Бакалея", "Молочные продукты", "Яйца", "Мясо, птица, рыба", "Овощи и фрукты", "Хлеб и выпечка", "Напитки", "Сладости и снеки", "Готовые блюда"]),
    ("Налоги и сборы", ["Налог на имущество", "Земельный налог", "Прочие налоги и госпошлины"]),
    ("Кредиты и долги", ["Потребительские кредиты", "Кредитные карты", "Автокредит", "Займы"]),
    ("Одежда и обувь", ["Верхняя одежда", "Повседневная одежда", "Обувь", "Нижнее бельё и носки", "Аксессуары", "Ремонт и химчистка"]),
    ("Личные расходы", ["Парикмахерская", "Барбершоп", "Маникюр", "Косметика", "Парфюмерия", "Средства гигиены", "Канцелярия"]),
    ("Здоровье", ["Поликлиника, анализы, лечение", "Стоматология", "Лекарства и витамины", "Оптика", "Медосмотры и справки", "ДМС"]),
    ("Образование", ["Курсы, тренинги, репетиторы", "Книги и учебные материалы", "Конференции и семинары"]),
    ("Дом и быт", ["Бытовая химия и чистящие средства", "Кухонная утварь и посуда", "Текстиль", "Предметы интерьера и декор", "Хозтовары"]),
    ("Питомцы", ["Корм и лакомства", "Ветеринарные услуги и лекарства", "Аксессуары, игрушки, наполнитель", "Груминг и передержка"]),
    ("Развлечения", ["Кино", "Театры / Концерты", "Клубы / Бары", "Выставки / Музеи", "Развлекательные парки", "Доставка еды", "Рестораны"]),
    ("Хобби", ["Рукоделие / Творчество", "Коллекционирование", "Садоводство / Огород", "Фотография", "Музыка (инструменты, ноты)"]),
    ("Спорт и фитнес", ["Абонемент в зал / Бассейн", "Тренер / Занятия", "Спортивная экипировка", "Участие в соревнованиях", "Спортивное питание"]),
    ("Подписки и сервисы", ["Видеостриминги (Netflix)", "Музыка (Spotify, Яндекс)", "Игровые подписки (PS Plus)", "Программное обеспечение", "Облачные хранилища"]),
    ("Путешествия и отдых", ["Авиа / ЖД билеты", "Отели / Аренда жилья", "Питание в поездках", "Экскурсии / Гиды", "Аренда авто / Такси", "Сувениры"]),
    ("Инвестиции", ["Акции / ETF", "Облигации", "ИИС / Брокерский счёт", "Криптовалюты", "Вклады / Депозиты", "Недвижимость (взнос)"]),
    ("Сбережения", ["Подушка безопасности", "Накопления на авто", "Накопления на ремонт", "Накопления на отпуск", "Пенсионные накопления"]),
    ("Страхование", ["Страхование жизни", "Страхование имущества", "Страхование от НС", "Медицинское страхование"]),
    ("Благотворительность", ["Пожертвования фондам", "Помощь приютам", "Волонтёрство (расходы)", "Помощь близким", "Церковь / Храм"]),
    ("Подарки", ["Дни рождения", "Новый год", "8 марта", "Свадьбы", "Юбилеи", "Цветы", "Детские подарки"]),
    ("Прочие расходы", ["Непредвиденные траты", "Комиссии банков", "Утерянные деньги", "Проценты по кредитам", "Штрафы (не авто)"])
  ]

  /** The category rows the seeding loop inserts, given the uuids it generates. */
  function SeedCategoryRows(entries: seq<(string, Kind)>, ids: seq<Id>): seq<Category>
    requires |ids| == |entries|
  {
    seq(|entries|, i requires 0 <= i < |entries| => Category(ids[i], entries[i].0, entries[i].1))
  }

  /** `category_ids[name] = category_id` over the inserted rows: each name maps to the id of
      the last row carrying it. */
  function CategoryIds(cats: seq<Category>): (m: map<string, Id>)
    ensures forall name :: name in m <==> exists c :: c in cats && c.name == name
    ensures forall name :: name in m ==> exists c :: c in cats && c.name == name && c.id == m[name]
  {
    if |cats| == 0 then map[]
    else
      var init := cats[..|cats| - 1];
      var m := CategoryIds(init);
      assert forall c :: c in cats <==> c in init || c == cats[|cats| - 1];
      m[cats[|cats| - 1].name := cats[|cats| - 1].id]
  }

  /** How many subcategories the loop inserts: those listed under a name that was seeded. */
  function SeedCount(entries: seq<(string, seq<string>)>, names: set<string>): nat {
    if |entries| == 0 then 0
    else (if entries[0].0 in names then |entries[0].1| else 0) + SeedCount(entries[1..], names)
  }

  /** The subcategory rows the loop inserts: for each dict entry whose category was seeded,
      one row per listed name, filed under that category's id, with the uuids in order. */
  function SeedSubcategoryRows(entries: seq<(string, seq<string>)>, ids: map<string, Id>, subIds: seq<Id>): (r: seq<Subcategory>)
    requires |subIds| == SeedCount(entries, ids.Keys)
    ensures |r| == |subIds|
  {
    if |entries| == 0 then []
    else
      var n := if entries[0].0 in ids then |entries[0].1| else 0;
      EntryRows(entries[0], ids, subIds[..n]) + SeedSubcategoryRows(entries[1..], ids, subIds[n..])
  }

  /** The inserted rows take the supplied uuids in order. */
  lemma {:induction false} SeedRowIds(entries: seq<(string, seq<string>)>, ids: map<string, Id>, subIds: seq<Id>)
    requires |subIds| == SeedCount(entries, ids.Keys)
    ensures var r := SeedSubcategoryRows(entries, ids, subIds);
      forall i :: 0 <= i < |r| ==> r[i].id == subIds[i]
  {
    if |entries| > 0 {
      var n := if entries[0].0 in ids then |entries[0].1| else 0;
      var a: seq<Subcategory> := EntryRows(entries[0], ids, subIds[..n]);
      var b: seq<Subcategory> := SeedSubcategoryRows(entries[1..], ids, subIds[n..]);
      SeedRowIds(entries[1..], ids, subIds[n..]);
      assert SeedSubcategoryRows(entries, ids, subIds) == a + b;
      forall i: int | 0 <= i < |a| + |b| ensures (a + b)[i].id == subIds[i] {
        if i < |a| {
          assert (a + b)[i] == a[i] && subIds[i] == subIds[..n][i];
        } else {
          assert (a + b)[i] == b[i - n] && subIds[i] == subIds[n..][i - n];
        }
      }
    }
  }

  /** The rows of one dict entry. */
  function EntryRows(e: (string, seq<string>), ids: map<string, Id>, subIds: seq<Id>): (r: seq<Subcategory>)
    requires |subIds| == if e.0 in ids then |e.1| else 0
    ensures |r| == |subIds| && forall i :: 0 <= i < |r| ==> r[i].id == subIds[i]
    ensures forall x :: x in r ==> e.0 in ids && x.categoryId == ids[e.0] && x.name in e.1
    ensures forall name :: e.0 in ids && name in e.1 ==> exists x :: x in r && x.categoryId == ids[e.0] && x.name == name
  {
    if e.0 in ids then
      var r := seq(|e.1|, j requires 0 <= j < |e.1| => Subcategory(subIds[j], ids[e.0], e.1[j]));
      assert forall name :: name in e.1 ==> exists x :: x in r && x.categoryId == ids[e.0] && x.name == name by {
        forall name | name in e.1 ensures exists x :: x in r && x.categoryId == ids[e.0] && x.name == name {
          var j :| 0 <= j < |e.1| && e.1[j] == name;
          assert r[j] in r;
        }
      }
      r
    else []
  }

  /** Every inserted subcategory is filed under the id of the category whose entry lists it,
      and every name an entry of a seeded category lists is inserted under that id. */
  lemma {:induction false} SeedRowsAttached(entries: seq<(string, seq<string>)>, ids: map<string, Id>, subIds: seq<Id>)
    requires |subIds| == SeedCount(entries, ids.Keys)
    ensures forall x :: x in SeedSubcategoryRows(entries, ids, subIds) ==>
      exists e :: e in entries && e.0 in ids && x.categoryId == ids[e.0] && x.name in e.1
    ensures forall e, name :: e in entries && e.0 in ids && name in e.1 ==>
      exists x :: x in SeedSubcategoryRows(entries, ids, subIds) && x.categoryId == ids[e.0] && x.name == name
  {
    if |entries| > 0 {
      var n := if entries[0].0 in ids then |entries[0].1| else 0;
      var here := EntryRows(entries[0], ids, subIds[..n]);
      var rest := SeedSubcategoryRows(entries[1..], ids, subIds[n..]);
      SeedRowsAttached(entries[1..], ids, subIds[n..]);
      assert SeedSubcategoryRows(entries, ids, subIds) == here + rest;
      assert forall f :: f in entries <==> f == entries[0] || f in entries[1..];
    }
  }

  /** The names of the listed categories. */
  function Names(entries: seq<(string, Kind)>): set<string> {
    set e | e in entries :: e.0
  }

  /** The seeding rule on given lists: nothing happens when any category exists; otherwise
      the categories `cats` are inserted with the uuids `catIds`, then the subcategories the
      entries of `subs` list under a seeded name, with the uuids `subIds`. */
  function Seed(s: Store, cats: seq<(string, Kind)>, subs: seq<(string, seq<string>)>, catIds: seq<Id>, subIds: seq<Id>): (r: Store)
    requires |catIds| == |cats| && |subIds| == SeedCount(subs, Names(cats))
    ensures |s.categories| > 0 ==> r == s
    ensures |s.categories| == 0 ==>
      && r.categories == SeedCategoryRows(cats, catIds)
      && |r.subcategories| == |s.subcategories| + |subIds|
      && r.subcategories[..|s.subcategories|] == s.subcategories
    ensures r == s.(categories := r.categories, subcategories := r.subcategories)
  {
    if |s.categories| > 0 then s
    else
      var rows := SeedCategoryRows(cats, catIds);
      SeedKeys(cats, catIds);
      s.(categories := rows, subcategories := s.subcategories + SeedSubcategoryRows(subs, CategoryIds(rows), subIds))
  }

  /** The dict built over the inserted categories has exactly the listed names as keys. */
  lemma SeedKeys(cats: seq<(string, Kind)>, catIds: seq<Id>)
    requires |catIds| == |cats|
    ensures CategoryIds(SeedCategoryRows(cats, catIds)).Keys == Names(cats)
  {
    var rows := SeedCategoryRows(cats, catIds);
    forall name | name in Names(cats) ensures name in CategoryIds(rows) {
      var e :| e in cats && e.0 == name;
      var i :| 0 <= i < |cats| && cats[i] == e;
      assert rows[i] in rows;
    }
    forall name | name in CategoryIds(rows) ensures name in Names(cats) {
      var c :| c in rows && c.name == name;
      var i :| 0 <= i < |rows| && rows[i] == c;
      assert cats[i] in cats;
    }
  }

  /** `create_default_categories`: the seeding rule on the default lists. No plan or period
      is created. */
  function CreateDefaultCategories(s: Store, catIds: seq<Id>, subIds: seq<Id>): (r: Store)
    requires |catIds| == |SeedCategories| && |subIds| == SeedCount(SeedSubcategories, Names(SeedCategories))
    ensures |s.categories| > 0 ==> r == s
    ensures |s.categories| == 0 ==> r.categories == SeedCategoryRows(SeedCategories, catIds)
    ensures r.plans == s.plans && r.periods == s.periods && r.operations == s.operations && r.history == s.history
  {
    Seed(s, SeedCategories, SeedSubcategories, catIds, subIds)
  }

  /** The store the seeding rule leaves when no category exists. */
  lemma SeedUnfold(s: Store, cats: seq<(string, Kind)>, subs: seq<(string, seq<string>)>, catIds: seq<Id>, subIds: seq<Id>)
    requires |catIds| == |cats| && |subIds| == SeedCount(subs, Names(cats))
    requires |s.categories| == 0
    ensures CategoryIds(SeedCategoryRows(cats, catIds)).Keys == Names(cats)
    ensures Seed(s, cats, subs, catIds, subIds) == s.(categories := SeedCategoryRows(cats, catIds),
      subcategories := s.subcategories + SeedSubcategoryRows(subs, CategoryIds(SeedCategoryRows(cats, catIds)), subIds))
  {
    SeedKeys(cats, catIds);
  }

  /** Every seeded subcategory is filed under the id of the inserted category whose name its
      dict entry carries. */
  lemma SeededSubcategoriesAttached(s: Store, cats: seq<(string, Kind)>, subs: seq<(string, seq<string>)>, catIds: seq<Id>, subIds: seq<Id>)
    requires |catIds| == |cats| && |subIds| == SeedCount(subs, Names(cats))
    requires |s.categories| == 0
    ensures var r := Seed(s, cats, subs, catIds, subIds);
      forall x :: x in r.subcategories[|s.subcategories|..] ==>
        exists e, c :: e in subs && x.name in e.1 && c in r.categories && c.name == e.0 && c.id == x.categoryId
  {
    var rows := SeedCategoryRows(cats, catIds);
    var ids := CategoryIds(rows);
    SeedUnfold(s, cats, subs, catIds, subIds);
    var subRows := SeedSubcategoryRows(subs, ids, subIds);
    SeedRowsAttached(subs, ids, subIds);
    assert Seed(s, cats, subs, catIds, subIds).subcategories[|s.subcategories|..] == subRows;
  }

  /** Every name listed for a seeded category is inserted under that category's id. */
  lemma SeededNamesPresent(s: Store, cats: seq<(string, Kind)>, subs: seq<(string, seq<string>)>, catIds: seq<Id>, subIds: seq<Id>)
    requires |catIds| == |cats| && |subIds| == SeedCount(subs, Names(cats))
    requires |s.categories| == 0
    ensures var r := Seed(s, cats, subs, catIds, subIds);
      forall e, name :: e in subs && e.0 in Names(cats) && name in e.1 ==>
        exists x, c :: x in r.subcategories && c in r.categories && c.name == e.0 && x.categoryId == c.id && x.name == name
  {
    var rows := SeedCategoryRows(cats, catIds);
    var ids := CategoryIds(rows);
    SeedUnfold(s, cats, subs, catIds, subIds);
    var subRows := SeedSubcategoryRows(subs, ids, subIds);
    SeedRowsAttached(subs, ids, subIds);
  }

  predicate DistinctIds(ids: seq<Id>) {
    forall i, j :: 0 <= i < j < |ids| ==> ids[i] != ids[j]
  }

  /** Appending rows with distinct ids new to the table keeps the ids unique. */
  lemma AppendFreshRows(rows: seq<Subcategory>, extra: seq<Subcategory>)
    requires UniqueKeys(rows, SubcategoryKey)
    requires forall i, j :: 0 <= i < j < |extra| ==> extra[i].id != extra[j].id
    requires forall i, x :: 0 <= i < |extra| && x in rows ==> x.id != extra[i].id
    ensures UniqueKeys(rows + extra, SubcategoryKey)
  {
    var all := rows + extra;
    var n := |rows|;
    assert forall i :: 0 <= i < n ==> all[i] == rows[i] && rows[i] in rows;
    assert forall i :: n <= i < |all| ==> all[i] == extra[i - n];
  }

  /** Seeding with distinct fresh uuids keeps every primary key unique. */
  lemma SeedingKeepsWf(s: Store, cats: seq<(string, Kind)>, subs: seq<(string, seq<string>)>, catIds: seq<Id>, subIds: seq<Id>)
    requires |catIds| == |cats| && |subIds| == SeedCount(subs, Names(cats))
    requires Wf(s) && DistinctIds(catIds) && DistinctIds(subIds)
    requires forall i :: 0 <= i < |subIds| ==> Fresh(s, subIds[i])
    ensures Wf(Seed(s, cats, subs, catIds, subIds))
  {
    if |s.categories| == 0 {
      var rows := SeedCategoryRows(cats, catIds);
      SeedUnfold(s, cats, subs, catIds, subIds);
      var subRows := SeedSubcategoryRows(subs, CategoryIds(rows), subIds);
      SeedKeys(cats, catIds);
      SeedRowIds(subs, CategoryIds(rows), subIds);
      forall i | 0 <= i < |subIds| ensures forall x :: x in s.subcategories ==> x.id != subIds[i] {
        FreshFacts(s, subIds[i]);
      }
      AppendFreshRows(s.subcategories, subRows);
      assert UniqueKeys(rows, CategoryKey);
    }
  }

  /** Seeding a second time does nothing once a first run inserted a category. */
  lemma SeedingIsOnce(s: Store, cats: seq<(string, Kind)>, subs: seq<(string, seq<string>)>, catIds: seq<Id>, subIds: seq<Id>,
                      catIds2: seq<Id>, subIds2: seq<Id>)
    requires |cats| > 0
    requires |catIds| == |cats| && |subIds| == SeedCount(subs, Names(cats))
    requires |catIds2| == |cats| && |subIds2| == SeedCount(subs, Names(cats))
    ensures var r := Seed(s, cats, subs, catIds, subIds);
      Seed(r, cats, subs, catIds2, subIds2) == r
  {
  }
}
