/** The five tables of the cash-flow app and the constraints the database
    keeps on them: Status and Type (unique names), Category under a Type and
    SubCategory under a Category (names unique per parent), and the cash-flow
    records that reference all four. */
module Models {
  import opened Wrappers

  /** Primary keys; the database hands out positive ids. */
  type Id = int

  /** A calendar day as a day number: an earlier day is a smaller number. */
  type Date = int

  datatype Status = Status(id: Id, name: string)

  /** The root of the taxonomy ("income", "expense", ...). */
  datatype Type = Type(id: Id, name: string)

  datatype Category = Category(id: Id, name: string, typeId: Id)

  datatype SubCategory = SubCategory(id: Id, name: string, categoryId: Id)

  /** A cash-flow record. `amount` is in kopecks, so the two decimal places of
      the money column are exact; `createdAt` is stamped once, on creation. */
  datatype Record = Record(
    id: Id,
    createdAt: Date,
    customDate: Option<Date>,
    statusId: Option<Id>,
    typeId: Id,
    categoryId: Id,
    subcategoryId: Id,
    amount: int,
    comment: Option<string>)

  /** The whole database: one map per table, keyed by id, and the next id
      the database will assign. */
  datatype Store = Store(
    statuses: map<Id, Status>,
    types: map<Id, Type>,
    categories: map<Id, Category>,
    subcategories: map<Id, SubCategory>,
    records: map<Id, Record>,
    nextId: Id)

  function EmptyStore(): (s: Store)
    ensures WellFormed(s)
  {
    Store(map[], map[], map[], map[], map[], 1)
  }

  /** The date a record is listed and filtered under: the custom date when
      one was entered, otherwise the creation date. */
  function EffectiveDate(r: Record): Date {
    match r.customDate
    case Some(d) => d
    case None => r.createdAt
  }

  /** `DECIMAL(12, 2)`: at most ten digits before the decimal point. Two
      digits after it are exact in kopecks, so only the magnitude can fail. */
  const AmountLimit: int := 1_000_000_000_000

  predicate FitsAmountColumn(kopecks: int) {
    -AmountLimit < kopecks < AmountLimit
  }

  // ---------------------------------------------------------------------
  // Database constraints
  // ---------------------------------------------------------------------

  /** Every row is stored under its own id, which is positive and below `nextId`. */
  predicate IdsAgree(s: Store) {
    && s.nextId > 0
    && (forall k :: k in s.statuses ==> s.statuses[k].id == k && 0 < k < s.nextId)
    && (forall k :: k in s.types ==> s.types[k].id == k && 0 < k < s.nextId)
    && (forall k :: k in s.categories ==> s.categories[k].id == k && 0 < k < s.nextId)
    && (forall k :: k in s.subcategories ==> s.subcategories[k].id == k && 0 < k < s.nextId)
    && (forall k :: k in s.records ==> s.records[k].id == k && 0 < k < s.nextId)
  }

  /** Foreign keys point at existing rows. */
  predicate ReferencesExist(s: Store) {
    && (forall k :: k in s.categories ==> s.categories[k].typeId in s.types)
    && (forall k :: k in s.subcategories ==> s.subcategories[k].categoryId in s.categories)
    && (forall k :: k in s.records ==> RecordReferencesExist(s, s.records[k]))
  }

  predicate RecordReferencesExist(s: Store, r: Record) {
    && (r.statusId.Some? ==> r.statusId.value in s.statuses)
    && r.typeId in s.types
    && r.categoryId in s.categories
    && r.subcategoryId in s.subcategories
  }

  /** `Status.name` is `unique=True`. */
  predicate StatusNamesUnique(m: map<Id, Status>) {
    forall a, b :: a in m && b in m && m[a].name == m[b].name ==> a == b
  }

  /** `Type.name` is `unique=True`. */
  predicate TypeNamesUnique(m: map<Id, Type>) {
    forall a, b :: a in m && b in m && m[a].name == m[b].name ==> a == b
  }

  /** `Category` has `unique_together = ('name', 'type')`. */
  predicate CategoryNamesUnique(m: map<Id, Category>) {
    forall a, b :: a in m && b in m && m[a].name == m[b].name && m[a].typeId == m[b].typeId ==> a == b
  }

  /** `SubCategory` has `unique_together = ('name', 'category')`. */
  predicate SubCategoryNamesUnique(m: map<Id, SubCategory>) {
    forall a, b :: a in m && b in m && m[a].name == m[b].name && m[a].categoryId == m[b].categoryId ==> a == b
  }

  predicate NamesUnique(s: Store) {
    && StatusNamesUnique(s.statuses)
    && TypeNamesUnique(s.types)
    && CategoryNamesUnique(s.categories)
    && SubCategoryNamesUnique(s.subcategories)
  }

  /** Everything the database itself guarantees about its contents. */
  predicate WellFormed(s: Store) {
    IdsAgree(s) && ReferencesExist(s) && NamesUnique(s)
  }

  /** A record whose category belongs to its type and whose subcategory
      belongs to its category. The database does not enforce this; the
      record form does, at the moment of saving. */
  predicate TaxonomyConsistent(s: Store, r: Record) {
    && r.categoryId in s.categories
    && s.categories[r.categoryId].typeId == r.typeId
    && r.subcategoryId in s.subcategories
    && s.subcategories[r.subcategoryId].categoryId == r.categoryId
  }

  /** The subcategories of category `c`. */
  function SubcategoriesOf(s: Store, c: Id): set<Id>
  {
    set k | k in s.subcategories && s.subcategories[k].categoryId == c
  }

  /** The categories of type `t`. */
  function CategoriesOf(s: Store, t: Id): set<Id>
  {
    set k | k in s.categories && s.categories[k].typeId == t
  }

  /** In a well-formed store a category that does not exist has no subcategories. */
  lemma UnknownCategoryHasNoSubcategories(s: Store, c: Id)
    requires WellFormed(s)
    requires c !in s.categories
    ensures SubcategoriesOf(s, c) == {}
  {
    forall k | k in s.subcategories
      ensures s.subcategories[k].categoryId != c
    {
      assert s.subcategories[k].categoryId in s.categories;
    }
  }

  /** In a well-formed store a type that does not exist has no categories. */
  lemma UnknownTypeHasNoCategories(s: Store, t: Id)
    requires WellFormed(s)
    requires t !in s.types
    ensures CategoriesOf(s, t) == {}
  {
    forall k | k in s.categories
      ensures s.categories[k].typeId != t
    {
      assert s.categories[k].typeId in s.types;
    }
  }
}
