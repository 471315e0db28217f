/** Creating and editing the four lookup tables through their model forms.
    Saving checks the declared uniqueness (`unique=True` on Status and Type
    names, `unique_together` on Category and SubCategory) and, for the
    child tables, that the chosen parent exists. Editing an entity leaves
    the entity itself out of its uniqueness check. */
module Taxonomy {
  import opened Wrappers
  import opened Models

  datatype TaxonomyError = NotFound | UnknownParent | DuplicateName

  /** Some status other than `except` already carries `name`. */
  predicate StatusNameTaken(m: map<Id, Status>, name: string, except: Option<Id>) {
    exists k :: k in m && Some(k) != except && m[k].name == name
  }

  predicate TypeNameTaken(m: map<Id, Type>, name: string, except: Option<Id>) {
    exists k :: k in m && Some(k) != except && m[k].name == name
  }

  predicate CategoryNameTaken(m: map<Id, Category>, name: string, typeId: Id, except: Option<Id>) {
    exists k :: k in m && Some(k) != except && m[k].name == name && m[k].typeId == typeId
  }

  predicate SubCategoryNameTaken(m: map<Id, SubCategory>, name: string, categoryId: Id, except: Option<Id>) {
    exists k :: k in m && Some(k) != except && m[k].name == name && m[k].categoryId == categoryId
  }

  /** Every table of `t` but `statuses` is as in `s`. */
  predicate OnlyStatusesChanged(s: Store, t: Store) {
    t.types == s.types && t.categories == s.categories && t.subcategories == s.subcategories && t.records == s.records
  }

  predicate OnlyTypesChanged(s: Store, t: Store) {
    t.statuses == s.statuses && t.categories == s.categories && t.subcategories == s.subcategories && t.records == s.records
  }

  predicate OnlyCategoriesChanged(s: Store, t: Store) {
    t.statuses == s.statuses && t.types == s.types && t.subcategories == s.subcategories && t.records == s.records
  }

  predicate OnlySubcategoriesChanged(s: Store, t: Store) {
    t.statuses == s.statuses && t.types == s.types && t.categories == s.categories && t.records == s.records
  }

  /** No two rows of `m` share a `key`. */
  predicate UniqueBy<V, K(==)>(m: map<Id, V>, key: V -> K) {
    forall a, b :: a in m && b in m && key(m[a]) == key(m[b]) ==> a == b
  }

  /** Storing `v` under `id` keeps a table's `key` unique when no other row
      of the table has `v`'s key. */
  lemma PutKeepsUnique<V, K>(m: map<Id, V>, id: Id, v: V, key: V -> K)
    requires UniqueBy(m, key)
    requires forall k :: k in m && k != id ==> key(m[k]) != key(v)
    ensures UniqueBy(m[id := v], key)
  {
    var m' := m[id := v];
    forall a, b | a in m' && b in m' && key(m'[a]) == key(m'[b])
      ensures a == b
    {
      if a != id && b != id {
        assert m'[a] == m[a] && m'[b] == m[b];
      }
    }
  }

  /** Adding or renaming a status to a name no other status has keeps
      status names unique. */
  lemma PutKeepsStatusNamesUnique(m: map<Id, Status>, v: Status)
    requires StatusNamesUnique(m) && !StatusNameTaken(m, v.name, Some(v.id))
    ensures StatusNamesUnique(m[v.id := v])
  {
    PutKeepsUnique(m, v.id, v, (x: Status) => x.name);
  }

  lemma PutKeepsTypeNamesUnique(m: map<Id, Type>, v: Type)
    requires TypeNamesUnique(m) && !TypeNameTaken(m, v.name, Some(v.id))
    ensures TypeNamesUnique(m[v.id := v])
  {
    PutKeepsUnique(m, v.id, v, (x: Type) => x.name);
  }

  lemma PutKeepsCategoryNamesUnique(m: map<Id, Category>, v: Category)
    requires CategoryNamesUnique(m) && !CategoryNameTaken(m, v.name, v.typeId, Some(v.id))
    ensures CategoryNamesUnique(m[v.id := v])
  {
    PutKeepsUnique(m, v.id, v, (x: Category) => (x.name, x.typeId));
  }

  lemma PutKeepsSubCategoryNamesUnique(m: map<Id, SubCategory>, v: SubCategory)
    requires SubCategoryNamesUnique(m) && !SubCategoryNameTaken(m, v.name, v.categoryId, Some(v.id))
    ensures SubCategoryNamesUnique(m[v.id := v])
  {
    PutKeepsUnique(m, v.id, v, (x: SubCategory) => (x.name, x.categoryId));
  }

  /** Records keep their references when no table loses a row, provided
      the lookup tables' own references hold in the new store. */
  lemma ReferencesKept(s: Store, t: Store)
    requires ReferencesExist(s)
    requires t.records == s.records
    requires s.statuses.Keys <= t.statuses.Keys && s.types.Keys <= t.types.Keys
    requires s.categories.Keys <= t.categories.Keys && s.subcategories.Keys <= t.subcategories.Keys
    requires forall k :: k in t.categories ==> t.categories[k].typeId in t.types
    requires forall k :: k in t.subcategories ==> t.subcategories[k].categoryId in t.categories
    ensures ReferencesExist(t)
  {
    forall k | k in t.records
      ensures RecordReferencesExist(t, t.records[k])
    {
      assert RecordReferencesExist(s, s.records[k]);
    }
  }

  /** Replacing a status by one with the same id, an unclashing name keeps the store well formed. */
  lemma ReplaceStatusKeepsWellFormed(s: Store, v: Status)
    requires WellFormed(s) && v.id in s.statuses
    requires !StatusNameTaken(s.statuses, v.name, Some(v.id))
    ensures WellFormed(s.(statuses := s.statuses[v.id := v]))
  {
    var t := s.(statuses := s.statuses[v.id := v]);
    PutKeepsStatusNamesUnique(s.statuses, v);
    ReferencesKept(s, t);
  }

  /** Replacing a type by one with the same id, an unclashing name keeps the store well formed. */
  lemma ReplaceTypeKeepsWellFormed(s: Store, v: Type)
    requires WellFormed(s) && v.id in s.types
    requires !TypeNameTaken(s.types, v.name, Some(v.id))
    ensures WellFormed(s.(types := s.types[v.id := v]))
  {
    var t := s.(types := s.types[v.id := v]);
    PutKeepsTypeNamesUnique(s.types, v);
    ReferencesKept(s, t);
  }

  /** Replacing a category by one with the same id, an unclashing name and an existing parent keeps the store well formed. */
  lemma ReplaceCategoryKeepsWellFormed(s: Store, v: Category)
    requires WellFormed(s) && v.id in s.categories && v.typeId in s.types
    requires !CategoryNameTaken(s.categories, v.name, v.typeId, Some(v.id))
    ensures WellFormed(s.(categories := s.categories[v.id := v]))
  {
    var t := s.(categories := s.categories[v.id := v]);
    PutKeepsCategoryNamesUnique(s.categories, v);
    ReferencesKept(s, t);
  }

  /** Replacing a subcategory by one with the same id, an unclashing name and an existing parent keeps the store well formed. */
  lemma ReplaceSubCategoryKeepsWellFormed(s: Store, v: SubCategory)
    requires WellFormed(s) && v.id in s.subcategories && v.categoryId in s.categories
    requires !SubCategoryNameTaken(s.subcategories, v.name, v.categoryId, Some(v.id))
    ensures WellFormed(s.(subcategories := s.subcategories[v.id := v]))
  {
    var t := s.(subcategories := s.subcategories[v.id := v]);
    PutKeepsSubCategoryNamesUnique(s.subcategories, v);
    ReferencesKept(s, t);
  }

  // ---------------------------------------------------------------------
  // Creation: the new row gets the next id
  // ---------------------------------------------------------------------

  function CreateStatus(s: Store, name: string): (r: Result<Store, TaxonomyError>)
    requires WellFormed(s)
    ensures r.Failure? <==> exists k :: k in s.statuses && s.statuses[k].name == name
    ensures r.Failure? ==> r.error == DuplicateName
    ensures r.Success? ==> WellFormed(r.value) && OnlyStatusesChanged(s, r.value)
    ensures r.Success? ==> r.value.statuses.Keys == s.statuses.Keys + {s.nextId} && s.nextId !in s.statuses
    ensures r.Success? ==> r.value.statuses[s.nextId].name == name
    ensures r.Success? ==> forall k :: k in s.statuses ==> r.value.statuses[k] == s.statuses[k]
  {
    if StatusNameTaken(s.statuses, name, None) then Failure(DuplicateName)
    else
      PutKeepsStatusNamesUnique(s.statuses, Status(s.nextId, name));
      var t := s.(statuses := s.statuses[s.nextId := Status(s.nextId, name)], nextId := s.nextId + 1);
      ReferencesKept(s, t);
      assert IdsAgree(t);
      Success(t)
  }

  function CreateType(s: Store, name: string): (r: Result<Store, TaxonomyError>)
    requires WellFormed(s)
    ensures r.Failure? <==> exists k :: k in s.types && s.types[k].name == name
    ensures r.Failure? ==> r.error == DuplicateName
    ensures r.Success? ==> WellFormed(r.value) && OnlyTypesChanged(s, r.value)
    ensures r.Success? ==> r.value.types.Keys == s.types.Keys + {s.nextId} && s.nextId !in s.types
    ensures r.Success? ==> r.value.types[s.nextId].name == name
    ensures r.Success? ==> forall k :: k in s.types ==> r.value.types[k] == s.types[k]
  {
    if TypeNameTaken(s.types, name, None) then Failure(DuplicateName)
    else
      PutKeepsTypeNamesUnique(s.types, Type(s.nextId, name));
      var t := s.(types := s.types[s.nextId := Type(s.nextId, name)], nextId := s.nextId + 1);
      ReferencesKept(s, t);
      assert IdsAgree(t);
      Success(t)
  }

  /** A category's name needs only be unique among the categories of its own type. */
  function CreateCategory(s: Store, name: string, typeId: Id): (r: Result<Store, TaxonomyError>)
    requires WellFormed(s)
    ensures r.Failure? <==>
      typeId !in s.types || exists k :: k in s.categories && s.categories[k].name == name && s.categories[k].typeId == typeId
    ensures r.Failure? ==> r.error == (if typeId !in s.types then UnknownParent else DuplicateName)
    ensures r.Success? ==> WellFormed(r.value) && OnlyCategoriesChanged(s, r.value)
    ensures r.Success? ==> r.value.categories.Keys == s.categories.Keys + {s.nextId} && s.nextId !in s.categories
    ensures r.Success? ==> r.value.categories[s.nextId] == Category(s.nextId, name, typeId)
    ensures r.Success? ==> forall k :: k in s.categories ==> r.value.categories[k] == s.categories[k]
  {
    if typeId !in s.types then Failure(UnknownParent)
    else if CategoryNameTaken(s.categories, name, typeId, None) then Failure(DuplicateName)
    else
      var t := s.(categories := s.categories[s.nextId := Category(s.nextId, name, typeId)], nextId := s.nextId + 1);
      PutKeepsCategoryNamesUnique(s.categories, Category(s.nextId, name, typeId));
      ReferencesKept(s, t);
      assert IdsAgree(t);
      Success(t)
  }

  /** A subcategory's name needs only be unique among the subcategories of its own category. */
  function CreateSubCategory(s: Store, name: string, categoryId: Id): (r: Result<Store, TaxonomyError>)
    requires WellFormed(s)
    ensures r.Failure? <==>
      || categoryId !in s.categories
      || exists k :: k in s.subcategories && s.subcategories[k].name == name && s.subcategories[k].categoryId == categoryId
    ensures r.Failure? ==> r.error == (if categoryId !in s.categories then UnknownParent else DuplicateName)
    ensures r.Success? ==> WellFormed(r.value) && OnlySubcategoriesChanged(s, r.value)
    ensures r.Success? ==> r.value.subcategories.Keys == s.subcategories.Keys + {s.nextId} && s.nextId !in s.subcategories
    ensures r.Success? ==> r.value.subcategories[s.nextId] == SubCategory(s.nextId, name, categoryId)
    ensures r.Success? ==> forall k :: k in s.subcategories ==> r.value.subcategories[k] == s.subcategories[k]
  {
    if categoryId !in s.categories then Failure(UnknownParent)
    else if SubCategoryNameTaken(s.subcategories, name, categoryId, None) then Failure(DuplicateName)
    else
      var t := s.(subcategories := s.subcategories[s.nextId := SubCategory(s.nextId, name, categoryId)], nextId := s.nextId + 1);
      PutKeepsSubCategoryNamesUnique(s.subcategories, SubCategory(s.nextId, name, categoryId));
      ReferencesKept(s, t);
      assert IdsAgree(t);
      Success(t)
  }

  // ---------------------------------------------------------------------
  // Editing: the row keeps its id; its own current values never clash
  // ---------------------------------------------------------------------

  function UpdateStatus(s: Store, id: Id, name: string): (r: Result<Store, TaxonomyError>)
    requires WellFormed(s)
    ensures r.Failure? <==> id !in s.statuses || exists k :: k in s.statuses && k != id && s.statuses[k].name == name
    ensures r.Failure? ==> r.error == (if id !in s.statuses then NotFound else DuplicateName)
    ensures r.Success? ==> WellFormed(r.value) && OnlyStatusesChanged(s, r.value) && r.value.nextId == s.nextId
    ensures r.Success? ==> r.value.statuses.Keys == s.statuses.Keys && r.value.statuses[id] == Status(id, name)
    ensures r.Success? ==> forall k :: k in s.statuses && k != id ==> r.value.statuses[k] == s.statuses[k]
  {
    if id !in s.statuses then Failure(NotFound)
    else if StatusNameTaken(s.statuses, name, Some(id)) then Failure(DuplicateName)
    else
      var t := s.(statuses := s.statuses[id := Status(id, name)]);
      ReplaceStatusKeepsWellFormed(s, Status(id, name));
      Success(t)
  }

  function UpdateType(s: Store, id: Id, name: string): (r: Result<Store, TaxonomyError>)
    requires WellFormed(s)
    ensures r.Failure? <==> id !in s.types || exists k :: k in s.types && k != id && s.types[k].name == name
    ensures r.Failure? ==> r.error == (if id !in s.types then NotFound else DuplicateName)
    ensures r.Success? ==> WellFormed(r.value) && OnlyTypesChanged(s, r.value) && r.value.nextId == s.nextId
    ensures r.Success? ==> r.value.types.Keys == s.types.Keys && r.value.types[id] == Type(id, name)
    ensures r.Success? ==> forall k :: k in s.types && k != id ==> r.value.types[k] == s.types[k]
  {
    if id !in s.types then Failure(NotFound)
    else if TypeNameTaken(s.types, name, Some(id)) then Failure(DuplicateName)
    else
      var t := s.(types := s.types[id := Type(id, name)]);
      ReplaceTypeKeepsWellFormed(s, Type(id, name));
      Success(t)
  }

  /** The category form offers every field, so an edit may also move the
      category to another type. */
  function UpdateCategory(s: Store, id: Id, name: string, typeId: Id): (r: Result<Store, TaxonomyError>)
    requires WellFormed(s)
    ensures r.Failure? <==>
      || id !in s.categories
      || typeId !in s.types
      || exists k :: k in s.categories && k != id && s.categories[k].name == name && s.categories[k].typeId == typeId
    ensures r.Failure? ==>
      r.error == (if id !in s.categories then NotFound else if typeId !in s.types then UnknownParent else DuplicateName)
    ensures r.Success? ==> WellFormed(r.value) && OnlyCategoriesChanged(s, r.value) && r.value.nextId == s.nextId
    ensures r.Success? ==> r.value.categories.Keys == s.categories.Keys && r.value.categories[id] == Category(id, name, typeId)
    ensures r.Success? ==> forall k :: k in s.categories && k != id ==> r.value.categories[k] == s.categories[k]
  {
    if id !in s.categories then Failure(NotFound)
    else if typeId !in s.types then Failure(UnknownParent)
    else if CategoryNameTaken(s.categories, name, typeId, Some(id)) then Failure(DuplicateName)
    else
      var t := s.(categories := s.categories[id := Category(id, name, typeId)]);
      ReplaceCategoryKeepsWellFormed(s, Category(id, name, typeId));
      Success(t)
  }

  /** Likewise a subcategory may be moved to another category. */
  function UpdateSubCategory(s: Store, id: Id, name: string, categoryId: Id): (r: Result<Store, TaxonomyError>)
    requires WellFormed(s)
    ensures r.Failure? <==>
      || id !in s.subcategories
      || categoryId !in s.categories
      || exists k :: k in s.subcategories && k != id && s.subcategories[k].name == name && s.subcategories[k].categoryId == categoryId
    ensures r.Failure? ==>
      r.error == (if id !in s.subcategories then NotFound else if categoryId !in s.categories then UnknownParent else DuplicateName)
    ensures r.Success? ==> WellFormed(r.value) && OnlySubcategoriesChanged(s, r.value) && r.value.nextId == s.nextId
    ensures r.Success? ==> r.value.subcategories.Keys == s.subcategories.Keys && r.value.subcategories[id] == SubCategory(id, name, categoryId)
    ensures r.Success? ==> forall k :: k in s.subcategories && k != id ==> r.value.subcategories[k] == s.subcategories[k]
  {
    if id !in s.subcategories then Failure(NotFound)
    else if categoryId !in s.categories then Failure(UnknownParent)
    else if SubCategoryNameTaken(s.subcategories, name, categoryId, Some(id)) then Failure(DuplicateName)
    else
      var t := s.(subcategories := s.subcategories[id := SubCategory(id, name, categoryId)]);
      ReplaceSubCategoryKeepsWellFormed(s, SubCategory(id, name, categoryId));
      Success(t)
  }

  /** Equal names under different parents are allowed: once a category
      `name` exists under one type, creating `name` under another type that
      has no such category still succeeds. */
  lemma SameCategoryNameUnderAnotherType(s: Store, existing: Id, otherType: Id)
    requires WellFormed(s)
    requires existing in s.categories
    requires otherType in s.types && otherType != s.categories[existing].typeId
    requires !CategoryNameTaken(s.categories, s.categories[existing].name, otherType, None)
    ensures CreateCategory(s, s.categories[existing].name, otherType).Success?
    ensures var t := CreateCategory(s, s.categories[existing].name, otherType).value;
      t.categories[existing].name == t.categories[s.nextId].name && t.categories[existing].typeId != t.categories[s.nextId].typeId
  {
  }
}
