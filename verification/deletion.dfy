/** Deleting lookup rows. A Category goes with its Type and a SubCategory
    with its Category (`on_delete=CASCADE`); every reference from a cash-flow
    record is `on_delete=PROTECT`. Deleting a row therefore means collecting
    the row and everything that cascades from it, and refusing the whole
    delete, with nothing removed, when any record references any collected
    row. Records themselves are referenced by nothing and always go. */
module Deletion {
  import opened Wrappers
  import opened Models

  /** The rows one delete would remove, table by table. */
  datatype Collected = Collected(
    statuses: set<Id>,
    types: set<Id>,
    categories: set<Id>,
    subcategories: set<Id>)

  datatype DeleteError =
    | NotFound
      /** The ids of the records that protect some collected row. */
    | Protected(records: set<Id>)

  /** A record references (and so protects) some collected row. */
  predicate Protects(r: Record, c: Collected) {
    || (r.statusId.Some? && r.statusId.value in c.statuses)
    || r.typeId in c.types
    || r.categoryId in c.categories
    || r.subcategoryId in c.subcategories
  }

  function ProtectingRecords(s: Store, c: Collected): (ids: set<Id>)
    ensures forall k :: k in ids <==> k in s.records && Protects(s.records[k], c)
  {
    set k | k in s.records && Protects(s.records[k], c)
  }

  /** Remove the collected rows, unless a record protects one of them. */
  function DeleteCollected(s: Store, c: Collected): (r: Result<Store, DeleteError>)
    ensures r.Failure? <==> exists k :: k in s.records && Protects(s.records[k], c)
    ensures r.Failure? ==> r.error == Protected(ProtectingRecords(s, c)) && r.error.records != {}
    ensures r.Success? ==>
      && r.value.statuses == s.statuses - c.statuses
      && r.value.types == s.types - c.types
      && r.value.categories == s.categories - c.categories
      && r.value.subcategories == s.subcategories - c.subcategories
      && r.value.records == s.records
      && r.value.nextId == s.nextId
  {
    if exists k :: k in s.records && Protects(s.records[k], c) then
      Failure(Protected(ProtectingRecords(s, c)))
    else
      Success(s.(
        statuses := s.statuses - c.statuses,
        types := s.types - c.types,
        categories := s.categories - c.categories,
        subcategories := s.subcategories - c.subcategories))
  }

  /** A type together with its categories and their subcategories. */
  function TypeCascade(s: Store, t: Id): (c: Collected)
    ensures c.statuses == {} && c.types == {t}
    ensures forall k :: k in c.categories <==> k in s.categories && s.categories[k].typeId == t
    ensures forall k :: k in c.subcategories <==>
      k in s.subcategories && s.subcategories[k].categoryId in s.categories
      && s.categories[s.subcategories[k].categoryId].typeId == t
  {
    var categories := CategoriesOf(s, t);
    Collected({}, {t}, categories, set k | k in s.subcategories && s.subcategories[k].categoryId in categories)
  }

  /** A category together with its subcategories. */
  function CategoryCascade(s: Store, cat: Id): (c: Collected)
    ensures c.statuses == {} && c.types == {} && c.categories == {cat}
    ensures forall k :: k in c.subcategories <==> k in s.subcategories && s.subcategories[k].categoryId == cat
  {
    Collected({}, {}, {cat}, SubcategoriesOf(s, cat))
  }

  /** Removing collected rows keeps the store well formed when the
      collection is closed under CASCADE and no record protects it. */
  lemma DeleteKeepsWellFormed(s: Store, c: Collected)
    requires WellFormed(s)
    requires forall k :: k in s.categories && s.categories[k].typeId in c.types ==> k in c.categories
    requires forall k :: k in s.subcategories && s.subcategories[k].categoryId in c.categories ==> k in c.subcategories
    requires DeleteCollected(s, c).Success?
    ensures WellFormed(DeleteCollected(s, c).value)
  {
    var t := DeleteCollected(s, c).value;
    forall k | k in t.records
      ensures RecordReferencesExist(t, t.records[k])
    {
      assert !Protects(s.records[k], c);
      assert RecordReferencesExist(s, s.records[k]);
    }
    forall k | k in t.categories
      ensures t.categories[k].typeId in t.types
    {
      assert s.categories[k].typeId in s.types;
    }
    forall k | k in t.subcategories
      ensures t.subcategories[k].categoryId in t.categories
    {
      assert s.subcategories[k].categoryId in s.categories;
    }
  }

  function DeleteStatus(s: Store, id: Id): (r: Result<Store, DeleteError>)
    requires WellFormed(s)
    ensures id !in s.statuses ==> r == Failure(NotFound)
    ensures id in s.statuses ==> (r.Failure? <==> exists k :: k in s.records && s.records[k].statusId == Some(id))
    ensures r.Failure? && r.error.Protected? ==>
      forall k :: k in r.error.records <==> k in s.records && s.records[k].statusId == Some(id)
    ensures r.Success? ==> WellFormed(r.value)
    ensures r.Success? ==>
      && r.value.statuses == s.statuses - {id}
      && r.value.types == s.types && r.value.categories == s.categories
      && r.value.subcategories == s.subcategories && r.value.records == s.records
  {
    if id !in s.statuses then Failure(NotFound)
    else
      var c := Collected({id}, {}, {}, {});
      assert forall k :: k in s.records ==> (Protects(s.records[k], c) <==> s.records[k].statusId == Some(id));
      var r := DeleteCollected(s, c);
      if r.Success? then DeleteKeepsWellFormed(s, c); r else r
  }

  /** Deleting a type also deletes its categories and their subcategories,
      and is refused when a record references the type, or any of those
      categories, or any of those subcategories. */
  function DeleteType(s: Store, id: Id): (r: Result<Store, DeleteError>)
    requires WellFormed(s)
    ensures id !in s.types ==> r == Failure(NotFound)
    ensures id in s.types ==> (r.Failure? <==> exists k :: k in s.records && UsesType(s, s.records[k], id))
    ensures r.Failure? && r.error.Protected? ==>
      forall k :: k in r.error.records <==> k in s.records && UsesType(s, s.records[k], id)
    ensures r.Success? ==> WellFormed(r.value)
    ensures r.Success? ==>
      && r.value.types == s.types - {id}
      && (forall k :: k in r.value.categories <==> k in s.categories && s.categories[k].typeId != id)
      && (forall k :: k in r.value.subcategories <==>
            k in s.subcategories && s.categories[s.subcategories[k].categoryId].typeId != id)
      && (forall k :: k in r.value.categories ==> r.value.categories[k] == s.categories[k])
      && (forall k :: k in r.value.subcategories ==> r.value.subcategories[k] == s.subcategories[k])
      && r.value.statuses == s.statuses && r.value.records == s.records
  {
    if id !in s.types then Failure(NotFound)
    else
      var c := TypeCascade(s, id);
      assert forall k :: k in s.records ==> (Protects(s.records[k], c) <==> UsesType(s, s.records[k], id));
      var r := DeleteCollected(s, c);
      if r.Success? then DeleteKeepsWellFormed(s, c); r else r
  }

  /** A record uses type `t` directly, or through its category or its
      subcategory belonging (in the stored taxonomy) under `t`. */
  predicate UsesType(s: Store, r: Record, t: Id)
    requires RecordReferencesExist(s, r) && ReferencesExist(s)
  {
    || r.typeId == t
    || s.categories[r.categoryId].typeId == t
    || s.categories[s.subcategories[r.subcategoryId].categoryId].typeId == t
  }

  /** Deleting a category also deletes its subcategories, and is refused
      when a record references the category or any of those subcategories. */
  function DeleteCategory(s: Store, id: Id): (r: Result<Store, DeleteError>)
    requires WellFormed(s)
    ensures id !in s.categories ==> r == Failure(NotFound)
    ensures id in s.categories ==> (r.Failure? <==> exists k :: k in s.records && UsesCategory(s, s.records[k], id))
    ensures r.Failure? && r.error.Protected? ==>
      forall k :: k in r.error.records <==> k in s.records && UsesCategory(s, s.records[k], id)
    ensures r.Success? ==> WellFormed(r.value)
    ensures r.Success? ==>
      && r.value.categories == s.categories - {id}
      && (forall k :: k in r.value.subcategories <==> k in s.subcategories && s.subcategories[k].categoryId != id)
      && (forall k :: k in r.value.subcategories ==> r.value.subcategories[k] == s.subcategories[k])
      && r.value.statuses == s.statuses && r.value.types == s.types && r.value.records == s.records
  {
    if id !in s.categories then Failure(NotFound)
    else
      var c := CategoryCascade(s, id);
      assert forall k :: k in s.records ==> (Protects(s.records[k], c) <==> UsesCategory(s, s.records[k], id));
      var r := DeleteCollected(s, c);
      if r.Success? then DeleteKeepsWellFormed(s, c); r else r
  }

  /** A record uses category `c` directly or through its subcategory. */
  predicate UsesCategory(s: Store, r: Record, c: Id)
    requires RecordReferencesExist(s, r)
  {
    r.categoryId == c || s.subcategories[r.subcategoryId].categoryId == c
  }

  /** A subcategory has nothing below it: only direct references protect it. */
  function DeleteSubCategory(s: Store, id: Id): (r: Result<Store, DeleteError>)
    requires WellFormed(s)
    ensures id !in s.subcategories ==> r == Failure(NotFound)
    ensures id in s.subcategories ==> (r.Failure? <==> exists k :: k in s.records && s.records[k].subcategoryId == id)
    ensures r.Failure? && r.error.Protected? ==>
      forall k :: k in r.error.records <==> k in s.records && s.records[k].subcategoryId == id
    ensures r.Success? ==> WellFormed(r.value)
    ensures r.Success? ==>
      && r.value.subcategories == s.subcategories - {id}
      && r.value.statuses == s.statuses && r.value.types == s.types
      && r.value.categories == s.categories && r.value.records == s.records
  {
    if id !in s.subcategories then Failure(NotFound)
    else
      var c := Collected({}, {}, {}, {id});
      assert forall k :: k in s.records ==> (Protects(s.records[k], c) <==> s.records[k].subcategoryId == id);
      var r := DeleteCollected(s, c);
      if r.Success? then DeleteKeepsWellFormed(s, c); r else r
  }

  /** Deleting a record is never refused. */
  function DeleteRecord(s: Store, id: Id): (r: Result<Store, DeleteError>)
    requires WellFormed(s)
    ensures r.Failure? <==> id !in s.records
    ensures r.Failure? ==> r.error == NotFound
    ensures r.Success? ==> WellFormed(r.value)
    ensures r.Success? ==>
      && r.value.records == s.records - {id}
      && r.value.statuses == s.statuses && r.value.types == s.types
      && r.value.categories == s.categories && r.value.subcategories == s.subcategories
  {
    if id !in s.records then Failure(NotFound)
    else Success(s.(records := s.records - {id}))
  }

  /** Cascade plus protect: a record that references only a subcategory of
      a category of type `t` (not `t` itself) still blocks deleting `t`. */
  lemma IndirectReferenceBlocksTypeDelete(s: Store, t: Id, k: Id)
    requires WellFormed(s)
    requires t in s.types
    requires k in s.records && s.records[k].typeId != t
    requires s.categories[s.subcategories[s.records[k].subcategoryId].categoryId].typeId == t
    ensures DeleteType(s, t).Failure? && k in DeleteType(s, t).error.records
  {
  }
}
