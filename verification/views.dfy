/** The views that carry behaviour: the filtered, ordered record list, the
    two JSON child lookups behind the dependent drop-downs, the record
    create and update views, and the delete views, three of them turning a
    refused delete into a warning on the directories page. */
module Views {
  import opened Wrappers
  import opened Models
  import opened Forms
  import opened Query
  import opened IntParse
  import opened Deletion
  import Taxonomy
  import Validation

  // ---------------------------------------------------------------------
  // The record list (`CashFlowRecordListView`)
  // ---------------------------------------------------------------------

  /** Whether the list shows record `r` for filter submission `f`: every
      record when the filter form is invalid, otherwise the matching ones. */
  predicate Shown(s: Store, f: FilterSubmission, r: Record) {
    match CleanFilter(s, f)
    case None => true
    case Some(q) => Matches(q, r)
  }

  /** `get_queryset()`: all records, ordered by `created_at` newest first,
      then narrowed by each filled-in filter field. */
  method ListRecords(s: Store, f: FilterSubmission) returns (out: seq<Record>)
    ensures forall r :: r in out <==> r in s.records.Values && Shown(s, f, r)
    ensures NewestFirst(out)
    ensures Distinct(out)
  {
    var left := s.records.Values;
    var all: seq<Record> := [];
    while left != {}
      invariant left <= s.records.Values
      invariant forall r :: r in all <==> r in s.records.Values && r !in left
      invariant Distinct(all)
      decreases |left|
    {
      var r :| r in left;
      Prepend(r, all);
      all := [r] + all;
      left := left - {r};
    }
    var sorted := SortNewestFirst(all);
    assert forall r :: r in sorted <==> r in multiset(all);
    match CleanFilter(s, f)
    case None =>
      out := sorted;
    case Some(q) =>
      out := KeepAll(sorted, Conditions(q));
      forall r
        ensures r in out <==> r in sorted && Matches(q, r)
      {
        ConditionsMeanMatches(q, r);
      }
  }

  /** An invalid filter form, or one with every field left empty, lists
      every record. */
  lemma UnfilteredListsEverything(s: Store, f: FilterSubmission, r: Record)
    requires CleanFilter(s, f) == None || CleanFilter(s, f) == Some(NoFilter)
    ensures Shown(s, f, r)
  {
  }

  /** A listed record lies within the given date bounds (inclusive) on its
      effective date and has every reference the filter names. */
  lemma ShownWithinBounds(s: Store, f: FilterSubmission, q: Filter, r: Record)
    requires CleanFilter(s, f) == Some(q)
    requires Shown(s, f, r)
    ensures q.dateFrom.Some? ==> q.dateFrom.value <= EffectiveDate(r)
    ensures q.dateTo.Some? ==> EffectiveDate(r) <= q.dateTo.value
    ensures q.statusId.Some? ==> r.statusId == q.statusId
    ensures q.typeId.Some? ==> r.typeId == q.typeId.value
    ensures q.categoryId.Some? ==> r.categoryId == q.categoryId.value
    ensures q.subcategoryId.Some? ==> r.subcategoryId == q.subcategoryId.value
  {
  }

  // ---------------------------------------------------------------------
  // The child lookups (`load_subcategories`, `load_categories`)
  // ---------------------------------------------------------------------

  /** One `{"id": ..., "name": ...}` entry of a lookup's JSON answer. */
  datatype Choice = Choice(id: Id, name: string)

  /** The lookup parameter was not a number: Django's integer conversion
      raises and the request ends in a server error. */
  datatype LookupError = NotANumber

  /** `SubCategory.objects.filter(category_id=...)`. A missing parameter
      filters on NULL and matches nothing; the answer carries no order. */
  function LoadSubcategories(s: Store, categoryParam: Option<string>): (r: Result<set<Choice>, LookupError>)
    ensures categoryParam.None? ==> r == Success({})
    ensures categoryParam.Some? ==> (r.Failure? <==> ParseInt(categoryParam.value).None?)
    ensures r.Success? && categoryParam.Some? ==>
      var c := ParseInt(categoryParam.value).value;
      forall ch :: ch in r.value <==>
        ch.id in s.subcategories && s.subcategories[ch.id].categoryId == c && ch.name == s.subcategories[ch.id].name
  {
    match categoryParam
    case None => Success({})
    case Some(raw) =>
      match ParseInt(raw)
      case None => Failure(NotANumber)
      case Some(c) => Success(set k | k in SubcategoriesOf(s, c) :: Choice(k, s.subcategories[k].name))
  }

  /** `Category.objects.filter(type_id=...)`, the same way. */
  function LoadCategories(s: Store, typeParam: Option<string>): (r: Result<set<Choice>, LookupError>)
    ensures typeParam.None? ==> r == Success({})
    ensures typeParam.Some? ==> (r.Failure? <==> ParseInt(typeParam.value).None?)
    ensures r.Success? && typeParam.Some? ==>
      var t := ParseInt(typeParam.value).value;
      forall ch :: ch in r.value <==>
        ch.id in s.categories && s.categories[ch.id].typeId == t && ch.name == s.categories[ch.id].name
  {
    match typeParam
    case None => Success({})
    case Some(raw) =>
      match ParseInt(raw)
      case None => Failure(NotANumber)
      case Some(t) => Success(set k | k in CategoriesOf(s, t) :: Choice(k, s.categories[k].name))
  }

  function ChoiceIds(cs: set<Choice>): set<Id> {
    set ch | ch in cs :: ch.id
  }

  /** The subcategories the drop-down is refilled with, for the category
      the form then submits, are exactly the ones the form accepts. */
  lemma LookupAgreesWithForm(s: Store, data: FormData, instance: Option<Record>)
    requires WellFormed(s)
    requires "category" in data && ParseInt(data["category"]).Some?
    ensures LoadSubcategories(s, Some(data["category"])).Success?
    ensures ChoiceIds(LoadSubcategories(s, Some(data["category"])).value) == SubcategoryChoices(s, Some(data), instance)
  {
    KeyMeansNonEmpty(data, "category");
    var c := ParseInt(data["category"]).value;
    var loaded := LoadSubcategories(s, Some(data["category"])).value;
    forall k | k in SubcategoryChoices(s, Some(data), instance)
      ensures k in ChoiceIds(loaded)
    {
      assert Choice(k, s.subcategories[k].name) in loaded;
    }
    forall k | k in ChoiceIds(loaded)
      ensures k in SubcategoryChoices(s, Some(data), instance)
    {
      var ch :| ch in loaded && ch.id == k;
      assert s.subcategories[k].categoryId in s.categories;
    }
  }

  /** An id naming no category, or no type, gives an empty answer. */
  lemma UnknownParentLoadsNothing(s: Store, raw: string)
    requires WellFormed(s)
    requires ParseInt(raw).Some?
    ensures ParseInt(raw).value !in s.categories ==> LoadSubcategories(s, Some(raw)) == Success({})
    ensures ParseInt(raw).value !in s.types ==> LoadCategories(s, Some(raw)) == Success({})
  {
    var n := ParseInt(raw).value;
    if n !in s.categories {
      UnknownCategoryHasNoSubcategories(s, n);
      assert forall ch :: ch !in LoadSubcategories(s, Some(raw)).value;
      assert LoadSubcategories(s, Some(raw)).value == {};
    }
    if n !in s.types {
      UnknownTypeHasNoCategories(s, n);
      assert forall ch :: ch !in LoadCategories(s, Some(raw)).value;
      assert LoadCategories(s, Some(raw)).value == {};
    }
  }

  // ---------------------------------------------------------------------
  // Responses
  // ---------------------------------------------------------------------

  datatype Page = RecordList | Directories

  /** The warning a guarded delete view flashes when it was refused. */
  datatype Warning = TypeInUse | CategoryInUse | SubCategoryInUse

  datatype Response =
    | Redirect(to: Page, warning: Option<Warning>)
    | FormWithErrors(errors: seq<FieldError>)
    | NotFoundPage
    | ServerError

  /** The store after a request, and what the browser is sent. */
  datatype Reply = Reply(store: Store, response: Response)

  // ---------------------------------------------------------------------
  // Record create and update (`CreateView` / `UpdateView` with the record form)
  // ---------------------------------------------------------------------

  function NewRecord(id: Id, createdAt: Date, f: RecordFields): Record {
    Record(id, createdAt, f.customDate, f.statusId, f.typeId, f.categoryId, f.subcategoryId, f.amount, Some(f.comment))
  }

  /** Stores a record whose references exist under its own id; the store
      stays well formed and nothing but that record changes. */
  function PutRecord(s: Store, rec: Record, nextId: Id): (t: Store)
    requires WellFormed(s)
    requires 0 < rec.id < nextId && s.nextId <= nextId
    requires RecordReferencesExist(s, rec)
    ensures WellFormed(t)
    ensures t.records.Keys == s.records.Keys + {rec.id} && t.records[rec.id] == rec
    ensures forall k :: k in s.records && k != rec.id ==> t.records[k] == s.records[k]
    ensures t.statuses == s.statuses && t.types == s.types
    ensures t.categories == s.categories && t.subcategories == s.subcategories
    ensures t.nextId == nextId
  {
    var t := s.(records := s.records[rec.id := rec], nextId := nextId);
    assert IdsAgree(t) by {
      forall k | k in t.records
        ensures t.records[k].id == k && 0 < k < t.nextId
      {
      }
    }
    assert ReferencesExist(t) by {
      forall k | k in t.records
        ensures RecordReferencesExist(t, t.records[k])
      {
        if k != rec.id {
          assert RecordReferencesExist(s, s.records[k]);
        }
      }
    }
    assert NamesUnique(t) by {
      assert t.statuses == s.statuses && t.types == s.types;
      assert t.categories == s.categories && t.subcategories == s.subcategories;
    }
    t
  }

  /** Saving a valid form adds a record stamped with today's date
      (`auto_now_add`); an invalid one re-renders the form with its errors. */
  function CreateRecord(s: Store, sub: RecordSubmission, today: Date): (r: Reply)
    requires WellFormed(s)
    ensures r.response.Redirect? || r.response.FormWithErrors?
    ensures r.response.Redirect? <==> ValidateRecordForm(s, sub, None).Success?
    ensures r.response.FormWithErrors? ==>
      && r.store == s && r.response.errors != []
      && ValidateRecordForm(s, sub, None).Failure?
      && r.response.errors == ValidateRecordForm(s, sub, None).error
    ensures r.response.Redirect? ==>
      && ValidateRecordForm(s, sub, None).Success? && s.nextId in r.store.records
      && r.store.records[s.nextId] == NewRecord(s.nextId, today, ValidateRecordForm(s, sub, None).value)
    ensures r.response.Redirect? ==>
      && r.response == Redirect(RecordList, None)
      && WellFormed(r.store)
      && r.store.records.Keys == s.records.Keys + {s.nextId}
      && s.nextId !in s.records
      && (forall k :: k in s.records ==> r.store.records[k] == s.records[k])
      && r.store.records[s.nextId].id == s.nextId
      && r.store.records[s.nextId].createdAt == today
      && TaxonomyConsistent(r.store, r.store.records[s.nextId])
      && sub.amount == Given(r.store.records[s.nextId].amount)
      && r.store.statuses == s.statuses && r.store.types == s.types
      && r.store.categories == s.categories && r.store.subcategories == s.subcategories
  {
    var v := ValidateRecordForm(s, sub, None);
    if v.Failure? then Reply(s, FormWithErrors(v.error))
    else
      var rec := NewRecord(s.nextId, today, v.value);
      assert RecordReferencesExist(s, rec) && TaxonomyConsistent(s, rec);
      SaveNew(s, rec)
  }

  function SaveNew(s: Store, rec: Record): (r: Reply)
    requires WellFormed(s) && rec.id == s.nextId
    requires RecordReferencesExist(s, rec) && TaxonomyConsistent(s, rec)
    ensures r.response == Redirect(RecordList, None)
    ensures WellFormed(r.store) && s.nextId !in s.records
    ensures r.store.records.Keys == s.records.Keys + {s.nextId} && r.store.records[s.nextId] == rec
    ensures forall k :: k in s.records ==> r.store.records[k] == s.records[k]
    ensures r.store.statuses == s.statuses && r.store.types == s.types
    ensures r.store.categories == s.categories && r.store.subcategories == s.subcategories
  {
    Reply(PutRecord(s, rec, s.nextId + 1), Redirect(RecordList, None))
  }

  /** Saving an edit replaces the record's editable fields; its id and its
      creation date stay. The form's subcategory choices come from the
      submitted data, or from the edited record when nothing was submitted. */
  function UpdateRecord(s: Store, id: Id, sub: RecordSubmission): (r: Reply)
    requires WellFormed(s)
    ensures id !in s.records ==> r == Reply(s, NotFoundPage)
    ensures r.response.Redirect? || r.response.FormWithErrors? ==> id in s.records
    ensures id in s.records ==> (r.response.Redirect? <==> ValidateRecordForm(s, sub, Some(s.records[id])).Success?)
    ensures id in s.records ==> (r.response.Redirect? || r.response.FormWithErrors?)
    ensures r.response.FormWithErrors? ==>
      && r.store == s && r.response.errors != []
      && id in s.records && ValidateRecordForm(s, sub, Some(s.records[id])).Failure?
      && r.response.errors == ValidateRecordForm(s, sub, Some(s.records[id])).error
    ensures r.response.Redirect? ==>
      && id in s.records && ValidateRecordForm(s, sub, Some(s.records[id])).Success? && id in r.store.records
      && r.store.records[id] == NewRecord(id, s.records[id].createdAt, ValidateRecordForm(s, sub, Some(s.records[id])).value)
    ensures r.response.Redirect? ==>
      && r.response == Redirect(RecordList, None)
      && WellFormed(r.store)
      && r.store.records.Keys == s.records.Keys
      && (forall k :: k in s.records && k != id ==> r.store.records[k] == s.records[k])
      && r.store.records[id].id == id
      && r.store.records[id].createdAt == s.records[id].createdAt
      && TaxonomyConsistent(r.store, r.store.records[id])
      && sub.amount == Given(r.store.records[id].amount)
      && r.store.statuses == s.statuses && r.store.types == s.types
      && r.store.categories == s.categories && r.store.subcategories == s.subcategories
      && r.store.nextId == s.nextId
  {
    if id !in s.records then Reply(s, NotFoundPage)
    else
      var prev := s.records[id];
      var v := ValidateRecordForm(s, sub, Some(prev));
      if v.Failure? then Reply(s, FormWithErrors(v.error))
      else SaveEdit(s, id, NewRecord(id, prev.createdAt, v.value))
  }

  function SaveEdit(s: Store, id: Id, rec: Record): (r: Reply)
    requires WellFormed(s) && id in s.records && rec.id == id
    requires RecordReferencesExist(s, rec) && TaxonomyConsistent(s, rec)
    ensures r.response == Redirect(RecordList, None)
    ensures WellFormed(r.store) && r.store.records.Keys == s.records.Keys && r.store.records[id] == rec
    ensures forall k :: k in s.records && k != id ==> r.store.records[k] == s.records[k]
    ensures r.store.statuses == s.statuses && r.store.types == s.types
    ensures r.store.categories == s.categories && r.store.subcategories == s.subcategories
    ensures r.store.nextId == s.nextId
  {
    assert s.records.Keys + {id} == s.records.Keys;
    Reply(PutRecord(s, rec, s.nextId), Redirect(RecordList, None))
  }

  /** A submission is saved, by the create view and by the update view of
      an existing record alike, exactly when it is acceptable. */
  lemma SavedExactlyWhenAcceptable(s: Store, sub: RecordSubmission, today: Date, id: Id)
    requires WellFormed(s)
    ensures CreateRecord(s, sub, today).response.Redirect? <==> AcceptableRecord(s, sub)
    ensures id in s.records ==> (UpdateRecord(s, id, sub).response.Redirect? <==> AcceptableRecord(s, sub))
  {
    assert ValidateRecordForm(s, sub, None).Success? <==> AcceptableRecord(s, sub);
    if id in s.records {
      assert ValidateRecordForm(s, sub, Some(s.records[id])).Success? <==> AcceptableRecord(s, sub);
    }
  }

  /** However many times a record is edited, its creation date is the one
      it was created with. */
  lemma EditsKeepCreationDate(s: Store, sub: RecordSubmission, today: Date, edits: seq<RecordSubmission>)
    requires WellFormed(s)
    requires CreateRecord(s, sub, today).response.Redirect?
    ensures var t := CreateRecord(s, sub, today).store;
      var u := ApplyEdits(t, s.nextId, edits);
      s.nextId in u.records && u.records[s.nextId].createdAt == today
  {
    var t := CreateRecord(s, sub, today).store;
    EditsKeepRecord(t, s.nextId, edits);
  }

  /** Edits `edits` applied in turn to record `id`. */
  function ApplyEdits(s: Store, id: Id, edits: seq<RecordSubmission>): (t: Store)
    requires WellFormed(s)
    ensures WellFormed(t)
    ensures id in s.records ==> id in t.records
    decreases |edits|
  {
    if |edits| == 0 then s
    else ApplyEdits(UpdateRecord(s, id, edits[0]).store, id, edits[1..])
  }

  lemma {:induction false} EditsKeepRecord(s: Store, id: Id, edits: seq<RecordSubmission>)
    requires WellFormed(s)
    requires id in s.records
    ensures id in ApplyEdits(s, id, edits).records
    ensures ApplyEdits(s, id, edits).records[id].createdAt == s.records[id].createdAt
    decreases |edits|
  {
    if |edits| > 0 {
      var t := UpdateRecord(s, id, edits[0]).store;
      assert t.records[id].createdAt == s.records[id].createdAt;
      EditsKeepRecord(t, id, edits[1..]);
    }
  }

  // ---------------------------------------------------------------------
  // Delete views
  // ---------------------------------------------------------------------

  /** The shared shape of a delete view: a missing row is a 404; a refused
      delete either becomes `warning` on the directories page (the guarded
      views) or, with no warning to give, a server error. */
  function DeleteReply(s: Store, deleted: Result<Store, DeleteError>, to: Page, warning: Option<Warning>): (r: Reply)
    ensures deleted.Success? ==> r == Reply(deleted.value, Redirect(to, None))
    ensures deleted == Failure(NotFound) ==> r == Reply(s, NotFoundPage)
    ensures deleted.Failure? && deleted.error.Protected? ==>
      r.store == s && r.response == (if warning.Some? then Redirect(to, warning) else ServerError)
  {
    match deleted
    case Success(t) => Reply(t, Redirect(to, None))
    case Failure(NotFound) => Reply(s, NotFoundPage)
    case Failure(Protected(_)) =>
      match warning
      case Some(w) => Reply(s, Redirect(to, Some(w)))
      case None => Reply(s, ServerError)
  }

  /** `TypeDeleteView.post`: a type in use, directly or through any of its
      categories or their subcategories, stays, and the user is warned. */
  function DeleteTypeView(s: Store, id: Id): (r: Reply)
    requires WellFormed(s)
    ensures id !in s.types ==> r == Reply(s, NotFoundPage)
    ensures id in s.types && (exists k :: k in s.records && UsesType(s, s.records[k], id)) ==>
      r == Reply(s, Redirect(Directories, Some(TypeInUse)))
    ensures id in s.types && !(exists k :: k in s.records && UsesType(s, s.records[k], id)) ==>
      DeleteType(s, id).Success? && r.store == DeleteType(s, id).value
    ensures id in s.types && !(exists k :: k in s.records && UsesType(s, s.records[k], id)) ==>
      && r.response == Redirect(Directories, None)
      && WellFormed(r.store) && r.store.types == s.types - {id}
      && (forall k :: k in r.store.categories <==> k in s.categories && s.categories[k].typeId != id)
      && (forall k :: k in r.store.subcategories <==>
            k in s.subcategories && s.categories[s.subcategories[k].categoryId].typeId != id)
      && r.store.statuses == s.statuses && r.store.records == s.records
  {
    DeleteReply(s, DeleteType(s, id), Directories, Some(TypeInUse))
  }

  /** `CategoryDeleteView.post`, the same for a category and its subcategories. */
  function DeleteCategoryView(s: Store, id: Id): (r: Reply)
    requires WellFormed(s)
    ensures id !in s.categories ==> r == Reply(s, NotFoundPage)
    ensures id in s.categories && (exists k :: k in s.records && UsesCategory(s, s.records[k], id)) ==>
      r == Reply(s, Redirect(Directories, Some(CategoryInUse)))
    ensures id in s.categories && !(exists k :: k in s.records && UsesCategory(s, s.records[k], id)) ==>
      DeleteCategory(s, id).Success? && r.store == DeleteCategory(s, id).value
    ensures id in s.categories && !(exists k :: k in s.records && UsesCategory(s, s.records[k], id)) ==>
      && r.response == Redirect(Directories, None)
      && WellFormed(r.store) && r.store.categories == s.categories - {id}
      && (forall k :: k in r.store.subcategories <==> k in s.subcategories && s.subcategories[k].categoryId != id)
      && r.store.statuses == s.statuses && r.store.types == s.types && r.store.records == s.records
  {
    DeleteReply(s, DeleteCategory(s, id), Directories, Some(CategoryInUse))
  }

  /** `SubCategoryDeleteView.post`. */
  function DeleteSubCategoryView(s: Store, id: Id): (r: Reply)
    requires WellFormed(s)
    ensures id !in s.subcategories ==> r == Reply(s, NotFoundPage)
    ensures id in s.subcategories && (exists k :: k in s.records && s.records[k].subcategoryId == id) ==>
      r == Reply(s, Redirect(Directories, Some(SubCategoryInUse)))
    ensures id in s.subcategories && !(exists k :: k in s.records && s.records[k].subcategoryId == id) ==>
      DeleteSubCategory(s, id).Success? && r.store == DeleteSubCategory(s, id).value
    ensures id in s.subcategories && !(exists k :: k in s.records && s.records[k].subcategoryId == id) ==>
      && r.response == Redirect(Directories, None)
      && WellFormed(r.store) && r.store.subcategories == s.subcategories - {id}
      && r.store.statuses == s.statuses && r.store.types == s.types
      && r.store.categories == s.categories && r.store.records == s.records
  {
    DeleteReply(s, DeleteSubCategory(s, id), Directories, Some(SubCategoryInUse))
  }

  /** `StatusDeleteView` has no guard: deleting a status in use raises
      `ProtectedError` out of the view. The collector raises before it
      deletes anything, so the store is unchanged, but the user gets a
      server error. */
  function DeleteStatusView(s: Store, id: Id): (r: Reply)
    requires WellFormed(s)
    ensures id !in s.statuses ==> r == Reply(s, NotFoundPage)
    ensures id in s.statuses && (exists k :: k in s.records && s.records[k].statusId == Some(id)) ==>
      r == Reply(s, ServerError)
    ensures id in s.statuses && !(exists k :: k in s.records && s.records[k].statusId == Some(id)) ==>
      DeleteStatus(s, id).Success? && r.store == DeleteStatus(s, id).value
    ensures id in s.statuses && !(exists k :: k in s.records && s.records[k].statusId == Some(id)) ==>
      && r.response == Redirect(Directories, None)
      && WellFormed(r.store) && r.store.statuses == s.statuses - {id}
      && r.store.types == s.types && r.store.categories == s.categories
      && r.store.subcategories == s.subcategories && r.store.records == s.records
  {
    DeleteReply(s, DeleteStatus(s, id), Directories, None)
  }

  /** `CashFlowRecordDeleteView`: nothing references a record. */
  function DeleteRecordView(s: Store, id: Id): (r: Reply)
    requires WellFormed(s)
    ensures id !in s.records ==> r == Reply(s, NotFoundPage)
    ensures id in s.records ==>
      DeleteRecord(s, id).Success? && r.store == DeleteRecord(s, id).value
    ensures id in s.records ==>
      && r.response == Redirect(RecordList, None)
      && WellFormed(r.store) && r.store.records == s.records - {id}
      && r.store.statuses == s.statuses && r.store.types == s.types
      && r.store.categories == s.categories && r.store.subcategories == s.subcategories
  {
    DeleteReply(s, DeleteRecord(s, id), RecordList, None)
  }

  // ---------------------------------------------------------------------
  // What the record form does not check
  // ---------------------------------------------------------------------

  /** A small directory: type 1 "Income", its category 2 "Salary", and
      that category's subcategory 3 "Bonus". */
  function SampleStore(): (s: Store)
    ensures WellFormed(s)
  {
    Store(map[], map[1 := Type(1, "Income")], map[2 := Category(2, "Salary", 1)],
      map[3 := SubCategory(3, "Bonus", 2)], map[], 4)
  }

  /** The record form filled in with Income / Salary / Bonus. */
  function SampleSubmission(amount: int, customDate: Field<Date>): RecordSubmission {
    RecordSubmission(map["type" := "1", "category" := "2", "subcategory" := "3"], customDate, Given(amount), None)
  }

  lemma SampleFieldsParse()
    ensures ParseInt("1") == Some(1) && ParseInt("2") == Some(2) && ParseInt("3") == Some(3)
  {
    assert Show(1) == "1" && Show(2) == "2" && Show(3) == "3";
    ParseShow(1);
    ParseShow(2);
    ParseShow(3);
  }

  lemma SampleIsAcceptable(amount: int, customDate: Field<Date>)
    requires !customDate.Invalid? && FitsAmountColumn(amount)
    ensures AcceptableRecord(SampleStore(), SampleSubmission(amount, customDate))
  {
    SampleFieldsParse();
    var data := SampleSubmission(amount, customDate).data;
    assert "status" !in data;
    assert data["type"] == "1" && data["category"] == "2" && data["subcategory"] == "3";
  }

  /** An acceptable submission is stored under the next id as submitted:
      its amount, its custom date (if any), its cleaned comment, stamped
      `today`. */
  lemma AcceptableIsStored(s: Store, sub: RecordSubmission, today: Date)
    requires WellFormed(s)
    requires AcceptableRecord(s, sub)
    ensures var r := CreateRecord(s, sub, today);
      && r.response == Redirect(RecordList, None)
      && s.nextId in r.store.records
      && r.store.records[s.nextId].amount == sub.amount.value
      && r.store.records[s.nextId].customDate == (if sub.customDate.Given? then Some(sub.customDate.value) else None)
      && r.store.records[s.nextId].createdAt == today
      && r.store.records[s.nextId].comment == Some(CleanComment(sub.comment))
  {
    var v := ValidateRecordForm(s, sub, None);
    assert v.Success?;
  }

  /** Income / Salary / Bonus with amount 0 and no custom date is saved,
      stamped today and listed under today. */
  lemma SampleRecordIsSaved(today: Date)
    ensures var r := CreateRecord(SampleStore(), SampleSubmission(0, Blank), today);
      && r.response == Redirect(RecordList, None)
      && 4 in r.store.records && r.store.records[4].amount == 0
      && r.store.records[4].createdAt == today && EffectiveDate(r.store.records[4]) == today
  {
    SampleIsAcceptable(0, Blank);
    AcceptableIsStored(SampleStore(), SampleSubmission(0, Blank), today);
  }

  /** The same form with amount -1 and tomorrow's date is saved too, though
      the stand-alone validators both reject what is stored. */
  lemma SampleUncheckedRecordIsSaved(today: Date)
    ensures var r := CreateRecord(SampleStore(), SampleSubmission(-1, Given(today + 1)), today);
      && r.response == Redirect(RecordList, None)
      && 4 in r.store.records
      && Validation.ValidateAmount(r.store.records[4].amount) == Fail(Validation.NegativeAmount)
      && Validation.ValidateCustomDate(r.store.records[4].customDate, today) == Fail(Validation.CustomDateInFuture)
  {
    var sub := SampleSubmission(-1, Given(today + 1));
    SampleIsAcceptable(-1, Given(today + 1));
    AcceptableIsStored(SampleStore(), sub, today);
    var rec := CreateRecord(SampleStore(), sub, today).store.records[4];
    assert rec.amount == -1 && rec.customDate == Some(today + 1);
  }

  /** The sample directory after the type form adds Expense (id 4), under
      which Salary does not lie. */
  function SampleStoreWithExpense(): (s: Store)
    ensures WellFormed(s)
    ensures 4 in s.types && 2 in s.categories && s.categories[2].typeId == 1
    ensures 3 in s.subcategories && s.subcategories[3].categoryId == 2
  {
    var base := SampleStore();
    assert forall k :: k in base.types ==> k == 1;
    assert base.types[1].name != "Expense";
    var r := Taxonomy.CreateType(base, "Expense");
    r.value
  }

  /** Salary / Bonus filed under Expense. */
  function SalaryUnderExpense(): RecordSubmission {
    RecordSubmission(map["type" := "4", "category" := "2", "subcategory" := "3"], Blank, Given(0), None)
  }

  lemma SalaryUnderExpenseFields()
    ensures var data := SalaryUnderExpense().data;
      && "type" in data && ParseInt(data["type"]) == Some(4)
      && "category" in data && ParseInt(data["category"]) == Some(2)
      && "subcategory" in data && ParseInt(data["subcategory"]) == Some(3)
      && !FilledIn(data, "status")
  {
    var data := SalaryUnderExpense().data;
    SampleFieldsParse();
    assert ParseInt("4") == Some(4) by {
      assert Show(4) == "4";
      ParseShow(4);
    }
    assert data["type"] == "4" && data["category"] == "2" && data["subcategory"] == "3";
    assert "status" !in data;
  }

  lemma SalaryUnderExpenseIsMismatched()
    ensures CategoryOfOtherType(SampleStoreWithExpense(), SalaryUnderExpense())
  {
    var s := SampleStoreWithExpense();
    var sub := SalaryUnderExpense();
    SalaryUnderExpenseFields();
    assert CleanComment(sub.comment) == "";
  }

  /** Filing Salary / Bonus under Expense is refused with the one category
      error, and nothing is saved. */
  lemma SalaryUnderExpenseRejected(today: Date)
    ensures ValidateRecordForm(SampleStoreWithExpense(), SalaryUnderExpense(), None) == Failure([WrongCategory])
    ensures CreateRecord(SampleStoreWithExpense(), SalaryUnderExpense(), today)
      == Reply(SampleStoreWithExpense(), FormWithErrors([WrongCategory]))
  {
    SalaryUnderExpenseIsMismatched();
    OnlyCategoryMismatch(SampleStoreWithExpense(), SalaryUnderExpense(), None);
  }

  /** Moving a category under another type (the category form edits both
      fields) leaves the records filed under it inconsistent: the record
      form checks consistency only when a record is saved. */
  lemma ReparentingBreaksRecords(s: Store, cat: Id, newType: Id, k: Id)
    requires WellFormed(s)
    requires cat in s.categories && newType in s.types && newType != s.categories[cat].typeId
    requires k in s.records && s.records[k].categoryId == cat && TaxonomyConsistent(s, s.records[k])
    requires Taxonomy.UpdateCategory(s, cat, s.categories[cat].name, newType).Success?
    ensures var t := Taxonomy.UpdateCategory(s, cat, s.categories[cat].name, newType).value;
      k in t.records && !TaxonomyConsistent(t, t.records[k])
  {
  }
}
