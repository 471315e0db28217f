/** The four stand-alone record validators. Each takes already-resolved
    values and either passes or raises `ValueError`; none touches the store.
    The wall clock they consult is the explicit `today` argument. */
module Validation {
  import opened Wrappers
  import opened Models

  /** The reason a validator raised. */
  datatype ValidationError =
    | CategoryNotOfType
    | SubcategoryNotOfCategory
    | CustomDateInFuture
    | NegativeAmount

  /** A category and a type, both given, must agree; a missing one is never an error. */
  function ValidateCategoryTypeMatch(category: Option<Category>, recordType: Option<Type>): (r: Outcome<ValidationError>)
    ensures r.Fail? <==> category.Some? && recordType.Some? && category.value.typeId != recordType.value.id
    ensures r.Fail? ==> r.error == CategoryNotOfType
  {
    if category.Some? && recordType.Some? && category.value.typeId != recordType.value.id then
      Fail(CategoryNotOfType)
    else
      Pass
  }

  /** A subcategory and a category, both given, must agree; a missing one is never an error. */
  function ValidateSubcategoryCategoryMatch(subcategory: Option<SubCategory>, category: Option<Category>): (r: Outcome<ValidationError>)
    ensures r.Fail? <==> subcategory.Some? && category.Some? && subcategory.value.categoryId != category.value.id
    ensures r.Fail? ==> r.error == SubcategoryNotOfCategory
  {
    if subcategory.Some? && category.Some? && subcategory.value.categoryId != category.value.id then
      Fail(SubcategoryNotOfCategory)
    else
      Pass
  }

  /** A custom date may be today or earlier; no custom date is fine. */
  function ValidateCustomDate(customDate: Option<Date>, today: Date): (r: Outcome<ValidationError>)
    ensures r.Fail? <==> customDate.Some? && customDate.value > today
    ensures r.Fail? ==> r.error == CustomDateInFuture
  {
    match customDate
    case None => Pass
    case Some(d) => if d > today then Fail(CustomDateInFuture) else Pass
  }

  /** An amount may be zero or positive. */
  function ValidateAmount(amount: int): (r: Outcome<ValidationError>)
    ensures r.Fail? <==> amount < 0
    ensures r.Fail? ==> r.error == NegativeAmount
  {
    if amount < 0 then Fail(NegativeAmount) else Pass
  }

  /** The boundary cases of the date and amount checks. */
  lemma ValidatorBoundaries(today: Date)
    ensures ValidateCustomDate(None, today) == Pass
    ensures ValidateCustomDate(Some(today), today) == Pass
    ensures ValidateCustomDate(Some(today + 1), today) == Fail(CustomDateInFuture)
    ensures ValidateAmount(0) == Pass
    ensures ValidateAmount(-1) == Fail(NegativeAmount)
  {
  }

  /** The date check is about the date a record is listed under: for a
      record created no later than `today`, the custom date passes exactly
      when the record's effective date is not after `today`. */
  lemma CustomDateBoundsEffectiveDate(r: Record, today: Date)
    requires r.createdAt <= today
    ensures ValidateCustomDate(r.customDate, today) == Pass <==> EffectiveDate(r) <= today
  {
  }

  /** A date that passes today passes on every later day too; one that
      fails today passed on no earlier day. */
  lemma CustomDateMonotone(customDate: Option<Date>, today: Date, later: Date)
    requires today <= later
    ensures ValidateCustomDate(customDate, today) == Pass ==> ValidateCustomDate(customDate, later) == Pass
  {
  }

  /** For a record whose references exist, the two taxonomy validators
      both pass on its resolved references exactly when its category belongs
      to its type and its subcategory to its category. */
  lemma ValidatorsDecideConsistency(s: Store, r: Record)
    requires WellFormed(s)
    requires RecordReferencesExist(s, r)
    ensures TaxonomyConsistent(s, r) <==>
      && ValidateCategoryTypeMatch(Some(s.categories[r.categoryId]), Some(s.types[r.typeId])) == Pass
      && ValidateSubcategoryCategoryMatch(Some(s.subcategories[r.subcategoryId]), Some(s.categories[r.categoryId])) == Pass
  {
  }
}
