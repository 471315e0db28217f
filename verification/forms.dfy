/** The record form and the list filter form.

    The record form restricts the subcategory choices to one category, taken
    from the submitted data when there is any and from the edited record
    otherwise; converts each submitted field; and then runs its own
    cross-field check, which reports a mismatched category and a mismatched
    subcategory independently of each other. The filter form has six
    optional fields. */
module Forms {
  import opened Wrappers
  import opened Models
  import opened IntParse
  import Validation

  /** Submitted form data: field name to submitted text (for a repeated
      key, the last value, as `QueryDict.get` returns it). */
  type FormData = map<string, string>

  /** A field after conversion: left empty, not convertible, or a value. */
  datatype Field<+T> = Blank | Invalid | Given(value: T)

  function Get(data: FormData, key: string): Option<string> {
    if key in data then Some(data[key]) else None
  }

  /** The browser sent some text for `key`. */
  predicate FilledIn(data: FormData, key: string) {
    key in data && data[key] != ""
  }

  /** The text sent for `key` is, to `int()`, the id of one of `ids`. */
  predicate NamesId(data: FormData, key: string, ids: set<Id>) {
    key in data && ParseInt(data[key]).Some? && ParseInt(data[key]).value in ids
  }

  // ---------------------------------------------------------------------
  // Subcategory choices (`CashFlowRecordForm.__init__`)
  // ---------------------------------------------------------------------

  /** `if data:` — data was passed and is not empty. */
  predicate Submitted(data: Option<FormData>) {
    data.Some? && |data.value| > 0
  }

  /** The category id the choices are computed from; `None` when
      `int(data.get("category"))` raised, or when there is neither data
      nor an instance. */
  function ChoiceCategory(data: Option<FormData>, instance: Option<Record>): Option<int> {
    if Submitted(data) then
      if "category" in data.value then ParseInt(data.value["category"]) else None
    else if instance.Some? then Some(instance.value.categoryId)
    else None
  }

  /** The ids offered (and accepted) for the `subcategory` field. A
      category id of `0` is falsy in Python and so gives no choices. */
  function SubcategoryChoices(s: Store, data: Option<FormData>, instance: Option<Record>): (r: set<Id>)
    ensures r <= s.subcategories.Keys
    ensures Submitted(data) && "category" in data.value && ParseInt(data.value["category"]).Some? ==>
      var c := ParseInt(data.value["category"]).value;
      forall k :: k in r <==> c != 0 && k in s.subcategories && s.subcategories[k].categoryId == c
    ensures Submitted(data) && ("category" !in data.value || ParseInt(data.value["category"]).None?) ==> r == {}
    ensures !Submitted(data) && instance.Some? ==>
      var c := instance.value.categoryId;
      forall k :: k in r <==> c != 0 && k in s.subcategories && s.subcategories[k].categoryId == c
    ensures !Submitted(data) && instance.None? ==> r == {}
  {
    match ChoiceCategory(data, instance)
    case Some(c) => if c != 0 then SubcategoriesOf(s, c) else {}
    case None => {}
  }

  /** Submitted data decides alone: an edited record's category is ignored
      whenever any data was submitted, even data with no usable category. */
  lemma DataOverridesInstance(s: Store, data: FormData, instance: Record)
    requires |data| > 0
    ensures SubcategoryChoices(s, Some(data), Some(instance)) == SubcategoryChoices(s, Some(data), None)
  {
  }

  // ---------------------------------------------------------------------
  // Field conversion
  // ---------------------------------------------------------------------

  /** A `ModelChoiceField`: empty text is blank; otherwise the text must
      convert to an id among the offered choices. */
  function CleanChoice(raw: Option<string>, choices: set<Id>): (f: Field<Id>)
    ensures f.Blank? <==> raw.None? || raw.value == ""
    ensures f.Given? <==> raw.Some? && raw.value != "" && ParseInt(raw.value).Some? && ParseInt(raw.value).value in choices
    ensures f.Given? ==> f.value in choices && ParseInt(raw.value) == Some(f.value)
  {
    if raw.None? || raw.value == "" then Blank
    else match ParseInt(raw.value)
      case Some(k) => if k in choices then Given(k) else Invalid
      case None => Invalid
  }

  /** `CleanChoice` on a field of the submitted data, read in terms of the
      data itself. */
  lemma ChoiceOfData(data: FormData, key: string, ids: set<Id>)
    ensures CleanChoice(Get(data, key), ids).Given? <==> NamesId(data, key, ids)
    ensures CleanChoice(Get(data, key), ids).Given? ==>
      CleanChoice(Get(data, key), ids).value == ParseInt(data[key]).value
    ensures CleanChoice(Get(data, key), ids).Blank? <==> !FilledIn(data, key)
    ensures CleanChoice(Get(data, key), ids).Invalid? <==> FilledIn(data, key) && !NamesId(data, key, ids)
  {
    if NamesId(data, key, ids) {
      assert data[key] != "";
    }
  }

  datatype FieldName = CustomDateField | StatusField | TypeField | CategoryField | SubcategoryField | AmountField | CommentField

  datatype ErrorKind =
    | Required
    | InvalidChoice
    | InvalidValue
    | TooManyDigits
    | NullCharacters
    | CategoryNotOfType
    | SubcategoryNotOfCategory

  /** One message attached to one field, as `form.errors` holds them. */
  datatype FieldError = FieldError(field: FieldName, kind: ErrorKind)

  function ChoiceErrors(name: FieldName, f: Field<Id>, required: bool): (errors: seq<FieldError>)
    ensures errors == [] <==> f.Given? || (f.Blank? && !required)
    ensures f.Invalid? ==> errors == [FieldError(name, InvalidChoice)]
    ensures f.Blank? && required ==> errors == [FieldError(name, Required)]
    ensures forall e :: e in errors ==> e.field == name && e.kind in {InvalidChoice, Required}
  {
    if f.Invalid? then [FieldError(name, InvalidChoice)]
    else if f.Blank? && required then [FieldError(name, Required)]
    else []
  }

  function DateErrors(f: Field<Date>): (errors: seq<FieldError>)
    ensures errors == [] <==> !f.Invalid?
    ensures forall e :: e in errors ==> e == FieldError(CustomDateField, InvalidValue)
  {
    if f.Invalid? then [FieldError(CustomDateField, InvalidValue)] else []
  }

  /** The amount is required and must fit `DECIMAL(12, 2)`; its sign is not checked. */
  function AmountErrors(f: Field<int>): (errors: seq<FieldError>)
    ensures errors == [] <==> f.Given? && FitsAmountColumn(f.value)
    ensures f.Blank? ==> errors == [FieldError(AmountField, Required)]
    ensures forall e :: e in errors ==> e.field == AmountField
  {
    match f
    case Blank => [FieldError(AmountField, Required)]
    case Invalid => [FieldError(AmountField, InvalidValue)]
    case Given(a) => if FitsAmountColumn(a) then [] else [FieldError(AmountField, TooManyDigits)]
  }

  /** The amount's error kinds: missing, not a number, or too wide. */
  predicate AmountReports(f: Field<int>, kind: ErrorKind) {
    || (kind == Required && f.Blank?)
    || (kind == InvalidValue && f.Invalid?)
    || (kind == TooManyDigits && f.Given? && !FitsAmountColumn(f.value))
  }

  /** The comment as Django's `CharField` cleans it (`strip=True`, empty
      value `""`): absent text is the empty string, and surrounding
      whitespace is removed. */
  function CleanComment(raw: Option<string>): (c: string)
    ensures raw.None? ==> c == ""
    ensures |c| > 0 ==> !IsSpace(StrSpaces, c[0]) && !IsSpace(StrSpaces, c[|c| - 1])
    ensures forall ch :: ch in c ==> raw.Some? && ch in raw.value
  {
    if raw.None? then "" else Strip(StrSpaces, raw.value)
  }

  /** The comment's one check, `ProhibitNullCharactersValidator`, run on
      the cleaned text. */
  function CommentErrors(raw: Option<string>): (errors: seq<FieldError>)
    ensures errors == [] <==> '\0' !in CleanComment(raw)
    ensures forall e :: e in errors ==> e == FieldError(CommentField, NullCharacters)
  {
    if '\0' in CleanComment(raw) then [FieldError(CommentField, NullCharacters)] else []
  }

  /** Whitespace around a comment never changes what is stored. */
  lemma CommentIgnoresSurroundingSpace(w1: string, c: string, w2: string)
    requires AllSpace(StrSpaces, w1) && AllSpace(StrSpaces, w2)
    ensures CleanComment(Some(w1 + c + w2)) == CleanComment(Some(c))
  {
    StripSurrounded(StrSpaces, w1, c, w2);
  }

  /** Submitting a stored comment again stores it unchanged. */
  lemma CleanCommentIdempotent(raw: Option<string>)
    ensures CleanComment(Some(CleanComment(raw))) == CleanComment(raw)
  {
    if raw.Some? {
      StripIdempotent(StrSpaces, raw.value);
    } else {
      assert TrimLeft(StrSpaces, "") == "";
    }
  }

  /** `"  rent "` is stored as `"rent"`. */
  lemma SampleCommentStripped()
    ensures CleanComment(Some("  rent ")) == "rent"
  {
    var rent, lead, trail := "rent", "  ", " ";
    assert AllSpace(StrSpaces, lead) && AllSpace(StrSpaces, trail) by {
      assert lead[0] == ' ' && lead[1] == ' ' && trail[0] == ' ';
    }
    assert Strip(StrSpaces, rent) == rent by {
      assert rent[0] == 'r' && rent[|rent| - 1] == 't';
      StripUnchanged(StrSpaces, rent);
    }
    assert "  rent " == lead + rent + trail;
    StripSurrounded(StrSpaces, lead, rent, trail);
  }

  /** A blank comment, sent empty or not sent, is stored as `""`. */
  lemma BlankCommentIsEmpty()
    ensures CleanComment(Some("")) == "" && CleanComment(None) == ""
  {
    assert TrimLeft(StrSpaces, "") == "";
  }

  // ---------------------------------------------------------------------
  // Cross-field check (`CashFlowRecordForm.clean`)
  // ---------------------------------------------------------------------

  const WrongCategory := FieldError(CategoryField, CategoryNotOfType)
  const WrongSubcategory := FieldError(SubcategoryField, SubcategoryNotOfCategory)

  /** The form's own check on the converted type, category and subcategory
      (each absent when its field failed or was empty). Both checks always
      run; each attaches its error to its own field. */
  function Clean(recordType: Option<Type>, category: Option<Category>, subcategory: Option<SubCategory>): (errors: seq<FieldError>)
    ensures WrongCategory in errors <==>
      category.Some? && recordType.Some? && category.value.typeId != recordType.value.id
    ensures WrongSubcategory in errors <==>
      subcategory.Some? && category.Some? && subcategory.value.categoryId != category.value.id
    ensures forall e :: e in errors ==> e == WrongCategory || e == WrongSubcategory
    ensures |errors| <= 2 && (|errors| == 2 ==> errors == [WrongCategory, WrongSubcategory])
  {
    (if category.Some? && recordType.Some? && category.value.typeId != recordType.value.id then [WrongCategory] else [])
    + (if subcategory.Some? && category.Some? && subcategory.value.categoryId != category.value.id then [WrongSubcategory] else [])
  }

  /** The form's check and the stand-alone validators decide alike. */
  lemma CleanAgreesWithValidators(recordType: Option<Type>, category: Option<Category>, subcategory: Option<SubCategory>)
    ensures WrongCategory in Clean(recordType, category, subcategory) <==>
      Validation.ValidateCategoryTypeMatch(category, recordType).Fail?
    ensures WrongSubcategory in Clean(recordType, category, subcategory) <==>
      Validation.ValidateSubcategoryCategoryMatch(subcategory, category).Fail?
  {
  }

  /** One call reports both mismatches together. */
  lemma CleanReportsBoth(recordType: Type, category: Category, subcategory: SubCategory)
    requires category.typeId != recordType.id && subcategory.categoryId != category.id
    ensures Clean(Some(recordType), Some(category), Some(subcategory)) == [WrongCategory, WrongSubcategory]
  {
  }

  // ---------------------------------------------------------------------
  // The whole record form
  // ---------------------------------------------------------------------

  /** A record form submission. The reference fields are read as text from
      `data`, and the comment is its raw text (`None` when it was not sent);
      the date and the amount arrive already converted (a date, and
      kopecks), since Django's date and decimal parsing is not modelled. */
  datatype RecordSubmission = RecordSubmission(
    data: FormData,
    customDate: Field<Date>,
    amount: Field<int>,
    comment: Option<string>)

  /** The editable fields of a record, as a valid form delivers them. */
  datatype RecordFields = RecordFields(
    customDate: Option<Date>,
    statusId: Option<Id>,
    typeId: Id,
    categoryId: Id,
    subcategoryId: Id,
    amount: int,
    comment: string)

  function ResolveType(s: Store, f: Field<Id>): Option<Type> {
    if f.Given? && f.value in s.types then Some(s.types[f.value]) else None
  }

  function ResolveCategory(s: Store, f: Field<Id>): Option<Category> {
    if f.Given? && f.value in s.categories then Some(s.categories[f.value]) else None
  }

  function ResolveSubCategory(s: Store, f: Field<Id>): Option<SubCategory> {
    if f.Given? && f.value in s.subcategories then Some(s.subcategories[f.value]) else None
  }

  /** The four reference fields of a submission, converted. */
  datatype References = References(status: Field<Id>, recordType: Field<Id>, category: Field<Id>, subcategory: Field<Id>)

  function CleanReferences(s: Store, sub: RecordSubmission, instance: Option<Record>): (r: References)
    ensures r.status.Given? ==> r.status.value in s.statuses
    ensures r.recordType.Given? ==> r.recordType.value in s.types
    ensures r.category.Given? ==> r.category.value in s.categories
    ensures r.subcategory.Given? ==> r.subcategory.value in s.subcategories
    ensures r.subcategory.Given? && r.category.Given? ==>
      s.subcategories[r.subcategory.value].categoryId == r.category.value
  {
    var r := References(
      CleanChoice(Get(sub.data, "status"), s.statuses.Keys),
      CleanChoice(Get(sub.data, "type"), s.types.Keys),
      CleanChoice(Get(sub.data, "category"), s.categories.Keys),
      CleanChoice(Get(sub.data, "subcategory"), SubcategoryChoices(s, Some(sub.data), instance)));
    if "subcategory" in sub.data then KeyMeansNonEmpty(sub.data, "subcategory"); r else r
  }

  /** Errors from converting each field, in the model's field order. */
  function FieldErrors(sub: RecordSubmission, refs: References): (errors: seq<FieldError>)
    ensures WrongCategory !in errors && WrongSubcategory !in errors
    ensures errors == [] <==>
      && !sub.customDate.Invalid? && !refs.status.Invalid?
      && refs.recordType.Given? && refs.category.Given? && refs.subcategory.Given?
      && sub.amount.Given? && FitsAmountColumn(sub.amount.value)
      && '\0' !in CleanComment(sub.comment)
    ensures refs.recordType.Blank? ==> FieldError(TypeField, Required) in errors
    ensures refs.subcategory.Invalid? ==> FieldError(SubcategoryField, InvalidChoice) in errors
    ensures sub.amount.Blank? ==> FieldError(AmountField, Required) in errors
  {
    var head := HeadErrors(sub, refs);
    var tail := TailErrors(sub, refs);
    assert |head + tail| == |head| + |tail|;
    head + tail
  }

  /** The custom date, status and type fields. */
  function HeadErrors(sub: RecordSubmission, refs: References): (errors: seq<FieldError>)
    ensures forall e :: e in errors ==> e.field in {CustomDateField, StatusField, TypeField}
    ensures errors == [] <==> !sub.customDate.Invalid? && !refs.status.Invalid? && refs.recordType.Given?
    ensures refs.recordType.Blank? ==> FieldError(TypeField, Required) in errors
  {
    var date := DateErrors(sub.customDate);
    var status := ChoiceErrors(StatusField, refs.status, false);
    var recordType := ChoiceErrors(TypeField, refs.recordType, true);
    assert |date + status + recordType| == |date| + |status| + |recordType|;
    date + status + recordType
  }

  /** The category, subcategory, amount and comment fields. */
  function TailErrors(sub: RecordSubmission, refs: References): (errors: seq<FieldError>)
    ensures forall e :: e in errors ==> e.field in {CategoryField, SubcategoryField, AmountField, CommentField}
    ensures forall e :: e in errors ==> e.kind != CategoryNotOfType && e.kind != SubcategoryNotOfCategory
    ensures errors == [] <==>
      && refs.category.Given? && refs.subcategory.Given?
      && sub.amount.Given? && FitsAmountColumn(sub.amount.value)
      && '\0' !in CleanComment(sub.comment)
    ensures refs.subcategory.Invalid? ==> FieldError(SubcategoryField, InvalidChoice) in errors
    ensures sub.amount.Blank? ==> FieldError(AmountField, Required) in errors
  {
    var category := ChoiceErrors(CategoryField, refs.category, true);
    var subcategory := ChoiceErrors(SubcategoryField, refs.subcategory, true);
    var amount := AmountErrors(sub.amount);
    var comment := CommentErrors(sub.comment);
    assert |category + subcategory + amount + comment| == |category| + |subcategory| + |amount| + |comment|;
    category + subcategory + amount + comment
  }

  /** A converted choice field's error kinds. */
  predicate ChoiceKind(f: Field<Id>, required: bool, kind: ErrorKind) {
    (kind == InvalidChoice && f.Invalid?) || (kind == Required && f.Blank? && required)
  }

  lemma InChoiceErrors(name: FieldName, f: Field<Id>, required: bool, e: FieldError)
    ensures e in ChoiceErrors(name, f, required) <==> e.field == name && ChoiceKind(f, required, e.kind)
  {
  }

  /** What the conversion of field `e.field` reports. */
  predicate ConversionReports(sub: RecordSubmission, refs: References, e: FieldError) {
    match e.field
    case CustomDateField => e.kind == InvalidValue && sub.customDate.Invalid?
    case StatusField => ChoiceKind(refs.status, false, e.kind)
    case TypeField => ChoiceKind(refs.recordType, true, e.kind)
    case CategoryField => ChoiceKind(refs.category, true, e.kind)
    case SubcategoryField => ChoiceKind(refs.subcategory, true, e.kind)
    case AmountField => AmountReports(sub.amount, e.kind)
    case CommentField => e.kind == NullCharacters && '\0' in CleanComment(sub.comment)
  }

  /** One error is among the conversion errors exactly when its field's
      conversion reports it. */
  lemma InFieldErrors(sub: RecordSubmission, refs: References, e: FieldError)
    ensures e in FieldErrors(sub, refs) <==> ConversionReports(sub, refs, e)
  {
    if e.field in {CustomDateField, StatusField, TypeField} {
      InHead(sub, refs, e);
      assert e !in TailErrors(sub, refs);
    } else {
      InTail(sub, refs, e);
      assert e !in HeadErrors(sub, refs);
    }
  }

  lemma InHead(sub: RecordSubmission, refs: References, e: FieldError)
    requires e.field in {CustomDateField, StatusField, TypeField}
    ensures e in HeadErrors(sub, refs) <==> ConversionReports(sub, refs, e)
  {
    InChoiceErrors(StatusField, refs.status, false, e);
    InChoiceErrors(TypeField, refs.recordType, true, e);
  }

  lemma InTail(sub: RecordSubmission, refs: References, e: FieldError)
    requires e.field !in {CustomDateField, StatusField, TypeField}
    ensures e in TailErrors(sub, refs) <==> ConversionReports(sub, refs, e)
  {
    InChoiceErrors(CategoryField, refs.category, true, e);
    InChoiceErrors(SubcategoryField, refs.subcategory, true, e);
  }

  /** The submissions the record form accepts, read off the submission: a
      well-formed or absent custom date; a status that is empty or names a
      status; a type, a category and a subcategory that name rows, the
      category under the type and the subcategory under the category; and
      an amount that fits the column; and a comment free of NUL characters. */
  predicate AcceptableRecord(s: Store, sub: RecordSubmission) {
    && !sub.customDate.Invalid?
    && (FilledIn(sub.data, "status") ==> NamesId(sub.data, "status", s.statuses.Keys))
    && NamesId(sub.data, "type", s.types.Keys)
    && NamesId(sub.data, "category", s.categories.Keys)
    && NamesId(sub.data, "subcategory", s.subcategories.Keys)
    && s.categories[ParseInt(sub.data["category"]).value].typeId == ParseInt(sub.data["type"]).value
    && s.subcategories[ParseInt(sub.data["subcategory"]).value].categoryId == ParseInt(sub.data["category"]).value
    && sub.amount.Given? && FitsAmountColumn(sub.amount.value)
    && '\0' !in CleanComment(sub.comment)
  }

  /** Once some category is submitted, the subcategory choices are that
      category's subcategories, whatever record is being edited. */
  lemma ChoicesOfSubmittedCategory(s: Store, data: FormData, instance: Option<Record>)
    requires WellFormed(s)
    requires NamesId(data, "category", s.categories.Keys)
    ensures SubcategoryChoices(s, Some(data), instance) == SubcategoriesOf(s, ParseInt(data["category"]).value)
  {
    KeyMeansNonEmpty(data, "category");
    assert s.categories[ParseInt(data["category"]).value].id > 0;
  }

  /** The conversion and the cross-field check together find nothing
      exactly on the acceptable submissions. */
  lemma NoErrorsExactlyWhenAcceptable(s: Store, sub: RecordSubmission, instance: Option<Record>)
    requires WellFormed(s)
    ensures var refs := CleanReferences(s, sub, instance);
      FieldErrors(sub, refs) == [] && Clean(ResolveType(s, refs.recordType), ResolveCategory(s, refs.category), ResolveSubCategory(s, refs.subcategory)) == []
      <==> AcceptableRecord(s, sub)
  {
    var data := sub.data;
    var refs := CleanReferences(s, sub, instance);
    ConvertedExactly(s, sub, instance);
    if NamesId(data, "category", s.categories.Keys) && NamesId(data, "type", s.types.Keys) {
      SubcategoryConverted(s, sub, instance);
      if refs.subcategory.Given? {
        CleanPassesExactly(s, sub, instance);
      }
    }
  }

  /** Field by field, the conversion finds nothing exactly when each field
      holds an acceptable value (the subcategory read against the choices). */
  lemma ConvertedExactly(s: Store, sub: RecordSubmission, instance: Option<Record>)
    ensures var refs := CleanReferences(s, sub, instance);
      FieldErrors(sub, refs) == [] <==>
        && !sub.customDate.Invalid?
        && (FilledIn(sub.data, "status") ==> NamesId(sub.data, "status", s.statuses.Keys))
        && NamesId(sub.data, "type", s.types.Keys)
        && NamesId(sub.data, "category", s.categories.Keys)
        && refs.subcategory.Given?
        && sub.amount.Given? && FitsAmountColumn(sub.amount.value)
        && '\0' !in CleanComment(sub.comment)
  {
    ChoiceOfData(sub.data, "status", s.statuses.Keys);
    ChoiceOfData(sub.data, "type", s.types.Keys);
    ChoiceOfData(sub.data, "category", s.categories.Keys);
  }

  /** With a category submitted, the subcategory converts exactly when it
      names a subcategory of that category. */
  lemma SubcategoryConverted(s: Store, sub: RecordSubmission, instance: Option<Record>)
    requires WellFormed(s)
    requires NamesId(sub.data, "category", s.categories.Keys)
    ensures CleanReferences(s, sub, instance).subcategory.Given? <==>
      && NamesId(sub.data, "subcategory", s.subcategories.Keys)
      && s.subcategories[ParseInt(sub.data["subcategory"]).value].categoryId == ParseInt(sub.data["category"]).value
  {
    var c := ParseInt(sub.data["category"]).value;
    ChoicesOfSubmittedCategory(s, sub.data, instance);
    ChoiceOfData(sub.data, "subcategory", SubcategoriesOf(s, c));
  }

  /** With every reference converted, the cross-field check passes exactly
      when the category is under the type. */
  lemma CleanPassesExactly(s: Store, sub: RecordSubmission, instance: Option<Record>)
    requires WellFormed(s)
    requires NamesId(sub.data, "type", s.types.Keys) && NamesId(sub.data, "category", s.categories.Keys)
    requires CleanReferences(s, sub, instance).subcategory.Given?
    ensures var refs := CleanReferences(s, sub, instance);
      Clean(ResolveType(s, refs.recordType), ResolveCategory(s, refs.category), ResolveSubCategory(s, refs.subcategory)) == []
      <==> s.categories[ParseInt(sub.data["category"]).value].typeId == ParseInt(sub.data["type"]).value
  {
    var refs := CleanReferences(s, sub, instance);
    ChoiceOfData(sub.data, "type", s.types.Keys);
    ChoiceOfData(sub.data, "category", s.categories.Keys);
    var t := refs.recordType.value;
    var c := refs.category.value;
    assert s.types[t].id == t && s.categories[c].id == c;
  }

  /** A choice field's error kinds: a required field left empty, or text
      that names none of the choices. */
  predicate ChoiceReports(data: FormData, key: string, ids: set<Id>, required: bool, kind: ErrorKind) {
    || (kind == Required && required && !FilledIn(data, key))
    || (kind == InvalidChoice && FilledIn(data, key) && !NamesId(data, key, ids))
  }

  /** Whether the record form reports error `e`, read off the submission
      field by field: a date that is not a date; a status, type, category or
      subcategory left empty when required or naming none of its choices; a
      category under another type than the submitted one; an amount that is
      missing, malformed or too wide; a comment holding a NUL character. */
  predicate Reports(s: Store, sub: RecordSubmission, instance: Option<Record>, e: FieldError) {
    var data := sub.data;
    match e.field
    case CustomDateField => e.kind == InvalidValue && sub.customDate.Invalid?
    case StatusField => ChoiceReports(data, "status", s.statuses.Keys, false, e.kind)
    case TypeField => ChoiceReports(data, "type", s.types.Keys, true, e.kind)
    case CategoryField =>
      || ChoiceReports(data, "category", s.categories.Keys, true, e.kind)
      || (&& e.kind == CategoryNotOfType
          && NamesId(data, "type", s.types.Keys) && NamesId(data, "category", s.categories.Keys)
          && s.categories[ParseInt(data["category"]).value].typeId != ParseInt(data["type"]).value)
    case SubcategoryField => ChoiceReports(data, "subcategory", SubcategoryChoices(s, Some(data), instance), true, e.kind)
    case AmountField => AmountReports(sub.amount, e.kind)
    case CommentField => e.kind == NullCharacters && '\0' in CleanComment(sub.comment)
  }

  /** The errors found, conversion and cross-field check together, are
      exactly the reported ones. */
  lemma ReportsExactly(s: Store, sub: RecordSubmission, instance: Option<Record>)
    requires WellFormed(s)
    ensures var refs := CleanReferences(s, sub, instance);
      forall e :: e in FieldErrors(sub, refs) + Clean(ResolveType(s, refs.recordType), ResolveCategory(s, refs.category), ResolveSubCategory(s, refs.subcategory))
        <==> Reports(s, sub, instance, e)
  {
    var refs := CleanReferences(s, sub, instance);
    var clean := Clean(ResolveType(s, refs.recordType), ResolveCategory(s, refs.category), ResolveSubCategory(s, refs.subcategory));
    CleanReportsCategory(s, sub, instance);
    forall e
      ensures e in FieldErrors(sub, refs) + clean <==> Reports(s, sub, instance, e)
    {
      InFieldErrors(sub, refs, e);
      ReportsOne(s, sub, instance, e);
    }
  }

  /** The cross-field check, read off the submission: only the category
      error can appear, and exactly when type and category name rows and the
      category lies under another type. */
  lemma CleanReportsCategory(s: Store, sub: RecordSubmission, instance: Option<Record>)
    requires WellFormed(s)
    ensures var refs := CleanReferences(s, sub, instance);
      var clean := Clean(ResolveType(s, refs.recordType), ResolveCategory(s, refs.category), ResolveSubCategory(s, refs.subcategory));
      && (forall e :: e in clean ==> e == WrongCategory)
      && (WrongCategory in clean <==>
          && NamesId(sub.data, "type", s.types.Keys) && NamesId(sub.data, "category", s.categories.Keys)
          && s.categories[ParseInt(sub.data["category"]).value].typeId != ParseInt(sub.data["type"]).value)
  {
    var data := sub.data;
    var refs := CleanReferences(s, sub, instance);
    ChoiceOfData(data, "type", s.types.Keys);
    ChoiceOfData(data, "category", s.categories.Keys);
    if refs.recordType.Given? && refs.category.Given? {
      assert s.types[refs.recordType.value].id == refs.recordType.value;
    }
    if refs.subcategory.Given? && refs.category.Given? {
      assert s.categories[refs.category.value].id == refs.category.value;
    }
  }

  /** Field by field, the converted references report what `Reports` reads
      off the submitted text. */
  lemma ReportsOne(s: Store, sub: RecordSubmission, instance: Option<Record>, e: FieldError)
    ensures var refs := CleanReferences(s, sub, instance);
      match e.field
      case StatusField => ChoiceKind(refs.status, false, e.kind) <==> Reports(s, sub, instance, e)
      case TypeField => ChoiceKind(refs.recordType, true, e.kind) <==> Reports(s, sub, instance, e)
      case CategoryField =>
        ChoiceKind(refs.category, true, e.kind) <==> ChoiceReports(sub.data, "category", s.categories.Keys, true, e.kind)
      case SubcategoryField => ChoiceKind(refs.subcategory, true, e.kind) <==> Reports(s, sub, instance, e)
      case _ => true
  {
    var data := sub.data;
    match e.field
    case StatusField => ChoiceOfData(data, "status", s.statuses.Keys);
    case TypeField => ChoiceOfData(data, "type", s.types.Keys);
    case CategoryField => ChoiceOfData(data, "category", s.categories.Keys);
    case SubcategoryField => ChoiceOfData(data, "subcategory", SubcategoryChoices(s, Some(data), instance));
    case _ =>
  }

  /** `form.is_valid()` with its outcome: the converted fields, or every
      error found. */
  function ValidateRecordForm(s: Store, sub: RecordSubmission, instance: Option<Record>): (r: Result<RecordFields, seq<FieldError>>)
    requires WellFormed(s)
    ensures r.Success? <==> AcceptableRecord(s, sub)
    ensures r.Failure? ==> r.error != []
    ensures r.Success? ==>
      var f := r.value;
      && RecordReferencesExist(s, Record(0, 0, f.customDate, f.statusId, f.typeId, f.categoryId, f.subcategoryId, f.amount, Some(f.comment)))
      && s.categories[f.categoryId].typeId == f.typeId
      && s.subcategories[f.subcategoryId].categoryId == f.categoryId
      && FitsAmountColumn(f.amount)
    ensures r.Success? ==>
      && Get(sub.data, "type").Some? && ParseInt(sub.data["type"]) == Some(r.value.typeId)
      && Get(sub.data, "category").Some? && ParseInt(sub.data["category"]) == Some(r.value.categoryId)
      && Get(sub.data, "subcategory").Some? && ParseInt(sub.data["subcategory"]) == Some(r.value.subcategoryId)
      && sub.amount == Given(r.value.amount)
      && r.value.comment == CleanComment(sub.comment)
      && (sub.customDate.Given? <==> r.value.customDate.Some?)
      && (sub.customDate.Given? ==> r.value.customDate == Some(sub.customDate.value))
      && (r.value.statusId.Some? <==> FilledIn(sub.data, "status"))
      && (r.value.statusId.Some? ==> ParseInt(sub.data["status"]) == r.value.statusId)
    ensures Get(sub.data, "type").None? ==> r.Failure? && FieldError(TypeField, Required) in r.error
    ensures sub.amount.Blank? ==> r.Failure? && FieldError(AmountField, Required) in r.error
    ensures forall e :: (r.Failure? && e in r.error) <==> Reports(s, sub, instance, e)
    ensures r.Failure? ==>
      var refs := CleanReferences(s, sub, instance);
      r.error == FieldErrors(sub, refs) + Clean(ResolveType(s, refs.recordType), ResolveCategory(s, refs.category), ResolveSubCategory(s, refs.subcategory))
  {
    var refs := CleanReferences(s, sub, instance);
    var fieldErrors := FieldErrors(sub, refs);
    var clean := Clean(ResolveType(s, refs.recordType), ResolveCategory(s, refs.category), ResolveSubCategory(s, refs.subcategory));
    var errors := fieldErrors + clean;
    NoErrorsExactlyWhenAcceptable(s, sub, instance);
    ReportsExactly(s, sub, instance);
    ChoiceOfData(sub.data, "status", s.statuses.Keys);
    if errors != [] then Failure(errors)
    else
      assert fieldErrors == [];
      assert WrongCategory !in errors && WrongSubcategory !in errors;
      Success(RecordFields(
        if sub.customDate.Given? then Some(sub.customDate.value) else None,
        if refs.status.Given? then Some(refs.status.value) else None,
        refs.recordType.value,
        refs.category.value,
        refs.subcategory.value,
        sub.amount.value,
        CleanComment(sub.comment)))
  }

  /** A submission right in every field except that it names a category
      of another type than the submitted one. */
  predicate CategoryOfOtherType(s: Store, sub: RecordSubmission) {
    && !sub.customDate.Invalid?
    && (FilledIn(sub.data, "status") ==> NamesId(sub.data, "status", s.statuses.Keys))
    && NamesId(sub.data, "type", s.types.Keys)
    && NamesId(sub.data, "category", s.categories.Keys)
    && NamesId(sub.data, "subcategory", s.subcategories.Keys)
    && s.categories[ParseInt(sub.data["category"]).value].typeId != ParseInt(sub.data["type"]).value
    && s.subcategories[ParseInt(sub.data["subcategory"]).value].categoryId == ParseInt(sub.data["category"]).value
    && sub.amount.Given? && FitsAmountColumn(sub.amount.value)
    && '\0' !in CleanComment(sub.comment)
  }

  /** Such a submission is refused with one error only, on the category
      field. */
  lemma OnlyCategoryMismatch(s: Store, sub: RecordSubmission, instance: Option<Record>)
    requires WellFormed(s)
    requires CategoryOfOtherType(s, sub)
    ensures ValidateRecordForm(s, sub, instance) == Failure([WrongCategory])
  {
    CategoryMismatchErrors(s, sub, instance);
    var refs := CleanReferences(s, sub, instance);
    assert !AcceptableRecord(s, sub);
    assert [] + [WrongCategory] == [WrongCategory];
  }

  lemma CategoryMismatchErrors(s: Store, sub: RecordSubmission, instance: Option<Record>)
    requires WellFormed(s)
    requires CategoryOfOtherType(s, sub)
    ensures var refs := CleanReferences(s, sub, instance);
      && FieldErrors(sub, refs) == []
      && Clean(ResolveType(s, refs.recordType), ResolveCategory(s, refs.category), ResolveSubCategory(s, refs.subcategory)) == [WrongCategory]
  {
    var refs := CleanReferences(s, sub, instance);
    SubcategoryConverted(s, sub, instance);
    ConvertedExactly(s, sub, instance);
    CleanReportsCategory(s, sub, instance);
    var clean := Clean(ResolveType(s, refs.recordType), ResolveCategory(s, refs.category), ResolveSubCategory(s, refs.subcategory));
    assert WrongCategory in clean && WrongSubcategory !in clean;
  }

  /** An accepted form stays accepted with whitespace added around its
      comment, and stores the same comment. */
  lemma FormStripsComment(s: Store, sub: RecordSubmission, instance: Option<Record>, w1: string, w2: string)
    requires WellFormed(s)
    requires ValidateRecordForm(s, sub, instance).Success? && sub.comment.Some?
    requires AllSpace(StrSpaces, w1) && AllSpace(StrSpaces, w2)
    ensures var r := ValidateRecordForm(s, sub.(comment := Some(w1 + sub.comment.value + w2)), instance);
      r.Success? && r.value.comment == ValidateRecordForm(s, sub, instance).value.comment
  {
    CommentIgnoresSurroundingSpace(w1, sub.comment.value, w2);
    assert AcceptableRecord(s, sub.(comment := Some(w1 + sub.comment.value + w2)));
  }

  /** Because the subcategory choices come from the submitted category, a
      subcategory of another category is already rejected when its field is
      converted (as an invalid choice), and the form's own subcategory check
      never reports anything on this path. */
  lemma SubcategoryCheckNeverFires(s: Store, sub: RecordSubmission, instance: Option<Record>)
    requires WellFormed(s)
    ensures ValidateRecordForm(s, sub, instance).Failure? ==>
      WrongSubcategory !in ValidateRecordForm(s, sub, instance).error
  {
    var refs := CleanReferences(s, sub, instance);
    if refs.subcategory.Given? && refs.category.Given? {
      AcceptedSubcategoryBelongs(s, sub, instance);
    }
    var clean := Clean(ResolveType(s, refs.recordType), ResolveCategory(s, refs.category), ResolveSubCategory(s, refs.subcategory));
    assert WrongSubcategory !in clean;
    assert WrongSubcategory !in FieldErrors(sub, refs) + clean;
  }

  lemma KeyMeansNonEmpty(data: FormData, key: string)
    requires key in data
    ensures |data| > 0
  {
    assert key in data.Keys;
  }

  /** An accepted subcategory belongs to the accepted category. */
  lemma AcceptedSubcategoryBelongs(s: Store, sub: RecordSubmission, instance: Option<Record>)
    requires WellFormed(s)
    requires CleanReferences(s, sub, instance).subcategory.Given?
    requires CleanReferences(s, sub, instance).category.Given?
    ensures var refs := CleanReferences(s, sub, instance);
      s.subcategories[refs.subcategory.value].categoryId == s.categories[refs.category.value].id
  {
    var refs := CleanReferences(s, sub, instance);
    var data := sub.data;
    assert "subcategory" in data;
    KeyMeansNonEmpty(data, "subcategory");
    var c := refs.category.value;
    assert ParseInt(data["category"]) == Some(c);
    assert refs.subcategory.value in SubcategoryChoices(s, Some(data), instance);
    assert s.categories[c].id == c;
  }

  /** A submitted subcategory that does not belong to the submitted category
      is an invalid choice for the `subcategory` field. */
  lemma ForeignSubcategoryIsInvalidChoice(s: Store, sub: RecordSubmission, instance: Option<Record>, c: Id, k: Id)
    requires WellFormed(s)
    requires "category" in sub.data && ParseInt(sub.data["category"]) == Some(c)
    requires "subcategory" in sub.data && ParseInt(sub.data["subcategory"]) == Some(k)
    requires k in s.subcategories && s.subcategories[k].categoryId != c
    ensures ValidateRecordForm(s, sub, instance).Failure?
    ensures FieldError(SubcategoryField, InvalidChoice) in ValidateRecordForm(s, sub, instance).error
  {
    ForeignSubcategoryNotOffered(s, sub.data, instance, c, k);
    var refs := CleanReferences(s, sub, instance);
    assert refs.subcategory.Invalid?;
    assert FieldError(SubcategoryField, InvalidChoice) in FieldErrors(sub, refs);
  }

  lemma ForeignSubcategoryNotOffered(s: Store, data: FormData, instance: Option<Record>, c: Id, k: Id)
    requires "category" in data && ParseInt(data["category"]) == Some(c)
    requires "subcategory" in data && ParseInt(data["subcategory"]) == Some(k)
    requires k in s.subcategories && s.subcategories[k].categoryId != c
    ensures CleanChoice(Get(data, "subcategory"), SubcategoryChoices(s, Some(data), instance)).Invalid?
  {
    KeyMeansNonEmpty(data, "category");
    assert k !in SubcategoryChoices(s, Some(data), instance);
    assert data["subcategory"] != "";
  }

  /** The record form does not run the stand-alone amount and date checks:
      once a submission is valid, any amount that fits the column (a
      negative one included) and any custom date (a future one included)
      is accepted as well, and stored as given. */
  lemma SignAndDateUnchecked(s: Store, sub: RecordSubmission, instance: Option<Record>, amount: int, customDate: Date)
    requires WellFormed(s)
    requires ValidateRecordForm(s, sub, instance).Success?
    requires FitsAmountColumn(amount)
    ensures var r := ValidateRecordForm(s, sub.(amount := Given(amount), customDate := Given(customDate)), instance);
      r.Success? && r.value.amount == amount && r.value.customDate == Some(customDate)
  {
    var sub' := sub.(amount := Given(amount), customDate := Given(customDate));
    assert AcceptableRecord(s, sub');
  }

  /** So a valid form stays valid with amount -1 and tomorrow's date, on
      which the stand-alone validators both fail. */
  lemma FormAcceptsWhatValidatorsReject(s: Store, sub: RecordSubmission, instance: Option<Record>, today: Date)
    requires WellFormed(s)
    requires ValidateRecordForm(s, sub, instance).Success?
    ensures var r := ValidateRecordForm(s, sub.(amount := Given(-1), customDate := Given(today + 1)), instance);
      && r.Success?
      && Validation.ValidateAmount(r.value.amount) == Fail(Validation.NegativeAmount)
      && Validation.ValidateCustomDate(r.value.customDate, today) == Fail(Validation.CustomDateInFuture)
  {
    SignAndDateUnchecked(s, sub, instance, -1, today + 1);
  }

  // ---------------------------------------------------------------------
  // The list filter form (`CashFlowFilterForm`)
  // ---------------------------------------------------------------------

  /** A filter submission: the two dates already converted, the four
      references as text in `data`. */
  datatype FilterSubmission = FilterSubmission(dateFrom: Field<Date>, dateTo: Field<Date>, data: FormData)

  /** The cleaned filter; every field is optional. */
  datatype Filter = Filter(
    dateFrom: Option<Date>,
    dateTo: Option<Date>,
    statusId: Option<Id>,
    typeId: Option<Id>,
    categoryId: Option<Id>,
    subcategoryId: Option<Id>)

  const NoFilter := Filter(None, None, None, None, None, None)

  function Optional<T>(f: Field<T>): Option<T>
    requires !f.Invalid?
  {
    if f.Given? then Some(f.value) else None
  }

  /** `form.is_valid()` and `form.cleaned_data` for the filter: `None` when
      any field fails to convert (a bad date, or an id that is not in its
      table), otherwise the cleaned filter. */
  function CleanFilter(s: Store, f: FilterSubmission): (r: Option<Filter>)
    ensures r.None? <==>
      || f.dateFrom.Invalid? || f.dateTo.Invalid?
      || CleanChoice(Get(f.data, "status"), s.statuses.Keys).Invalid?
      || CleanChoice(Get(f.data, "type"), s.types.Keys).Invalid?
      || CleanChoice(Get(f.data, "category"), s.categories.Keys).Invalid?
      || CleanChoice(Get(f.data, "subcategory"), s.subcategories.Keys).Invalid?
    ensures r.Some? ==>
      && r.value.dateFrom == (if f.dateFrom.Given? then Some(f.dateFrom.value) else None)
      && r.value.dateTo == (if f.dateTo.Given? then Some(f.dateTo.value) else None)
    ensures r.Some? ==>
      && (r.value.statusId.Some? <==> FilledIn(f.data, "status"))
      && (r.value.typeId.Some? <==> FilledIn(f.data, "type"))
      && (r.value.categoryId.Some? <==> FilledIn(f.data, "category"))
      && (r.value.subcategoryId.Some? <==> FilledIn(f.data, "subcategory"))
    ensures r.Some? ==>
      && (r.value.statusId.Some? ==> ParseInt(f.data["status"]) == r.value.statusId && r.value.statusId.value in s.statuses)
      && (r.value.typeId.Some? ==> ParseInt(f.data["type"]) == r.value.typeId && r.value.typeId.value in s.types)
      && (r.value.categoryId.Some? ==> ParseInt(f.data["category"]) == r.value.categoryId && r.value.categoryId.value in s.categories)
      && (r.value.subcategoryId.Some? ==>
            ParseInt(f.data["subcategory"]) == r.value.subcategoryId && r.value.subcategoryId.value in s.subcategories)
  {
    var status := CleanChoice(Get(f.data, "status"), s.statuses.Keys);
    var recordType := CleanChoice(Get(f.data, "type"), s.types.Keys);
    var category := CleanChoice(Get(f.data, "category"), s.categories.Keys);
    var subcategory := CleanChoice(Get(f.data, "subcategory"), s.subcategories.Keys);
    if f.dateFrom.Invalid? || f.dateTo.Invalid? || status.Invalid? || recordType.Invalid? || category.Invalid? || subcategory.Invalid? then
      None
    else
      Some(Filter(Optional(f.dateFrom), Optional(f.dateTo), Optional(status), Optional(recordType), Optional(category), Optional(subcategory)))
  }

  /** What a browser sends for an optional reference: the id's text, or
      the empty string when nothing is chosen. */
  function IdText(k: Option<Id>): string {
    if k.Some? then Show(k.value) else ""
  }

  function DateInput(d: Option<Date>): Field<Date> {
    if d.Some? then Given(d.value) else Blank
  }

  /** The submission of the filter form that asks for filter `q`. */
  function FilterQuery(q: Filter): FilterSubmission {
    FilterSubmission(DateInput(q.dateFrom), DateInput(q.dateTo),
      map["status" := IdText(q.statusId), "type" := IdText(q.typeId),
          "category" := IdText(q.categoryId), "subcategory" := IdText(q.subcategoryId)])
  }

  /** Every reference of `q` is an existing row. */
  predicate NamesRows(s: Store, q: Filter) {
    && (q.statusId.Some? ==> q.statusId.value in s.statuses && ShortEnough(q.statusId.value))
    && (q.typeId.Some? ==> q.typeId.value in s.types && ShortEnough(q.typeId.value))
    && (q.categoryId.Some? ==> q.categoryId.value in s.categories && ShortEnough(q.categoryId.value))
    && (q.subcategoryId.Some? ==> q.subcategoryId.value in s.subcategories && ShortEnough(q.subcategoryId.value))
  }

  lemma QueryFields(q: Filter)
    ensures var data := FilterQuery(q).data;
      && Get(data, "status") == Some(IdText(q.statusId))
      && Get(data, "type") == Some(IdText(q.typeId))
      && Get(data, "category") == Some(IdText(q.categoryId))
      && Get(data, "subcategory") == Some(IdText(q.subcategoryId))
  {
  }

  /** The converted field for an optional reference. */
  function Chosen(k: Option<Id>): Field<Id> {
    if k.Some? then Given(k.value) else Blank
  }

  lemma IdTextCleans(k: Option<Id>, ids: set<Id>)
    requires k.Some? ==> k.value in ids && ShortEnough(k.value)
    ensures CleanChoice(Some(IdText(k)), ids) == Chosen(k)
  {
    if k.Some? {
      ParseShow(k.value);
    }
  }

  /** Submitting the form for any filter over existing rows cleans back to
      that filter. */
  lemma FilterRoundTrip(s: Store, q: Filter)
    requires NamesRows(s, q)
    ensures CleanFilter(s, FilterQuery(q)) == Some(q)
  {
    var f := FilterQuery(q);
    QueryFields(q);
    IdTextCleans(q.statusId, s.statuses.Keys);
    IdTextCleans(q.typeId, s.types.Keys);
    IdTextCleans(q.categoryId, s.categories.Keys);
    IdTextCleans(q.subcategoryId, s.subcategories.Keys);
    CleansTo(s, f, q);
  }

  /** A submission whose fields convert to those of `q` cleans to `q`. */
  lemma CleansTo(s: Store, f: FilterSubmission, q: Filter)
    requires f.dateFrom == DateInput(q.dateFrom) && f.dateTo == DateInput(q.dateTo)
    requires CleanChoice(Get(f.data, "status"), s.statuses.Keys) == Chosen(q.statusId)
    requires CleanChoice(Get(f.data, "type"), s.types.Keys) == Chosen(q.typeId)
    requires CleanChoice(Get(f.data, "category"), s.categories.Keys) == Chosen(q.categoryId)
    requires CleanChoice(Get(f.data, "subcategory"), s.subcategories.Keys) == Chosen(q.subcategoryId)
    ensures CleanFilter(s, f) == Some(q)
  {
    assert Optional(f.dateFrom) == q.dateFrom && Optional(f.dateTo) == q.dateTo;
    assert Optional(Chosen(q.statusId)) == q.statusId && Optional(Chosen(q.typeId)) == q.typeId;
    assert Optional(Chosen(q.categoryId)) == q.categoryId && Optional(Chosen(q.subcategoryId)) == q.subcategoryId;
  }

  /** All six filter fields are optional: leaving every one empty is a
      valid filter that constrains nothing. */
  lemma EmptyFilterIsValid(s: Store, data: FormData)
    requires forall key :: key in data ==> data[key] == ""
    ensures CleanFilter(s, FilterSubmission(Blank, Blank, data)) == Some(NoFilter)
  {
  }
}
