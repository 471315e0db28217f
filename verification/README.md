# DDS cash-flow records — a Dafny model

DDS is a small Django application for recording cash flow ("движение
денежных средств"). A record has a creation date, an optional custom date,
an optional status, a type, a category and a subcategory, an amount in
roubles and an optional comment. The lookup tables form a three-level
taxonomy: Type → Category → SubCategory, plus a free-standing Status.

This project models the part of the application that carries behaviour. It
is a pure, in-memory store: one map per table, keyed by id. Functions over
the store cover:

- the four stand-alone validators (`cash_flow/validation.py`), with the wall
  clock turned into a `today` argument;
- the tables and the constraints the database keeps on them: unique names,
  foreign keys, `PROTECT` from records and `CASCADE` down the taxonomy;
- the record form (`CashFlowRecordForm`): the restriction of the subcategory
  choices, the field conversion and the `clean` cross-check, and the filter
  form with all six fields optional;
- the views: the filtered list ordered newest first, the two JSON child
  lookups, record create and update, and the delete views. Three of the
  delete views turn a refused delete into a warning; the Status delete view
  does not.

Modules, one per file:

| file | module | what it holds |
|---|---|---|
| `wrappers.dfy` | `Wrappers` | `Option`, `Result`, `Outcome` |
| `int_parse.dfy` | `IntParse` | Python's `int(text)` for base-10 text, its round trip with `str(n)`, and `str.strip()`, each with its own ASCII whitespace |
| `models.dfy` | `Models` | entities, the store, well-formedness, `EffectiveDate`, the amount column |
| `validation.dfy` | `Validation` | the four validators |
| `taxonomy.dfy` | `Taxonomy` | creating and editing Status/Type/Category/SubCategory through their model forms |
| `deletion.dfy` | `Deletion` | delete with cascade and protect |
| `forms.dfy` | `Forms` | the record form and the filter form |
| `query.dfy` | `Query` | ordering by `created_at`, the `.filter()` chain |
| `views.dfy` | `Views` | list, lookups, record create/update, delete views |

Representation choices:

- Dates are day numbers (`int`), so a later day is a larger number.
- Amounts are integer kopecks. `DECIMAL(12, 2)` then means
  |kopecks| < 10^12 (`Models.FitsAmountColumn`).
- Ids are positive and all below one shared `nextId` counter.
- Form input arrives as a map from field name to text. The reference fields
  are converted by the model of Python's `int()`. The date and amount fields
  arrive already converted, as `Blank`, `Invalid` or `Given(value)`. The
  comment arrives as raw text and is cleaned as the form's `CharField` does:
  stripped, with absent text stored as `""`.
- Python has two ASCII whitespace sets, and the model keeps both
  (`IntParse.Spaces`). `int()` skips only space and `\t`..`\r` around a
  literal. `str.strip()` also removes the separators `\x1C`..`\x1F`. So
  `int("\x1c5")` raises, while a comment `"\x1crent"` is stored as `"rent"`.

Facts about the code that shape the model:

- The child lookups (`load_subcategories`, `load_categories`) have no
  `order_by`, so their answers are modelled as sets.
- The list is ordered by `created_at` alone, so the order of records with
  the same creation date is left unspecified.
- `validation.py` is never called from the form, the model or the views. So
  "amount ≥ 0" and "custom date not in the future" are properties of the
  validator functions only. The record form accepts a negative amount and a
  future date (`Forms.FormAcceptsWhatValidatorsReject`,
  `Views.SampleUncheckedRecordIsSaved`).

## Model

| member | source | states |
|---|---|---|
| Validation.ValidateCategoryTypeMatch | cash_flow/validation.py:4-9 | fails exactly when category and type are both given and the category's type is another type; then the error is the category/type mismatch; a missing one always passes |
| Validation.ValidateSubcategoryCategoryMatch | cash_flow/validation.py:12-17 | fails exactly when subcategory and category are both given and the subcategory belongs to another category |
| Validation.ValidateCustomDate | cash_flow/validation.py:20-27 | fails exactly when a custom date is given and is later than `today`; no date passes |
| Validation.ValidateAmount | cash_flow/validation.py:30-36 | fails exactly when the amount is negative |
| Validation.ValidatorBoundaries | cash_flow/validation.py:24-36 | no date and `today` itself pass, `today + 1` fails; amount 0 passes, -1 fails |
| Validation.CustomDateBoundsEffectiveDate | cash_flow/validation.py:20-27 | for a record created no later than `today`, its custom date passes exactly when the date it is listed under (`get_effective_date`) is not after `today` |
| Validation.CustomDateMonotone | cash_flow/validation.py:24-27 | a custom date that passes on one day passes on every later day |
| Validation.ValidatorsDecideConsistency | cash_flow/validation.py:4-17 | for a record with existing references, both taxonomy validators pass exactly when the category belongs to the type and the subcategory to the category |
| Models.EmptyStore | cash_flow/models.py:5-75 | the empty database satisfies every table constraint |
| Models.EffectiveDate | cash_flow/models.py:81-82 | the date a record is listed under: the custom date when one is set, the creation date otherwise |
| Models.FitsAmountColumn | cash_flow/models.py:70-74 | `DECIMAL(12, 2)` in kopecks: the magnitude is below 10^12 kopecks, ten digits before the decimal point |
| Models.NamesUnique | cash_flow/models.py:5-51 | `unique=True` on Status and Type names, `unique_together` on (name, type) and (name, category) |
| Models.WellFormed | cash_flow/models.py:5-75 | ids agree with their rows, every foreign key names an existing row, and the uniqueness constraints hold |
| Query.EffectiveDateIsCoalesce | cash_flow/models.py:81-82 | the effective date is the custom date when set and the creation date otherwise, and equals `Coalesce(custom_date, created_at)` |
| Models.SubcategoriesOf | cash_flow/models.py:46-48 | definition: the subcategories whose category is `c`, the `related_name='subcategories'` set |
| Models.CategoriesOf | cash_flow/models.py:29-33 | definition: the categories whose type is `t`, the `related_name='categories'` set |
| Models.UnknownCategoryHasNoSubcategories | cash_flow/models.py:46-48 | in a well-formed store a missing category has no subcategories |
| Models.UnknownTypeHasNoCategories | cash_flow/models.py:29-33 | in a well-formed store a missing type has no categories |
| Taxonomy.CreateStatus | cash_flow/models.py:5-6 | refused exactly when some status already has the name; otherwise adds it under the next id, keeps the store well formed and changes no other table |
| Taxonomy.CreateType | cash_flow/models.py:16-17 | the same for types |
| Taxonomy.CreateCategory | cash_flow/models.py:27-36 | refused when the type is missing or that type already has a category of that name (the error says which); otherwise adds it and keeps every constraint |
| Taxonomy.CreateSubCategory | cash_flow/models.py:44-51 | refused when the category is missing or already has a subcategory of that name; otherwise adds it |
| Taxonomy.UpdateStatus | cash_flow/models.py:5-6 | refused when the status is missing or another status has the name; otherwise only that status changes and the store stays well formed |
| Taxonomy.UpdateType | cash_flow/models.py:16-17 | the same for types |
| Taxonomy.UpdateCategory | cash_flow/models.py:27-36 | refused when the category or the new type is missing, or another category of that type has the name; the category may move to another type |
| Taxonomy.UpdateSubCategory | cash_flow/models.py:44-51 | the same one level down |
| Taxonomy.SameCategoryNameUnderAnotherType | cash_flow/models.py:36 | a category name already used under one type can be created under another type, giving two categories with equal names and different types |
| Taxonomy.PutKeepsUnique | cash_flow/models.py:5-51 | storing a row under an id keeps a table's key unique when no other row of the table has that row's key |
| Taxonomy.PutKeepsStatusNamesUnique | cash_flow/models.py:6 | adding or renaming a status to a name no other status has keeps status names unique |
| Taxonomy.PutKeepsTypeNamesUnique | cash_flow/models.py:17 | the same for types |
| Taxonomy.PutKeepsCategoryNamesUnique | cash_flow/models.py:36 | adding or changing a category whose (name, type) no other category has keeps `unique_together` |
| Taxonomy.PutKeepsSubCategoryNamesUnique | cash_flow/models.py:51 | the same for (name, category) of subcategories |
| Deletion.DeleteCollected | cash_flow/models.py:66-69 | refused exactly when some record references a collected row, reporting exactly those records; otherwise removes the collected rows and nothing else |
| Deletion.TypeCascade | cash_flow/models.py:29-33 | a type collects exactly its categories and the subcategories of those |
| Deletion.CategoryCascade | cash_flow/models.py:46-48 | a category collects exactly its subcategories |
| Deletion.DeleteKeepsWellFormed | cash_flow/models.py:29-33 | removing a cascade-closed, unprotected set of rows keeps every foreign key valid |
| Deletion.DeleteStatus | cash_flow/models.py:66 | missing gives not-found; refused exactly when a record has the status; otherwise only the status goes |
| Deletion.DeleteType | cash_flow/models.py:29-33 | refused exactly when a record uses the type directly or through its category or subcategory; otherwise the type, its categories and their subcategories go, all else stays |
| Deletion.DeleteCategory | cash_flow/models.py:46-48 | refused exactly when a record uses the category directly or through its subcategory; otherwise the category and its subcategories go |
| Deletion.DeleteSubCategory | cash_flow/models.py:69 | refused exactly when a record has the subcategory; otherwise only it goes |
| Deletion.DeleteRecord | cash_flow/models.py:59-75 | a record delete is never refused: it fails only for a missing record and removes just that record |
| Deletion.IndirectReferenceBlocksTypeDelete | cash_flow/models.py:29-33 | a record whose subcategory lies under type `t` blocks deleting `t` even though it does not reference `t` itself |
| IntParse.ParseShow | cash_flow/forms.py:19 | `int(str(n)) == n` for every integer of at most 4300 digits: parsing the text of an id gives the id back |
| IntParse.StripIgnored | cash_flow/forms.py:19 | removing the whitespace `int()` skips (space and `\t`..`\r`) never changes what `int()` returns |
| IntParse.IntSpaceIsStrSpace | cash_flow/forms.py:19 | every character `int()` skips is one `str.strip()` removes; the two sets differ exactly in the separators `\x1C`..`\x1F` |
| IntParse.AcceptedCharacters | cash_flow/forms.py:18-21 | text `int()` accepts holds only digits, underscores, signs and `int()`'s whitespace, so never a separator `\x1C`..`\x1F` |
| IntParse.SeparatorRejected | cash_flow/forms.py:18-21 | `int()` raises on a digit with a separator `\x1C`..`\x1F` before or after it, while `str.strip()` removes that separator |
| IntParse.SeparatorBeforeDigitRaises | cash_flow/forms.py:18-21 | `int("\x1c5")` raises, so the form falls back to no subcategory choices |
| IntParse.StripSurrounded | cash_flow/models.py:75 | stripping ignores whitespace of the same kind added on either side of a text; for `str.strip()` that includes `\x1C`..`\x1F` |
| IntParse.StripIdempotent | cash_flow/models.py:75 | stripping twice is stripping once |
| IntParse.ShowConvertible | cash_flow/forms.py:19 | the decimal text of a natural number of at most 4300 digits is a convertible literal whose value is that number |
| IntParse.TooManyDigitsRaise | cash_flow/forms.py:18-21 | a well-formed literal of more than 4300 digits raises `ValueError`, signed or not, so the form's `int(data.get("category"))` falls back to no category |
| IntParse.ParseInt | cash_flow/forms.py:18-21 | a successful parse needs at least one digit, so the empty string raises, and at most 4300 digits (Python's default limit) once `int()`'s whitespace is skipped |
| Forms.SubcategoryChoices | cash_flow/forms.py:10-30 | with non-empty data: the subcategories of the submitted category when it parses and is non-zero, none when it is missing or unparsable; without data: the subcategories of the edited record's category, or none |
| Forms.DataOverridesInstance | cash_flow/forms.py:17-23 | any non-empty data decides the choices alone; the edited record is then ignored |
| Forms.CleanChoice | cash_flow/forms.py:5-8 | a missing or empty value is blank; a value is accepted exactly when it parses to an id among the choices, and then it is that id |
| Forms.ChoiceErrors | cash_flow/forms.py:5-8 | a reference field reports nothing exactly when it was accepted, or left blank when optional; otherwise one invalid-choice or required error on that field |
| Forms.AmountErrors | cash_flow/models.py:70-74 | the amount is required and reports nothing exactly when it fits `DECIMAL(12, 2)`; its sign is not checked |
| Forms.DateErrors | cash_flow/models.py:63-65 | the optional custom date reports nothing unless its text is not a date, and then one invalid-value error on its field |
| Forms.CleanReferences | cash_flow/forms.py:5-30 | each converted reference is an existing row; an accepted subcategory belongs to the accepted category |
| Forms.Clean | cash_flow/forms.py:32-50 | the category error is present exactly when type and category are given and disagree; the subcategory error exactly when subcategory and category are given and disagree; nothing else is added, category error first |
| Forms.CleanAgreesWithValidators | cash_flow/forms.py:38-50 | each `clean` error appears exactly when the matching stand-alone validator fails |
| Forms.CleanReportsBoth | cash_flow/forms.py:38-50 | both mismatches at once give both field errors in one call |
| Forms.FieldErrors | cash_flow/forms.py:5-8 | no conversion error exactly when the date is not malformed, the status is not invalid, type, category and subcategory are accepted, the amount fits and the cleaned comment has no NUL character; conversion never reports a cross-field error |
| Forms.InFieldErrors | cash_flow/forms.py:5-8 | an error is among the conversion errors exactly when its own field's conversion reports it |
| Forms.CleanComment | cash_flow/models.py:75 | the comment as the form's `CharField` cleans it: absent text becomes `""`, and the result has no whitespace at either end and only characters of the submitted text |
| Forms.CommentErrors | cash_flow/models.py:75 | the comment's one error, a NUL character in the cleaned text |
| Forms.CommentIgnoresSurroundingSpace | cash_flow/models.py:75 | whitespace added around a comment does not change what is stored |
| Forms.CleanCommentIdempotent | cash_flow/models.py:75 | submitting a stored comment again stores it unchanged |
| Forms.SampleCommentStripped | cash_flow/models.py:75 | `"  rent "` is stored as `"rent"` |
| Forms.BlankCommentIsEmpty | cash_flow/models.py:75 | an empty or absent comment is stored as `""` |
| Forms.ChoiceOfData | cash_flow/forms.py:86-101 | a `ModelChoiceField` converts exactly when its text parses to an id among the choices, to that id, and is blank exactly when the field is absent or empty |
| Forms.AcceptableRecord | cash_flow/forms.py:5-50 | definition: the submissions the record form accepts, read off the submitted text |
| Forms.Reports | cash_flow/forms.py:5-50 | definition: the errors the record form reports, field by field, read off the submitted text |
| Forms.ValidateRecordForm | cash_flow/forms.py:5-50 | accepted exactly when the submission is acceptable (a well-formed or absent date; an empty or existing status; existing type, category and subcategory, the category under the type and the subcategory under the category; an amount that fits; a comment without NUL); an accepted form carries the submitted status, type, category, subcategory, amount and date and the stripped comment; a refused form reports exactly the errors `Reports` reads off the submission, each on its own field: a category under another type as the category mismatch, a missing type or a blank amount as required |
| Forms.ReportsExactly | cash_flow/forms.py:5-50 | the conversion errors and the `clean` errors together are exactly the reported ones |
| Forms.CleanReportsCategory | cash_flow/forms.py:32-50 | at form level `clean` can report only the category error, and does exactly when type and category name rows and the category lies under another type |
| Forms.OnlyCategoryMismatch | cash_flow/forms.py:38-43 | a submission right in every field but the category's type is refused with the single category error |
| Forms.CategoryMismatchErrors | cash_flow/forms.py:5-50 | for such a submission, conversion finds nothing and `clean` finds just the category error |
| Forms.FormStripsComment | cash_flow/models.py:75 | an accepted form stays accepted with whitespace added around its comment, and stores the same comment |
| Forms.NoErrorsExactlyWhenAcceptable | cash_flow/forms.py:5-50 | field conversion and `clean` together find nothing exactly on the acceptable submissions |
| Forms.ConvertedExactly | cash_flow/forms.py:5-8 | field conversion finds nothing exactly when the date is well formed, the status is empty or exists, type and category exist, the subcategory is among the choices and the amount fits |
| Forms.SubcategoryConverted | cash_flow/forms.py:16-30 | with an existing category submitted, the subcategory converts exactly when it names a subcategory of that category |
| Forms.CleanPassesExactly | cash_flow/forms.py:32-50 | with every reference converted (so the subcategory already belongs to the category), `clean` passes exactly when the category is under the type |
| Forms.ChoicesOfSubmittedCategory | cash_flow/forms.py:16-30 | once an existing category is submitted, the choices are its subcategories, whatever record is edited |
| Forms.SubcategoryCheckNeverFires | cash_flow/forms.py:25-30 | because of the restricted choices, the subcategory check of `clean` never reports on a real submission |
| Forms.AcceptedSubcategoryBelongs | cash_flow/forms.py:17-28 | an accepted subcategory always belongs to the accepted category |
| Forms.ForeignSubcategoryIsInvalidChoice | cash_flow/forms.py:25-28 | a submitted subcategory of another category is rejected as an invalid choice |
| Forms.SignAndDateUnchecked | cash_flow/forms.py:5-8 | an accepted form stays accepted with any amount that fits (negative ones too) and any custom date (future ones too), and carries them as given |
| Forms.FormAcceptsWhatValidatorsReject | cash_flow/validation.py:20-36 | an accepted form with amount -1 and tomorrow's date is still accepted, while `validate_amount` and `validate_custom_date` both fail on what it carries |
| Forms.CleanFilter | cash_flow/forms.py:77-101 | the filter is invalid exactly when a date is malformed or a filled-in reference is not an existing id; a valid one carries the submitted dates, and a reference exactly when its field was filled in, equal to what its text parses to |
| Forms.FilterRoundTrip | cash_flow/forms.py:77-101 | submitting the form for any filter over existing rows (ids as text, unchosen fields empty) cleans back to that filter |
| Forms.CleansTo | cash_flow/forms.py:77-101 | a submission whose fields convert to those of a filter cleans to that filter |
| Forms.IdTextCleans | cash_flow/forms.py:86-101 | the text of an existing id converts back to that id, and the empty text to no choice |
| Forms.EmptyFilterIsValid | cash_flow/forms.py:77-101 | a filter with every field empty is valid and constrains nothing |
| Query.Insert | cash_flow/views.py:65 | inserting into a newest-first list keeps it newest first, adds exactly that record (as a multiset) and keeps it free of repeats |
| Query.SortNewestFirst | cash_flow/views.py:65 | the result is a permutation of the input, ordered by `created_at` non-increasing, and repeat-free when the input is |
| Query.Keep | cash_flow/views.py:79-89 | one `.filter()` keeps exactly the records satisfying its condition, in order, keeping the ordering and the absence of repeats |
| Query.KeepAll | cash_flow/views.py:76-91 | the chain keeps exactly the records satisfying every condition, keeping order and the absence of repeats |
| Query.Conditions | cash_flow/views.py:78-89 | at most six `.filter()` calls, exactly one per filled-in field, carrying that field's value |
| Query.Matches | cash_flow/views.py:78-89 | inclusive bounds on the effective date and exact matches on the chosen references |
| Query.ConditionsMeanMatches | cash_flow/views.py:76-89 | the chain of conditions a filter makes holds of a record exactly when the record's effective date lies within the given bounds (inclusive) and each given reference is equal |
| Views.ListRecords | cash_flow/views.py:65-91 | the list holds exactly the stored records that the filter matches, or all of them when the filter form is invalid; newest first, no record twice |
| Views.UnfilteredListsEverything | cash_flow/views.py:76-91 | an invalid filter, or one with nothing filled in, lists every record |
| Views.ShownWithinBounds | cash_flow/views.py:76-89 | a listed record lies within the given date bounds on its effective date and has every given reference |
| Views.LoadSubcategories | cash_flow/views.py:297-313 | no parameter gives nothing; an unparsable one is an error; otherwise exactly (id, name) of the subcategories of that category |
| Views.LoadCategories | cash_flow/views.py:316-332 | the same for the categories of a type |
| Views.LookupAgreesWithForm | cash_flow/views.py:311-313 | for the category a form submits, the ids the lookup returns are exactly the subcategory choices the form accepts |
| Views.UnknownParentLoadsNothing | cash_flow/views.py:311-313 | an id naming no category (no type) gives an empty answer |
| Views.PutRecord | cash_flow/models.py:59-75 | storing a record whose references exist keeps the store well formed and changes only that record |
| Views.CreateRecord | cash_flow/views.py:118-125 | saved exactly when the form is valid, then as one new record under the next id built from the validated fields and stamped with `today`, consistent with the taxonomy, nothing else changed; an invalid form changes nothing and shows exactly the form's errors |
| Views.SaveNew | cash_flow/views.py:118-125 | storing a new record under the next id keeps the store well formed and changes nothing else |
| Views.UpdateRecord | cash_flow/views.py:99-106 | a missing record is a 404; otherwise saved exactly when the form is valid, replacing the record by the validated fields with its id and creation date kept and no other record changed; an invalid edit changes nothing and shows the form's errors |
| Views.SaveEdit | cash_flow/views.py:99-106 | saving an edit replaces only that record and keeps the store well formed |
| Views.SavedExactlyWhenAcceptable | cash_flow/views.py:99-125 | the create view, and the update view of an existing record, save a submission exactly when it is acceptable |
| Views.AcceptableIsStored | cash_flow/views.py:118-125 | an acceptable submission is stored under the next id with its amount, custom date and stripped comment, stamped `today` |
| Views.SampleStore | cash_flow/models.py:16-51 | a directory with type Income, its category Salary and that category's subcategory Bonus is well formed |
| Views.SampleRecordIsSaved | cash_flow/views.py:118-125 | Income / Salary / Bonus with amount 0 and no custom date is saved, stamped and listed under today |
| Views.SampleUncheckedRecordIsSaved | cash_flow/views.py:118-125 | the same form with amount -1 and tomorrow's date is saved, though both stand-alone validators reject what is stored |
| Views.SampleStoreWithExpense | cash_flow/models.py:16-51 | the sample directory after the type form adds Expense is well formed, and Salary stays under Income |
| Views.SalaryUnderExpenseRejected | cash_flow/views.py:118-125 | filing Salary / Bonus under Expense is refused with exactly the category mismatch error, and the store is unchanged |
| Views.ApplyEdits | cash_flow/views.py:99-106 | any sequence of edits keeps the store well formed and the record present |
| Views.EditsKeepRecord | cash_flow/models.py:60-62 | after any sequence of edits the record's creation date is the one it had |
| Views.EditsKeepCreationDate | cash_flow/models.py:60-62 | a record created on `today` still has creation date `today` after any sequence of edits |
| Views.DeleteReply | cash_flow/views.py:201-210 | a removed row redirects without a warning; a missing row is a 404; a refused delete keeps the store and gives the warning, or a server error when there is none |
| Views.DeleteTypeView | cash_flow/views.py:191-210 | a type in use, directly or through its categories or subcategories, stays and the user is warned; otherwise the store becomes exactly the result of deleting the type: it, its categories and their subcategories go, statuses and records stay |
| Views.DeleteCategoryView | cash_flow/views.py:233-252 | a category in use stays and the user is warned; otherwise the store becomes exactly the result of deleting the category: it and its subcategories go, the other tables stay |
| Views.DeleteSubCategoryView | cash_flow/views.py:275-294 | a subcategory in use stays and the user is warned; otherwise only it goes |
| Views.DeleteStatusView | cash_flow/views.py:162-168 | a status in use stays but the answer is a server error (no guard); otherwise only it goes |
| Views.DeleteRecordView | cash_flow/views.py:109-115 | a record delete removes exactly that record and leaves the lookup tables; a missing one is a 404 |
| Views.ReparentingBreaksRecords | cash_flow/models.py:27-33 | moving a category to another type leaves every record filed under it inconsistent with the taxonomy |

## Left out

- REST `ModelViewSet`s and their serializers (`cash_flow/views.py:28-55`): framework CRUD. The serializers are not part of this model.
- Routing (`cash_flow/api_urls.py`, `config/urls.py`): no logic.
- `static/js/cashflow_form.js`: DOM updates and `fetch`. The rules it drives are the two lookups, which are modelled.
- Templates, the text of flash messages, `DirectoryView` and `get_context_data`: presentation. A warning is modelled by which message it is, not by its words.
- The wall clock: `today` is an argument of `Validation.ValidateCustomDate` and `Views.CreateRecord`.
- `Decimal` arithmetic: amounts are integer kopecks. Parsing the decimal and date text of a form is left out; those fields arrive already converted.
- Transactions and concurrency: the store is a single sequential value. A refused delete is modelled as leaving the store unchanged: Django's collector raises `ProtectedError` while collecting, before it deletes anything.
- Per-table id sequences: one counter hands out ids for every table. Only uniqueness within a table matters to the behaviour modelled.
- `max_length=100` limits, `__str__`, and the stripping and required checks Django applies to name fields: not modelled.
- IntParse.ParseInt: models `int()` on ASCII text only. On text with a non-ASCII character, Python also accepts Unicode digits and skips Unicode whitespace; the model rejects such text.
- Forms.CleanComment: strips ASCII whitespace only. Python's `str.strip()` also removes Unicode whitespace such as U+00A0.
- Ids beyond the database's integer column: a lookup with such an id parses, and the model answers it like any id naming no row. What the database does with it depends on the backend, so it is not modelled.
- Every validator is side-effect free: this holds by construction, since each is a Dafny function.
- Creating and editing Status/Type/Category/SubCategory is modelled through the uniqueness and foreign-key checks their model forms run. Django's form-level field errors for those forms are not modelled.
