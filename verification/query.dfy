/** The record list: ordered by `created_at`, newest first, then narrowed by
    each filter the filter form delivered, one `.filter()` after another. */
module Query {
  import opened Wrappers
  import opened Models
  import opened Forms

  /** SQL `COALESCE(a, b)`: `a` unless it is NULL. */
  function Coalesce<T>(a: Option<T>, b: T): T {
    a.GetOr(b)
  }

  /** The `effective_date` the list annotates each record with is the
      record's own `get_effective_date()`. */
  lemma EffectiveDateIsCoalesce(r: Record)
    ensures Coalesce(r.customDate, r.createdAt) == EffectiveDate(r)
    ensures r.customDate.Some? ==> EffectiveDate(r) == r.customDate.value
    ensures r.customDate.None? ==> EffectiveDate(r) == r.createdAt
  {
  }

  // ---------------------------------------------------------------------
  // Ordering: `ordering = ['-created_at']`
  // ---------------------------------------------------------------------

  /** `created_at` never increases along the list; ties may come in any order. */
  predicate NewestFirst(rs: seq<Record>) {
    forall i, j :: 0 <= i < j < |rs| ==> rs[i].createdAt >= rs[j].createdAt
  }

  /** No record is listed twice. */
  predicate Distinct(rs: seq<Record>) {
    forall i, j :: 0 <= i < j < |rs| ==> rs[i] != rs[j]
  }

  /** Putting a record no older than any listed one in front keeps the
      order, and keeps the list free of repeats when it was not listed. */
  lemma Prepend(x: Record, rs: seq<Record>)
    ensures NewestFirst(rs) && (forall y :: y in rs ==> y.createdAt <= x.createdAt) ==> NewestFirst([x] + rs)
    ensures Distinct(rs) && x !in rs ==> Distinct([x] + rs)
  {
    var out := [x] + rs;
    forall i, j | 0 < i < j < |out|
      ensures out[i] == rs[i - 1] && out[j] == rs[j - 1]
    {
    }
    forall j | 0 < j < |out|
      ensures out[j] == rs[j - 1] && out[j] in rs
    {
    }
  }

  /** Puts `r` in front of the first listed record that is older than it. */
  function Insert(r: Record, rs: seq<Record>): (out: seq<Record>)
    requires NewestFirst(rs)
    ensures NewestFirst(out)
    ensures multiset(out) == multiset(rs) + multiset{r}
    ensures Distinct(rs) && r !in rs ==> Distinct(out)
  {
    if |rs| == 0 then [r]
    else if r.createdAt >= rs[0].createdAt then
      InFront(r, rs);
      [r] + rs
    else
      var tail := Insert(r, rs[1..]);
      Behind(r, rs, tail);
      [rs[0]] + tail
  }

  lemma InFront(r: Record, rs: seq<Record>)
    requires NewestFirst(rs) && |rs| > 0 && r.createdAt >= rs[0].createdAt
    ensures NewestFirst([r] + rs)
    ensures Distinct(rs) && r !in rs ==> Distinct([r] + rs)
  {
    Prepend(r, rs);
  }

  lemma Behind(r: Record, rs: seq<Record>, tail: seq<Record>)
    requires NewestFirst(rs) && |rs| > 0 && r.createdAt < rs[0].createdAt
    requires NewestFirst(tail)
    requires multiset(tail) == multiset(rs[1..]) + multiset{r}
    requires Distinct(rs) && r !in rs ==> Distinct(tail)
    ensures NewestFirst([rs[0]] + tail)
    ensures multiset([rs[0]] + tail) == multiset(rs) + multiset{r}
    ensures Distinct(rs) && r !in rs ==> Distinct([rs[0]] + tail)
  {
    assert rs == [rs[0]] + rs[1..];
    forall y | y in tail
      ensures y.createdAt <= rs[0].createdAt
    {
      assert y in multiset(tail);
      if y != r {
        assert y in multiset(rs[1..]);
      }
    }
    if Distinct(rs) {
      assert rs[0] !in rs[1..];
      assert rs[0] != r ==> rs[0] !in multiset(tail);
    }
    Prepend(rs[0], tail);
  }

  /** Insertion sort by `created_at`, newest first. */
  function SortNewestFirst(rs: seq<Record>): (out: seq<Record>)
    ensures NewestFirst(out)
    ensures multiset(out) == multiset(rs)
    ensures Distinct(rs) ==> Distinct(out)
  {
    if |rs| == 0 then []
    else
      var tail := SortNewestFirst(rs[1..]);
      assert rs == [rs[0]] + rs[1..];
      assert rs[0] in multiset(tail) <==> rs[0] in rs[1..];
      Insert(rs[0], tail)
  }

  // ---------------------------------------------------------------------
  // Filtering: the chain of `.filter()` calls
  // ---------------------------------------------------------------------

  /** One `.filter()` call of the list view. */
  datatype Condition =
    | EffectiveFrom(from: Date)
    | EffectiveUntil(until: Date)
    | HasStatus(statusId: Id)
    | HasType(typeId: Id)
    | HasCategory(categoryId: Id)
    | HasSubcategory(subcategoryId: Id)

  predicate Holds(c: Condition, r: Record) {
    var effective := Coalesce(r.customDate, r.createdAt);
    match c
    case EffectiveFrom(d) => effective >= d
    case EffectiveUntil(d) => effective <= d
    case HasStatus(k) => r.statusId == Some(k)
    case HasType(k) => r.typeId == k
    case HasCategory(k) => r.categoryId == k
    case HasSubcategory(k) => r.subcategoryId == k
  }

  function When(present: bool, c: Condition): seq<Condition> {
    if present then [c] else []
  }

  /** Condition `c` is one that filter `q` asks for. */
  predicate Asked(q: Filter, c: Condition) {
    match c
    case EffectiveFrom(d) => q.dateFrom == Some(d)
    case EffectiveUntil(d) => q.dateTo == Some(d)
    case HasStatus(k) => q.statusId == Some(k)
    case HasType(k) => q.typeId == Some(k)
    case HasCategory(k) => q.categoryId == Some(k)
    case HasSubcategory(k) => q.subcategoryId == Some(k)
  }

  /** The `.filter()` calls a cleaned filter makes, in the view's order:
      one per field that was filled in, with that field's value. */
  function Conditions(q: Filter): (cs: seq<Condition>)
    ensures |cs| <= 6
    ensures forall c :: c in cs <==> Asked(q, c)
  {
    var a := When(q.dateFrom.Some?, EffectiveFrom(q.dateFrom.GetOr(0)));
    var b := When(q.dateTo.Some?, EffectiveUntil(q.dateTo.GetOr(0)));
    var c := When(q.statusId.Some?, HasStatus(q.statusId.GetOr(0)));
    var d := When(q.typeId.Some?, HasType(q.typeId.GetOr(0)));
    var e := When(q.categoryId.Some?, HasCategory(q.categoryId.GetOr(0)));
    var f := When(q.subcategoryId.Some?, HasSubcategory(q.subcategoryId.GetOr(0)));
    var cs := a + b + c + d + e + f;
    assert forall x :: x in cs <==> x in a || x in b || x in c || x in d || x in e || x in f;
    cs
  }

  /** The filter as a single predicate: inclusive bounds on the effective
      date, and exact matches on whichever references were chosen. */
  predicate Matches(q: Filter, r: Record) {
    && (q.dateFrom.Some? ==> q.dateFrom.value <= EffectiveDate(r))
    && (q.dateTo.Some? ==> EffectiveDate(r) <= q.dateTo.value)
    && (q.statusId.Some? ==> r.statusId == q.statusId)
    && (q.typeId.Some? ==> r.typeId == q.typeId.value)
    && (q.categoryId.Some? ==> r.categoryId == q.categoryId.value)
    && (q.subcategoryId.Some? ==> r.subcategoryId == q.subcategoryId.value)
  }

  /** One `.filter(c)`: keeps the records satisfying `c`, in their order. */
  function Keep(rs: seq<Record>, c: Condition): (out: seq<Record>)
    ensures forall x :: x in out <==> x in rs && Holds(c, x)
    ensures NewestFirst(rs) ==> NewestFirst(out)
    ensures Distinct(rs) ==> Distinct(out)
    ensures |out| <= |rs|
  {
    if |rs| == 0 then []
    else
      assert rs == [rs[0]] + rs[1..];
      var tail := Keep(rs[1..], c);
      if Holds(c, rs[0]) then
        assert NewestFirst(rs) ==> forall y :: y in rs[1..] ==> y.createdAt <= rs[0].createdAt;
        Prepend(rs[0], tail);
        [rs[0]] + tail
      else tail
  }

  /** The filters applied one after another. */
  function KeepAll(rs: seq<Record>, cs: seq<Condition>): (out: seq<Record>)
    ensures forall x :: x in out <==> x in rs && forall i :: 0 <= i < |cs| ==> Holds(cs[i], x)
    ensures NewestFirst(rs) ==> NewestFirst(out)
    ensures Distinct(rs) ==> Distinct(out)
    decreases |cs|
  {
    if |cs| == 0 then rs
    else
      var out := KeepAll(Keep(rs, cs[0]), cs[1..]);
      assert forall x :: (forall i :: 0 <= i < |cs| ==> Holds(cs[i], x)) <==>
        Holds(cs[0], x) && forall i :: 0 <= i < |cs| - 1 ==> Holds(cs[1..][i], x);
      out
  }

  /** The chain of `.filter()` calls keeps exactly the records the single
      predicate `Matches` accepts. */
  lemma {:induction false} ConditionsMeanMatches(q: Filter, r: Record)
    ensures AllHold(Conditions(q), r) <==> Matches(q, r)
  {
    var cs := Conditions(q);
    EffectiveDateIsCoalesce(r);
    var a := When(q.dateFrom.Some?, EffectiveFrom(q.dateFrom.GetOr(0)));
    var b := When(q.dateTo.Some?, EffectiveUntil(q.dateTo.GetOr(0)));
    var c := When(q.statusId.Some?, HasStatus(q.statusId.GetOr(0)));
    var d := When(q.typeId.Some?, HasType(q.typeId.GetOr(0)));
    var e := When(q.categoryId.Some?, HasCategory(q.categoryId.GetOr(0)));
    var f := When(q.subcategoryId.Some?, HasSubcategory(q.subcategoryId.GetOr(0)));
    assert cs == a + b + c + d + e + f;
    AllHoldWhen(q.dateFrom.Some?, EffectiveFrom(q.dateFrom.GetOr(0)), r);
    AllHoldWhen(q.dateTo.Some?, EffectiveUntil(q.dateTo.GetOr(0)), r);
    AllHoldWhen(q.statusId.Some?, HasStatus(q.statusId.GetOr(0)), r);
    AllHoldWhen(q.typeId.Some?, HasType(q.typeId.GetOr(0)), r);
    AllHoldWhen(q.categoryId.Some?, HasCategory(q.categoryId.GetOr(0)), r);
    AllHoldWhen(q.subcategoryId.Some?, HasSubcategory(q.subcategoryId.GetOr(0)), r);
    AllHoldConcat(a, b, r);
    AllHoldConcat(a + b, c, r);
    AllHoldConcat(a + b + c, d, r);
    AllHoldConcat(a + b + c + d, e, r);
    AllHoldConcat(a + b + c + d + e, f, r);
  }

  predicate AllHold(cs: seq<Condition>, r: Record) {
    forall i :: 0 <= i < |cs| ==> Holds(cs[i], r)
  }

  lemma AllHoldWhen(present: bool, c: Condition, r: Record)
    ensures AllHold(When(present, c), r) <==> (present ==> Holds(c, r))
  {
    if present {
      assert When(present, c)[0] == c;
    }
  }

  lemma AllHoldConcat(a: seq<Condition>, b: seq<Condition>, r: Record)
    ensures AllHold(a + b, r) <==> AllHold(a, r) && AllHold(b, r)
  {
    if AllHold(a, r) && AllHold(b, r) {
      forall i | 0 <= i < |a + b|
        ensures Holds((a + b)[i], r)
      {
        if i >= |a| {
          assert (a + b)[i] == b[i - |a|];
        }
      }
    }
    if AllHold(a + b, r) {
      forall i | 0 <= i < |a|
        ensures Holds(a[i], r)
      {
        assert (a + b)[i] == a[i];
      }
      forall i | 0 <= i < |b|
        ensures Holds(b[i], r)
      {
        assert (a + b)[|a| + i] == b[i];
      }
    }
  }
}
