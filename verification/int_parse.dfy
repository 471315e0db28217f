/** Python's `int(text)` for base-10 text, as used when a request parameter
    names an id: `int(data.get("category"))` in the record form, and the
    integer conversion Django applies to a primary-key lookup value.

    Accepted: surrounding whitespace, an optional sign, then ASCII digits in
    which single underscores may separate two digits (`"1_000"`). Anything
    else (the empty string, `"abc"`, `"1.5"`, `"_1"`) raises `ValueError`,
    modelled as `None`; so does a literal of more than 4300 digits, Python's
    default `sys.int_info.default_max_str_digits`.

    Python has two notions of ASCII whitespace, and the module keeps both:
    `str.strip()`, which the record form applies to the comment, also
    removes the separators `\x1C`..`\x1F`, while `int()` skips only the C
    `isspace` characters and rejects text that carries a separator. */
module IntParse {
  import opened Wrappers

  /** Which whitespace a trim removes: `str.strip()`'s or `int()`'s. */
  datatype Spaces = StrSpaces | IntSpaces

  /** The ASCII characters `k` treats as whitespace: space and `\t`..`\r`
      for both, and the separators `\x1C`..`\x1F` for `str.strip()` only. */
  predicate IsSpace(k: Spaces, c: char) {
    c == ' ' || ('\t' <= c <= '\r') || (k == StrSpaces && '\U{1C}' <= c <= '\U{1F}')
  }

  predicate IsDigit(c: char) {
    '0' <= c <= '9'
  }

  function DigitValue(c: char): (d: nat)
    requires IsDigit(c)
    ensures d < 10
  {
    (c as int) - ('0' as int)
  }

  function DigitChar(d: nat): (c: char)
    requires d < 10
    ensures IsDigit(c) && DigitValue(c) == d
  {
    (('0' as int) + d) as char
  }

  /** Drops leading whitespace. */
  function TrimLeft(k: Spaces, s: string): (r: string)
    ensures |r| <= |s| && r == s[|s| - |r|..]
    ensures |r| > 0 ==> !IsSpace(k, r[0])
    ensures forall i :: 0 <= i < |s| - |r| ==> IsSpace(k, s[i])
  {
    if |s| > 0 && IsSpace(k, s[0]) then TrimLeft(k, s[1..]) else s
  }

  /** Drops trailing whitespace. */
  function TrimRight(k: Spaces, s: string): (r: string)
    ensures |r| <= |s| && r == s[..|r|]
    ensures |r| > 0 ==> !IsSpace(k, r[|r| - 1])
    ensures forall i :: |r| <= i < |s| ==> IsSpace(k, s[i])
  {
    if |s| > 0 && IsSpace(k, s[|s| - 1]) then TrimRight(k, s[..|s| - 1]) else s
  }

  /** Drops whitespace on both ends: Python's `s.strip()` on ASCII text for
      `StrSpaces`, and what `int()` skips around a literal for `IntSpaces`. */
  function Strip(k: Spaces, s: string): (r: string)
    ensures |r| > 0 ==> !IsSpace(k, r[0]) && !IsSpace(k, r[|r| - 1])
    ensures forall c :: c in r ==> c in s
  {
    var l := TrimLeft(k, s);
    var r := TrimRight(k, l);
    assert forall c :: c in r ==> c in l;
    r
  }

  /** The digit part of a base-10 literal: non-empty, ASCII digits, and an
      underscore only directly between two digits. */
  predicate IsDigitBody(b: string) {
    && |b| > 0
    && forall i :: 0 <= i < |b| ==> IsDigit(b[i]) || SeparatesDigits(b, i)
  }

  /** Position `i` of `b` holds an underscore with a digit on either side. */
  predicate SeparatesDigits(b: string, i: int) {
    0 < i < |b| - 1 && b[i] == '_' && IsDigit(b[i - 1]) && IsDigit(b[i + 1])
  }

  /** The value of a string of digits and underscores, underscores ignored. */
  function BodyValue(b: string): nat
    requires forall i :: 0 <= i < |b| ==> IsDigit(b[i]) || b[i] == '_'
  {
    if |b| == 0 then 0
    else if b[|b| - 1] == '_' then BodyValue(b[..|b| - 1])
    else 10 * BodyValue(b[..|b| - 1]) + DigitValue(b[|b| - 1])
  }

  /** The number of digits Python's `int()` converts without raising. */
  const MaxStrDigits: nat := 4300

  /** The number of digits in `b`; underscores and signs do not count. */
  function DigitCount(b: string): (n: nat)
    ensures n <= |b|
  {
    if |b| == 0 then 0
    else DigitCount(b[..|b| - 1]) + (if IsDigit(b[|b| - 1]) then 1 else 0)
  }

  /** A digit body Python converts: well formed, and short enough. */
  predicate Convertible(b: string) {
    IsDigitBody(b) && DigitCount(b) <= MaxStrDigits
  }

  /** `int(s)`: `Some(n)` when Python returns `n`, `None` when it raises. */
  function ParseInt(s: string): (r: Option<int>)
    ensures r.Some? ==> exists c :: c in s && IsDigit(c)
    ensures r.Some? ==> DigitCount(Strip(IntSpaces, s)) <= MaxStrDigits
  {
    ParseStripped(Strip(IntSpaces, s))
  }

  /** `int()` on text that has already been stripped. */
  function ParseStripped(t: string): (r: Option<int>)
    ensures r.Some? ==> exists c :: c in t && IsDigit(c)
    ensures r.Some? ==> DigitCount(t) <= MaxStrDigits
  {
    if |t| > 0 && (t[0] == '-' || t[0] == '+') then
      var body := t[1..];
      if Convertible(body) then
        assert IsDigit(body[0]) && body[0] in t;
        SignedCount(t);
        var v: int := BodyValue(body);
        Some(if t[0] == '-' then -v else v)
      else None
    else if Convertible(t) then
      assert IsDigit(t[0]);
      Some(BodyValue(t))
    else None
  }

  /** A leading sign adds no digit. */
  lemma {:induction false} SignedCount(t: string)
    requires |t| > 0 && !IsDigit(t[0])
    ensures DigitCount(t) == DigitCount(t[1..])
    decreases |t|
  {
    if |t| > 1 {
      SignedCount(t[..|t| - 1]);
      assert t[..|t| - 1][1..] == t[1..][..|t| - 2];
    } else {
      assert t[..|t| - 1] == [];
    }
  }

  /** In a string of digits every character counts. */
  lemma {:induction false} AllDigitsCount(b: string)
    requires forall i :: 0 <= i < |b| ==> IsDigit(b[i])
    ensures DigitCount(b) == |b|
    decreases |b|
  {
    if |b| > 0 {
      AllDigitsCount(b[..|b| - 1]);
    }
  }

  /** Decimal digits of a natural number, most significant first (Python's `str(n)`). */
  function ShowNat(n: nat): (r: string)
    ensures |r| > 0
    ensures forall i :: 0 <= i < |r| ==> IsDigit(r[i])
  {
    if n < 10 then [DigitChar(n)] else ShowNat(n / 10) + [DigitChar(n % 10)]
  }

  /** `n` has at most 4300 digits, so `int(str(n))` does not raise. */
  predicate ShortEnough(n: int) {
    |ShowNat(if n < 0 then -n else n)| <= MaxStrDigits
  }

  /** Python's `str(n)` for an integer. */
  function Show(n: int): (r: string)
  {
    if n < 0 then "-" + ShowNat(-n) else ShowNat(n)
  }

  lemma {:induction false} ShowNatValue(n: nat)
    ensures IsDigitBody(ShowNat(n))
    ensures BodyValue(ShowNat(n)) == n
  {
    var r := ShowNat(n);
    if n >= 10 {
      ShowNatValue(n / 10);
      assert r[..|r| - 1] == ShowNat(n / 10);
      assert r[|r| - 1] == DigitChar(n % 10);
    }
  }

  lemma StripUnchanged(k: Spaces, s: string)
    requires |s| > 0 && !IsSpace(k, s[0]) && !IsSpace(k, s[|s| - 1])
    ensures Strip(k, s) == s
  {
    assert TrimLeft(k, s) == s;
    assert TrimRight(k, s) == s;
  }

  /** Parsing what Python prints for an integer gives that integer back,
      for every integer of at most 4300 digits. */
  lemma {:induction false} ParseShow(n: int)
    requires ShortEnough(n)
    ensures ParseInt(Show(n)) == Some(n)
  {
    var s := Show(n);
    if n < 0 {
      var d := ShowNat(-n);
      ShowConvertible(-n);
      assert s == "-" + d;
      assert s[1..] == d;
      assert s[|s| - 1] == d[|d| - 1];
      StripUnchanged(IntSpaces, s);
      assert ParseStripped(s) == Some(n);
    } else {
      ShowConvertible(n);
      StripUnchanged(IntSpaces, s);
      assert ParseStripped(s) == Some(n);
    }
  }

  lemma ShowConvertible(m: nat)
    requires |ShowNat(m)| <= MaxStrDigits
    ensures Convertible(ShowNat(m)) && BodyValue(ShowNat(m)) == m
  {
    ShowNatValue(m);
    AllDigitsCount(ShowNat(m));
  }

  /** More than 4300 digits raise, whatever they spell. */
  lemma TooManyDigitsRaise(b: string)
    requires IsDigitBody(b) && DigitCount(b) > MaxStrDigits
    ensures ParseStripped(b) == None
    ensures ParseStripped("-" + b) == None
  {
    assert ("-" + b)[1..] == b;
  }

  /** Every character of `w` is whitespace of kind `k`. */
  predicate AllSpace(k: Spaces, w: string) {
    forall i :: 0 <= i < |w| ==> IsSpace(k, w[i])
  }

  /** Leading whitespace goes, whatever follows it. */
  lemma {:induction false} TrimLeftSpaces(k: Spaces, w: string, x: string)
    requires AllSpace(k, w)
    ensures TrimLeft(k, w + x) == TrimLeft(k, x)
  {
    if |w| == 0 {
      assert w + x == x;
    } else {
      assert (w + x)[0] == w[0];
      assert (w + x)[1..] == w[1..] + x;
      TrimLeftSpaces(k, w[1..], x);
    }
  }

  /** Trailing whitespace goes, whatever precedes it. */
  lemma {:induction false} TrimRightSpaces(k: Spaces, x: string, w: string)
    requires AllSpace(k, w)
    ensures TrimRight(k, x + w) == TrimRight(k, x)
  {
    if |w| == 0 {
      assert x + w == x;
    } else {
      assert (x + w)[|x + w| - 1] == w[|w| - 1];
      assert (x + w)[..|x + w| - 1] == x + w[..|w| - 1];
      TrimRightSpaces(k, x, w[..|w| - 1]);
    }
  }

  /** Text after a non-space character is kept by `TrimLeft`. */
  lemma {:induction false} TrimLeftAppend(k: Spaces, x: string, w: string)
    requires |TrimLeft(k, x)| > 0
    ensures TrimLeft(k, x + w) == TrimLeft(k, x) + w
  {
    assert (x + w)[0] == x[0];
    if IsSpace(k, x[0]) {
      assert (x + w)[1..] == x[1..] + w;
      TrimLeftAppend(k, x[1..], w);
    }
  }

  /** Stripping ignores whitespace added on either side: `str.strip()` for
      `StrSpaces`, `int()`'s skipping for `IntSpaces`. */
  lemma StripSurrounded(k: Spaces, w1: string, x: string, w2: string)
    requires AllSpace(k, w1) && AllSpace(k, w2)
    ensures Strip(k, w1 + x + w2) == Strip(k, x)
  {
    Associative(w1, x, w2);
    TrimLeftSpaces(k, w1, x + w2);
    if |TrimLeft(k, x)| == 0 {
      AllSpaceConcat(k, x, w2);
      AllSpaceTrimmed(k, x + w2);
    } else {
      TrimLeftAppend(k, x, w2);
      TrimRightSpaces(k, TrimLeft(k, x), w2);
    }
  }

  lemma Associative(a: string, b: string, c: string)
    ensures a + b + c == a + (b + c)
  {
  }

  lemma AllSpaceConcat(k: Spaces, a: string, b: string)
    requires |TrimLeft(k, a)| == 0 && AllSpace(k, b)
    ensures AllSpace(k, a + b)
  {
    assert AllSpace(k, a);
  }

  /** Text of whitespace only strips to nothing. */
  lemma {:induction false} AllSpaceTrimmed(k: Spaces, w: string)
    requires AllSpace(k, w)
    ensures TrimLeft(k, w) == []
  {
    if |w| > 0 {
      AllSpaceTrimmed(k, w[1..]);
    }
  }

  /** Stripping twice is stripping once. */
  lemma StripIdempotent(k: Spaces, s: string)
    ensures Strip(k, Strip(k, s)) == Strip(k, s)
  {
    var t := Strip(k, s);
    if |t| > 0 {
      StripUnchanged(k, t);
    } else {
      assert TrimLeft(k, t) == t;
    }
  }

  /** Whitespace `int()` skips never changes what it returns. */
  lemma StripIgnored(s: string)
    ensures ParseInt(Strip(IntSpaces, s)) == ParseInt(s)
  {
    StripIdempotent(IntSpaces, s);
  }

  /** Whatever `int()` skips, `str.strip()` removes too. */
  lemma IntSpaceIsStrSpace(c: char)
    ensures IsSpace(IntSpaces, c) ==> IsSpace(StrSpaces, c)
    ensures IsSpace(StrSpaces, c) && !IsSpace(IntSpaces, c) <==> '\U{1C}' <= c <= '\U{1F}'
  {
  }

  /** A character that may appear in a literal `int()` accepts. */
  predicate LiteralChar(c: char) {
    IsDigit(c) || c == '_' || c == '-' || c == '+'
  }

  /** Stripped text `int()` accepts holds only literal characters. */
  lemma StrippedCharacters(t: string)
    requires ParseStripped(t).Some?
    ensures forall c :: c in t ==> LiteralChar(c)
  {
    if |t| > 0 && (t[0] == '-' || t[0] == '+') {
      assert Convertible(t[1..]);
      assert t == [t[0]] + t[1..];
    } else {
      assert Convertible(t);
    }
  }

  /** Every character of `s` is either whitespace of kind `k` or kept by the strip. */
  lemma StripCovers(k: Spaces, s: string)
    ensures forall i :: 0 <= i < |s| ==> IsSpace(k, s[i]) || s[i] in Strip(k, s)
  {
    var l := TrimLeft(k, s);
    var t := TrimRight(k, l);
    forall i | 0 <= i < |s| && !IsSpace(k, s[i])
      ensures s[i] in t
    {
      var j := i - (|s| - |l|);
      assert s[i] == l[j];
      assert l[j] == t[j];
    }
  }

  /** Text `int()` accepts holds only digits, underscores, signs and
      `int()`'s whitespace; in particular no separator `\x1C`..`\x1F`. */
  lemma AcceptedCharacters(s: string)
    requires ParseInt(s).Some?
    ensures forall i :: 0 <= i < |s| ==> LiteralChar(s[i]) || IsSpace(IntSpaces, s[i])
  {
    StrippedCharacters(Strip(IntSpaces, s));
    StripCovers(IntSpaces, s);
  }

  /** A string with a character `int()` cannot accept does not parse. */
  lemma RejectsForeign(s: string, i: int)
    requires 0 <= i < |s|
    requires !LiteralChar(s[i]) && !IsSpace(IntSpaces, s[i])
    ensures ParseInt(s) == None
  {
    if ParseInt(s).Some? {
      AcceptedCharacters(s);
    }
  }

  /** `int()` rejects a digit next to a separator `\x1C`..`\x1F`, on either
      side, while `str.strip()` removes the separator. */
  lemma SeparatorRejected(c: char)
    requires '\U{1C}' <= c <= '\U{1F}'
    ensures ParseInt([c] + "5") == None && ParseInt("5" + [c]) == None
    ensures Strip(StrSpaces, [c] + "5") == "5" && Strip(StrSpaces, "5" + [c]) == "5"
  {
    RejectsForeign([c] + "5", 0);
    RejectsForeign("5" + [c], 1);
    SeparatorStripped(c);
  }

  lemma SeparatorStripped(c: char)
    requires '\U{1C}' <= c <= '\U{1F}'
    ensures Strip(StrSpaces, [c] + "5") == "5" && Strip(StrSpaces, "5" + [c]) == "5"
  {
    var five := "5";
    assert AllSpace(StrSpaces, [c]) && AllSpace(StrSpaces, []);
    assert Strip(StrSpaces, five) == five by {
      assert five[0] == '5';
      StripUnchanged(StrSpaces, five);
    }
    assert [c] + five == [c] + five + [];
    assert five + [c] == [] + five + [c];
    StripSurrounded(StrSpaces, [c], five, []);
    StripSurrounded(StrSpaces, [], five, [c]);
  }

  /** `int("\x1C5")` raises. */
  lemma SeparatorBeforeDigitRaises()
    ensures ParseInt("\U{1C}5") == None
  {
    assert "\U{1C}5"[0] == '\U{1C}';
    RejectsForeign("\U{1C}5", 0);
  }
}
