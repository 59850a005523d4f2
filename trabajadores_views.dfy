/** The year handling of the workers' list endpoint
    (Software/trabajadores/views.py, `get_queryset` and
    `get_serializer_context`): the `anio` query parameter filters the
    workers and picks the year whose facts the serializer shows. A
    parameter that Python's `int` refuses raises `ValueError`, which the
    framework answers with a server error. */
module TrabajadoresViews {
  import opened Wrappers
  import opened Text
  import opened Trabajadores

  /** A value, or the `ValueError` of `int(...)`. */
  datatype Outcome<T> = Done(value: T) | ValueError

  /** Python's `int(s)` on text: surrounding whitespace, an optional sign,
      then one or more decimal digits, with single underscores allowed
      between two digits. */
  function PyInt(s: string): (r: Option<int>)
    ensures '_' in Strip(s) && !UnderscoresBetweenDigits(Strip(s)) ==> r.None?
  {
    match Ungrouped(Strip(s))
    case None => None
    case Some(t) => SignedInt(t)
  }

  /** Digits grouped by an underscore read as the digits run together:
      `int("2_025")` is 2025. */
  lemma GroupedInt(a: string, b: string)
    requires |a| > 0 && |b| > 0 && IsDigits(a) && IsDigits(b)
    ensures PyInt(a + "_" + b) == PyInt(a + b) == Some(DigitsValue(a + b))
  {
    var s := a + "_" + b;
    assert s[0] == a[0] && s[|s| - 1] == b[|b| - 1];
    DigitsRead(a + b);
    UngroupedDigits(a, b);
    DigitEndsStripped(s);
  }

  /** Digits are read as their value. */
  lemma DigitsRead(t: string)
    requires |t| > 0 && IsDigits(t)
    ensures PyInt(t) == Some(DigitsValue(t))
  {
    DigitEndsStripped(t);
    DigitsNoUnderscore(t);
  }

  lemma DigitEndsStripped(s: string)
    requires |s| > 0 && IsDigit(s[0]) && IsDigit(s[|s| - 1])
    ensures Strip(s) == s
  {
    StripNoop(s);
  }

  /** An optional sign, then one or more decimal digits. */
  function SignedInt(t: string): Option<int>
  {
    if |t| >= 2 && (t[0] == '-' || t[0] == '+') && IsDigits(t[1..]) then
      var magnitude: int := DigitsValue(t[1..]);
      Some(if t[0] == '-' then -magnitude else magnitude)
    else if |t| >= 1 && IsDigits(t) then Some(DigitsValue(t))
    else None
  }

  /** `int` reads back what `str` writes. */
  lemma PyIntRoundTrip(i: int)
    ensures PyInt(IntToString(i)) == Some(i)
  {
    if i < 0 {
      NegativeRoundTrip(-i);
    } else {
      DigitsRead(NatToString(i));
    }
  }

  /** `int` reads back a minus sign followed by the digits of `n`. */
  lemma NegativeRoundTrip(n: nat)
    requires n > 0
    ensures PyInt("-" + NatToString(n)) == Some(-(n as int))
  {
    NegativeDigits(NatToString(n), n, "-" + NatToString(n));
  }

  /** A minus sign before digits spelling `v` reads as `-v`. */
  lemma NegativeDigits(d: string, v: nat, s: string)
    requires |d| >= 1 && IsDigits(d) && DigitsValue(d) == v && s == "-" + d
    ensures PyInt(s) == Some(-(v as int))
  {
    SignedAsWritten(d, s);
    SignedNegative(d);
  }

  /** A minus sign before digits is read without stripping. */
  lemma SignedAsWritten(d: string, s: string)
    requires |d| >= 1 && IsDigits(d) && s == "-" + d
    ensures PyInt(s) == SignedInt(s)
  {
    StrippedSigned(d, s);
    SignedNoUnderscore(d, s);
    StrippedRead(s);
  }

  lemma SignedNoUnderscore(d: string, s: string)
    requires IsDigits(d) && s == "-" + d
    ensures '_' !in s
  {
    DigitsNoUnderscore(d);
  }

  /** A text that stripping leaves alone is read as it stands. */
  lemma StrippedRead(s: string)
    requires Strip(s) == s && '_' !in s
    ensures PyInt(s) == SignedInt(s)
  {
  }

  /** Stripping leaves a minus sign followed by digits alone. */
  lemma StrippedSigned(d: string, s: string)
    requires |d| >= 1 && IsDigits(d) && s == "-" + d
    ensures Strip(s) == s
  {
    assert s[|s| - 1] == d[|d| - 1];
    assert IsDigit(d[|d| - 1]);
    StripNoop(s);
  }

  /** A minus sign followed by digits reads as their negated value. */
  lemma SignedNegative(d: string)
    requires |d| >= 1 && IsDigits(d)
    ensures SignedInt("-" + d) == Some(-(DigitsValue(d) as int))
  {
    var s := "-" + d;
    assert s[0] == '-' && s[1..] == d;
  }

  /** The filter `get_queryset` applies: none when the parameter is absent
      or empty (falsy), otherwise the year the parameter denotes. */
  function ListFilter(anio: Option<string>): (r: Outcome<Option<int>>)
    ensures anio.None? || anio == Some("") ==> r == Done(None)
    ensures anio.Some? && anio.value != "" ==>
      (r.ValueError? <==> PyInt(anio.value).None?)
      && (r.Done? ==> r.value == PyInt(anio.value))
  {
    if anio.None? || anio.value == "" then Done(None)
    else
      match PyInt(anio.value)
      case None => ValueError
      case Some(y) => Done(Some(y))
  }

  /** The workers the list shows, in the queryset's order. */
  function ListWorkers(ws: seq<Worker>, anio: Option<string>): (r: Outcome<seq<Worker>>)
    ensures r.ValueError? <==> ListFilter(anio).ValueError?
    ensures r.Done? && ListFilter(anio).value.None? ==> r.value == ws
    ensures r.Done? && ListFilter(anio).value.Some? ==>
      (forall w :: w in r.value <==> w in ws && w.anio == ListFilter(anio).value.value)
      && IsSubsequence(r.value, ws)
  {
    match ListFilter(anio)
    case ValueError => ValueError
    case Done(None) => Done(ws)
    case Done(Some(y)) => Done(OfYear(ws, y))
  }

  /** `queryset.filter(anio=y)`. */
  function OfYear(ws: seq<Worker>, y: int): (r: seq<Worker>)
    ensures |r| <= |ws|
    ensures forall w :: w in r <==> w in ws && w.anio == y
    ensures IsSubsequence(r, ws)
    decreases |ws|
  {
    if ws == [] then []
    else
      var rest := OfYear(ws[1..], y);
      assert forall x :: x in ws <==> x == ws[0] || x in ws[1..];
      if ws[0].anio == y then
        assert ([ws[0]] + rest)[1..] == rest;
        [ws[0]] + rest
      else
        SubsequenceSkip(rest, ws);
        rest
  }

  /** The year in the serializer's context: 2025 when the parameter is
      absent, otherwise what `int` makes of it. */
  function SerializerYear(anio: Option<string>): (r: Outcome<int>)
    ensures anio.None? ==> r == Done(2025)
    ensures anio.Some? ==> (r.ValueError? <==> PyInt(anio.value).None?)
    ensures anio.Some? && r.Done? ==> Some(r.value) == PyInt(anio.value)
  {
    if anio.None? then Done(2025)
    else
      match PyInt(anio.value)
      case None => ValueError
      case Some(y) => Done(y)
  }

  /** Whenever a year is given, the list is filtered by the same year the
      serializer shows, and both fail together. */
  lemma GivenYearAgrees(s: string)
    requires s != ""
    ensures ListFilter(Some(s)).ValueError? <==> SerializerYear(Some(s)).ValueError?
    ensures SerializerYear(Some(s)).Done? ==> ListFilter(Some(s)) == Done(Some(SerializerYear(Some(s)).value))
  {
  }

  /** A year written as `str` writes it filters by that year and shows it. */
  lemma WrittenYear(y: int)
    ensures ListFilter(Some(IntToString(y))) == Done(Some(y))
    ensures SerializerYear(Some(IntToString(y))) == Done(y)
  {
    PyIntRoundTrip(y);
  }

  /** The two readings disagree on the missing and the empty parameter:
      without one, every worker is listed with the facts of 2025; with an
      empty one, the list is unfiltered but the serializer's `int("")`
      fails. */
  lemma EmptyParameter()
    ensures ListFilter(None) == Done(None) && SerializerYear(None) == Done(2025)
    ensures ListFilter(Some("")) == Done(None) && SerializerYear(Some("")) == ValueError
  {
    assert Strip("") == "";
  }

  /** A parameter that is only whitespace is truthy, so it reaches `int`
      and fails in both. */
  lemma BlankParameter(s: string)
    requires s != [] && forall i :: 0 <= i < |s| ==> IsPySpace(s[i])
    ensures ListFilter(Some(s)) == ValueError && SerializerYear(Some(s)) == ValueError
  {
    AllSpace(s);
    assert TrimEnd(Python, []) == [];
  }

  /** Stripping whitespace alone leaves nothing. */
  lemma {:induction false} AllSpace(s: string)
    requires forall i :: 0 <= i < |s| ==> IsPySpace(s[i])
    ensures TrimStart(Python, s) == []
    decreases |s|
  {
    if s != [] {
      assert forall i :: 0 <= i < |s[1..]| ==> s[1..][i] == s[i + 1];
      AllSpace(s[1..]);
    }
  }
}
