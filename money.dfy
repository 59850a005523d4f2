/** Exact decimal amounts. Money is kept as `units × 10^-scale` rather than
    as a binary float; this module reads Python float literals into such
    amounts, renders an amount the way `str(float)` does for ordinary
    magnitudes, and truncates toward zero as `int(float)` does. */
module Money {
  import opened Text
  import opened Wrappers

  /** The number `units × 10^-scale`. */
  datatype Decimal = Decimal(units: int, scale: nat)

  /** The canonical representative: no trailing zero digit after the point. */
  predicate Normal(d: Decimal)
  {
    d.scale == 0 || d.units % 10 != 0
  }

  /** Two representations of the same number. */
  predicate SameValue(a: Decimal, b: Decimal)
  {
    a.units * Pow10(b.scale) == b.units * Pow10(a.scale)
  }

  const Zero := Decimal(0, 0)

  /** Python truthiness of an amount: only zero is falsy. */
  predicate IsZero(d: Decimal)
  {
    d.units == 0
  }

  lemma ShiftValue(u: int, s: nat, k: nat)
    ensures SameValue(Decimal(u * Pow10(k), s + k), Decimal(u, s))
  {
    Pow10Add(s, k);
    MulRearrange(u, Pow10(s), Pow10(k));
  }

  lemma MulRearrange(u: int, a: int, b: int)
    ensures (u * b) * a == u * (a * b)
  {
  }

  lemma {:induction false} Pow10Add(a: nat, b: nat)
    ensures Pow10(a + b) == Pow10(a) * Pow10(b)
    decreases b
  {
    if b > 0 {
      Pow10Add(a, b - 1);
      assert Pow10(a + b) == 10 * Pow10(a + b - 1);
      assert Pow10(a) * Pow10(b) == Pow10(a) * (10 * Pow10(b - 1));
    }
  }

  /** Drops trailing zero digits after the point. */
  function Normalise(d: Decimal): (r: Decimal)
    ensures Normal(r) && r.scale <= d.scale
    ensures SameValue(r, d)
    decreases d.scale
  {
    if d.scale > 0 && d.units % 10 == 0 then
      var smaller := Decimal(d.units / 10, d.scale - 1);
      var r := Normalise(smaller);
      assert d.units == smaller.units * 10;
      ShiftValue(smaller.units, smaller.scale, 1);
      SameValueTransitive(r, smaller, d);
      r
    else
      d
  }

  lemma SameValueTransitive(a: Decimal, b: Decimal, c: Decimal)
    requires SameValue(a, b) && SameValue(b, c)
    ensures SameValue(a, c)
  {
    var pa, pb, pc := Pow10(a.scale), Pow10(b.scale), Pow10(c.scale);
    assert a.units * pb == b.units * pa;
    assert b.units * pc == c.units * pb;
    assert a.units * pc * pb == b.units * pa * pc by {
      assert a.units * pc * pb == (a.units * pb) * pc;
    }
    assert c.units * pa * pb == b.units * pc * pa by {
      assert c.units * pa * pb == (c.units * pb) * pa;
    }
    assert b.units * pa * pc == b.units * pc * pa;
    MulCancel(a.units * pc, c.units * pa, pb);
  }

  lemma MulCancel(x: int, y: int, p: int)
    requires p > 0 && x * p == y * p
    ensures x == y
  {
    assert (x - y) * p == x * p - y * p;
    MulSign(x - y, p);
  }

  lemma MulSign(a: int, p: int)
    requires p > 0
    ensures a > 0 ==> a * p > 0
    ensures a < 0 ==> a * p < 0
  {
  }

  /** Quotient and remainder of a natural number by a positive divisor. */
  lemma DivMod(a: int, p: int)
    requires a >= 0 && p > 0
    ensures a == (a / p) * p + a % p && 0 <= a % p < p && a / p >= 0
    ensures (a / p) * p <= a < (a / p + 1) * p
    ensures a / p == 0 <==> a < p
  {
  }

  /** A normal amount is zero exactly when it is the canonical zero. */
  lemma NormalZero(d: Decimal)
    requires Normal(d)
    ensures IsZero(d) <==> d == Zero
  {
  }

  /** The first position of a character of `stop` in `s`, or `|s|`: no
      character before it is in `stop` (`FirstOfFirst`). */
  function FirstOf(s: string, stop: set<char>): (i: nat)
    ensures i <= |s|
    ensures i < |s| ==> s[i] in stop
  {
    if s == [] || s[0] in stop then 0 else 1 + FirstOf(s[1..], stop)
  }

  /** No character before `FirstOf` is in `stop`. */
  lemma {:induction false} FirstOfFirst(s: string, stop: set<char>)
    ensures forall j :: 0 <= j < FirstOf(s, stop) ==> s[j] !in stop
    decreases |s|
  {
    if s != [] && s[0] !in stop {
      FirstOfFirst(s[1..], stop);
      forall j | 0 <= j < FirstOf(s, stop)
        ensures s[j] !in stop
      {
        if j > 0 {
          assert s[j] == s[1..][j - 1];
        }
      }
    }
  }

  /** The mantissa of a float literal: digits with at most one point and at
      least one digit (`12`, `12.`, `.5`, `12.50`), as a non-negative amount. */
  function Mantissa(t: string): (r: Option<Decimal>)
    ensures r.Some? ==> r.value.units >= 0
  {
    var dot := FirstOf(t, {'.'});
    PointedDigits(t[..dot], if dot < |t| then t[dot + 1..] else "")
  }

  /** The amount written `ip.fp`, when both parts are digits and not both empty. */
  function PointedDigits(ip: string, fp: string): (r: Option<Decimal>)
    ensures r.Some? ==> r.value.units >= 0
  {
    if IsDigits(ip) && IsDigits(fp) && (|ip| > 0 || |fp| > 0) then
      DigitsConcat(ip, fp);
      Some(Decimal(DigitsValue(ip + fp), |fp|))
    else
      None
  }

  /** The exponent of a float literal: an optional sign and at least one digit. */
  function Exponent(t: string): Option<int>
  {
    var neg := |t| > 0 && t[0] == '-';
    var ds := if |t| > 0 && (t[0] == '+' || t[0] == '-') then t[1..] else t;
    if |ds| > 0 && IsDigits(ds) then Some(if neg then -(DigitsValue(ds) as int) else DigitsValue(ds)) else None
  }

  /** `m × 10^x`. */
  function ScaleBy(m: Decimal, x: int): Decimal
  {
    if x >= m.scale then Decimal(m.units * Pow10(x - m.scale), 0) else Decimal(m.units, m.scale - x)
  }

  function Negate(d: Decimal): Decimal
  {
    Decimal(-d.units, d.scale)
  }

  /** Python's `float(s)` on an already stripped string, read exactly:
      underscores are allowed only between two digits and then dropped;
      what remains is an optional sign, a mantissa and an optional `e`/`E`
      exponent; anything else is the ValueError (None). */
  function FloatLiteral(s: string): (r: Option<Decimal>)
    ensures r.Some? ==> Normal(r.value)
    ensures '_' in s && !UnderscoresBetweenDigits(s) ==> r.None?
  {
    match Ungrouped(s)
    case None => None
    case Some(t) => Literal(t)
  }

  /** `float()` of a stripped text without underscores. */
  function Literal(s: string): (r: Option<Decimal>)
    ensures r.Some? ==> Normal(r.value)
  {
    var neg := |s| > 0 && s[0] == '-';
    var u := UnsignedLiteral(if |s| > 0 && (s[0] == '+' || s[0] == '-') then s[1..] else s);
    if u.Some? then Some(Normalise(if neg then Negate(u.value) else u.value)) else None
  }

  /** Digits grouped by an underscore read as the digits run together:
      `float("1_000")` is `float("1000")`. */
  lemma GroupedLiteral(a: string, b: string)
    requires |a| > 0 && |b| > 0 && IsDigits(a) && IsDigits(b)
    ensures FloatLiteral(a + "_" + b) == FloatLiteral(a + b)
  {
    UngroupedDigits(a, b);
    assert '_' !in a + b by {
      assert forall i :: 0 <= i < |a + b| ==> IsDigit((a + b)[i]);
    }
  }

  /** A float literal after its sign: a mantissa and an optional exponent. */
  function UnsignedLiteral(body: string): Option<Decimal>
  {
    var e := FirstOf(body, {'e', 'E'});
    var m := Mantissa(body[..e]);
    var exp := if e < |body| then Exponent(body[e + 1..]) else Some(0);
    if m.Some? && exp.Some? then Some(ScaleBy(m.value, exp.value)) else None
  }

  lemma ScaleByZero(m: Decimal)
    ensures ScaleBy(m, 0) == m
  {
  }

  /** `str(float(d))` for an amount of ordinary magnitude: optional minus,
      the integer digits, a point, and the fraction digits (`.0` for a
      whole number). */
  function DecimalText(d: Decimal): string
  {
    (if d.units < 0 then "-" else "") + (IntPartText(d) + "." + FracText(d))
  }

  /** The rendering has no whitespace at either end. */
  lemma DecimalTextStripped(d: Decimal)
    ensures Strip(DecimalText(d)) == DecimalText(d)
  {
    var ip, fp := IntPartText(d), FracText(d);
    var body := ip + "." + fp;
    var s := DecimalText(d);
    assert body[0] == ip[0] && body[|body| - 1] == fp[|fp| - 1];
    assert s[|s| - 1] == body[|body| - 1];
    assert s[0] == '-' || s[0] == ip[0];
    StripNoop(s);
  }

  function Magnitude(d: Decimal): nat
  {
    if d.units < 0 then -d.units else d.units
  }

  function IntPartText(d: Decimal): (s: string)
    ensures |s| > 0 && IsDigits(s)
  {
    DivMod(Magnitude(d), Pow10(d.scale));
    NatToString(Magnitude(d) / Pow10(d.scale))
  }

  function FracText(d: Decimal): (s: string)
    ensures |s| > 0 && IsDigits(s)
  {
    DivMod(Magnitude(d), Pow10(d.scale));
    if d.scale == 0 then "0" else ZeroPad(Magnitude(d) % Pow10(d.scale), d.scale)
  }

  /** The digits of the rendering spell the magnitude, scaled by one more
      digit for a whole number. */
  lemma RenderedDigits(d: Decimal)
    ensures var ip, fp := IntPartText(d), FracText(d);
      DigitsValue(ip) * Pow10(|fp|) + DigitsValue(fp) == (if d.scale == 0 then Magnitude(d) * 10 else Magnitude(d))
      && |fp| == (if d.scale == 0 then 1 else d.scale)
  {
    var a, p := Magnitude(d), Pow10(d.scale);
    DivMod(a, p);
    if d.scale > 0 {
      ZeroPadWidth(a % p, d.scale);
    } else {
      assert p == 1 && a / p == a;
    }
  }

  lemma {:induction false} DigitsNoStop(s: string, stop: set<char>)
    requires IsDigits(s) && forall c :: c in stop ==> !IsDigit(c)
    ensures FirstOf(s, stop) == |s|
  {
    if s != [] {
      DigitsNoStop(s[1..], stop);
    }
  }

  lemma FirstOfAppend(a: string, b: string, stop: set<char>)
    requires FirstOf(a, stop) == |a|
    ensures FirstOf(a + b, stop) == |a| + FirstOf(b, stop)
    decreases |a|
  {
    if a != [] {
      assert (a + b)[1..] == a[1..] + b;
      FirstOfAppend(a[1..], b, stop);
    } else {
      assert a + b == b;
    }
  }

  lemma {:induction false} DigitsValueAppend(a: string, b: string)
    requires IsDigits(a) && IsDigits(b)
    ensures IsDigits(a + b) && DigitsValue(a + b) == DigitsValue(a) * Pow10(|b|) + DigitsValue(b)
    decreases |b|
  {
    if b == [] {
      assert a + b == a;
    } else {
      var b' := b[..|b| - 1];
      assert (a + b)[..|a + b| - 1] == a + b';
      DigitsValueAppend(a, b');
      var last := DigitValue(b[|b| - 1]);
      assert (a + b)[|a + b| - 1] == b[|b| - 1];
      assert DigitsValue(a + b) == DigitsValue(a + b') * 10 + last;
      assert DigitsValue(b) == DigitsValue(b') * 10 + last;
      assert Pow10(|b|) == Pow10(|b'|) * 10;
      ShiftStep(DigitsValue(a), Pow10(|b'|), DigitsValue(b'), last);
    }
  }

  /** Appending one digit to `va * p + vb` shifts both parts by ten. */
  lemma ShiftStep(va: int, p: int, vb: int, last: int)
    ensures (va * p + vb) * 10 + last == va * (p * 10) + (vb * 10 + last)
  {
  }

  /** A literal `digits.digits` has no exponent and reads as its digits. */
  lemma PointedMantissa(ip: string, fp: string)
    requires IsDigits(ip) && IsDigits(fp) && |ip| > 0
    ensures FirstOf(ip + "." + fp, {'e', 'E'}) == |ip + "." + fp|
    ensures Mantissa(ip + "." + fp) == PointedDigits(ip, fp)
    ensures IsDigit((ip + "." + fp)[0])
  {
    var body := ip + "." + fp;
    DigitsNoStop(ip, {'e', 'E'});
    DigitsNoStop(fp, {'e', 'E'});
    DigitsNoStop(ip, {'.'});
    FirstOfAppend(ip, "." + fp, {'e', 'E'});
    FirstOfAppend(ip + ".", fp, {'e', 'E'});
    assert (ip + ".") + fp == body;
    FirstOfAppend(ip, "." + fp, {'.'});
    assert ip + ("." + fp) == body;
    assert FirstOf("." + fp, {'.'}) == 0;
    assert FirstOf(body, {'.'}) == |ip|;
    assert body[..|ip|] == ip;
    assert body[|ip| + 1..] == fp;
    assert body[0] == ip[0];
  }

  /** A mantissa without exponent reads as itself. */
  lemma PlainLiteral(body: string, m: Decimal)
    requires FirstOf(body, {'e', 'E'}) == |body| && Mantissa(body) == Some(m)
    ensures UnsignedLiteral(body) == Some(m)
  {
    assert body[..|body|] == body;
    ScaleByZero(m);
  }

  /** An optional minus before an unsigned literal negates it. */
  lemma SignedLiteral(body: string, neg: bool, m: Decimal)
    requires |body| > 0 && IsDigit(body[0])
    requires UnsignedLiteral(body) == Some(m)
    ensures FloatLiteral((if neg then "-" else "") + body) == Some(Normalise(if neg then Negate(m) else m))
  {
    if neg {
      MinusLiteral(body, m, "-" + body);
    } else {
      assert "" + body == body;
      UnsignedIsLiteral(body, m);
    }
  }

  lemma MinusLiteral(body: string, m: Decimal, s: string)
    requires UnsignedLiteral(body) == Some(m) && s == "-" + body
    ensures FloatLiteral(s) == Some(Normalise(Negate(m)))
  {
    UnsignedNoUnderscore(body);
    assert '_' !in s;
    assert s[0] == '-' && s[1..] == body;
  }

  /** A literal `digits.digits` reads as those digits with the point
      placed `|fp|` digits from the right. */
  lemma PointedLiteral(ip: string, fp: string, body: string, m: Decimal)
    requires IsDigits(ip) && IsDigits(fp) && |ip| > 0 && body == ip + "." + fp
    requires PointedDigits(ip, fp) == Some(m)
    ensures FloatLiteral(body) == Some(Normalise(m))
  {
    PointedUnsigned(ip, fp, body);
    UnsignedIsLiteral(body, m);
  }

  lemma PointedUnsigned(ip: string, fp: string, body: string)
    requires IsDigits(ip) && IsDigits(fp) && |ip| > 0 && body == ip + "." + fp
    ensures IsDigits(ip + fp) && UnsignedLiteral(body) == Some(Decimal(DigitsValue(ip + fp), |fp|))
    ensures |body| > 0 && IsDigit(body[0])
  {
    DigitsConcat(ip, fp);
    var m := Decimal(DigitsValue(ip + fp), |fp|);
    PointedMantissa(ip, fp);
    PointedSome(ip, fp, m);
    PlainLiteral(body, m);
  }

  lemma PointedSome(ip: string, fp: string, m: Decimal)
    requires IsDigits(ip) && IsDigits(fp) && |ip| > 0
    requires IsDigits(ip + fp) && m == Decimal(DigitsValue(ip + fp), |fp|)
    ensures PointedDigits(ip, fp) == Some(m)
  {
  }

  /** A literal that starts with a digit has no sign. */
  lemma UnsignedIsLiteral(body: string, m: Decimal)
    requires |body| > 0 && IsDigit(body[0]) && UnsignedLiteral(body) == Some(m)
    ensures FloatLiteral(body) == Some(Normalise(m))
  {
    UnsignedNoUnderscore(body);
  }

  /** An unsigned literal holds digits, at most a point, an exponent
      letter and the exponent's sign: no underscore. */
  lemma UnsignedNoUnderscore(body: string)
    requires UnsignedLiteral(body).Some?
    ensures '_' !in body
  {
    var e := FirstOf(body, {'e', 'E'});
    var t := body[..e];
    var x := if e < |body| then body[e + 1..] else "";
    MantissaNoUnderscore(t);
    if e < |body| {
      ExponentNoUnderscore(x);
    }
    forall i | 0 <= i < |body|
      ensures body[i] != '_'
    {
      if i < e {
        assert body[i] == t[i];
      } else if i > e {
        assert body[i] == x[i - e - 1];
      }
    }
  }

  /** A mantissa is digits and at most one point. */
  lemma MantissaNoUnderscore(t: string)
    requires Mantissa(t).Some?
    ensures '_' !in t
  {
    var dot := FirstOf(t, {'.'});
    var ip, fp := t[..dot], if dot < |t| then t[dot + 1..] else "";
    assert IsDigits(ip) && IsDigits(fp);
    forall i | 0 <= i < |t|
      ensures t[i] != '_'
    {
      if i < dot {
        assert t[i] == ip[i];
      } else if i > dot {
        assert t[i] == fp[i - dot - 1];
      }
    }
  }

  /** An exponent is an optional sign and digits. */
  lemma ExponentNoUnderscore(x: string)
    requires Exponent(x).Some?
    ensures '_' !in x
  {
    var ds := if |x| > 0 && (x[0] == '+' || x[0] == '-') then x[1..] else x;
    DigitsNoUnderscore(ds);
    if ds != x {
      assert x == [x[0]] + ds;
    }
  }

  /** A literal with two points is not a float: `1.500.000` raises. */
  lemma TwoPointsRejected(a: string, b: string, c: string, body: string)
    requires IsDigits(a) && IsDigits(b) && IsDigits(c) && |a| > 0
    requires body == a + "." + b + "." + c
    ensures FloatLiteral(body).None?
  {
    DigitsNoUnderscore(a);
    DigitsNoUnderscore(b);
    DigitsNoUnderscore(c);
    assert '_' !in body;
    FirstOfAbsent(body, {'e', 'E'});
    assert body[..|body|] == body;
    var rest := "." + b + "." + c;
    assert body == a + rest;
    DigitsNoStop(a, {'.'});
    FirstOfAppend(a, rest, {'.'});
    assert FirstOf(rest, {'.'}) == 0;
    assert body[|a| + 1..] == b + "." + c;
    assert (b + "." + c)[|b|] == '.';
    assert body[0] == a[0];
  }

  /** Without an exponent, a character that is neither a digit, the point
      nor an underscore between two digits makes the literal invalid. */
  lemma StrayCharRejected(s: string, k: nat)
    requires |s| > 0 && IsDigit(s[0]) && forall i :: 0 <= i < |s| ==> s[i] != 'e' && s[i] != 'E'
    requires k < |s| && !IsDigit(s[k]) && s[k] != '.'
    requires s[k] == '_' ==> !UnderscoresBetweenDigits(s)
    ensures FloatLiteral(s).None?
  {
    if Ungrouped(s).Some? {
      assert s[k] in s;
      var t := Ungrouped(s).value;
      StrayCharKept(s, k);
      var j :| 0 <= j < |t| && t[j] == s[k];
      assert t[0] == s[0] by {
        RemoveCharAppend([s[0]], s[1..], '_');
        assert [s[0]] + s[1..] == s;
        assert RemoveChar([s[0]], '_') == [s[0]];
      }
      assert forall i :: 0 <= i < |t| ==> t[i] != 'e' && t[i] != 'E' by {
        assert 'e' !in s && 'E' !in s;
      }
      StrayCharLiteral(t, j);
    }
  }

  /** Dropping the underscores keeps every other character. */
  lemma StrayCharKept(s: string, k: nat)
    requires Ungrouped(s).Some? && k < |s| && s[k] != '_'
    ensures exists j :: 0 <= j < |Ungrouped(s).value| && Ungrouped(s).value[j] == s[k]
  {
    assert s[k] in s;
    if '_' in s {
      var r := RemoveChar(s, '_');
      assert Ungrouped(s).value == r;
      assert s[k] in r;
      var j :| 0 <= j < |r| && r[j] == s[k];
    } else {
      assert Ungrouped(s).value[k] == s[k];
    }
  }

  /** The same for a text without underscores. */
  lemma StrayCharLiteral(s: string, k: nat)
    requires |s| > 0 && IsDigit(s[0]) && forall i :: 0 <= i < |s| ==> s[i] != 'e' && s[i] != 'E'
    requires k < |s| && !IsDigit(s[k]) && s[k] != '.'
    ensures Literal(s).None?
  {
    FirstOfAbsent(s, {'e', 'E'});
    assert s[..|s|] == s;
    var dot := FirstOf(s, {'.'});
    if k < dot {
      assert s[..dot][k] == s[k];
    } else {
      assert s[dot + 1..][k - dot - 1] == s[k];
    }
  }

  /** A string none of whose characters is in `stop` is scanned to its end. */
  lemma {:induction false} FirstOfAbsent(s: string, stop: set<char>)
    requires forall i :: 0 <= i < |s| ==> s[i] !in stop
    ensures FirstOf(s, stop) == |s|
  {
    if s != [] {
      FirstOfAbsent(s[1..], stop);
    }
  }

  /** Reading back the rendering of a normal amount gives the amount:
      `float(str(x)) == x`. */
  lemma DecimalTextRoundTrip(d: Decimal)
    requires Normal(d)
    ensures FloatLiteral(DecimalText(d)) == Some(d)
  {
    var ip, fp := IntPartText(d), FracText(d);
    var m := Decimal(DigitsValue(ip + fp), |fp|);
    PointedMantissa(ip, fp);
    assert PointedDigits(ip, fp) == Some(m);
    PlainLiteral(ip + "." + fp, m);
    SignedLiteral(ip + "." + fp, d.units < 0, m);
    RenderedValue(d);
  }

  /** The digits of the rendering, read with the point, make the amount
      again once normalised. */
  lemma RenderedValue(d: Decimal)
    requires Normal(d)
    ensures var ip, fp := IntPartText(d), FracText(d);
      var m := Decimal(DigitsValue(ip + fp), |fp|);
      Normalise(if d.units < 0 then Negate(m) else m) == d
  {
    var ip, fp := IntPartText(d), FracText(d);
    DigitsValueAppend(ip, fp);
    var m := Decimal(DigitsValue(ip + fp), |fp|);
    RenderedDigits(d);
    var v := if d.units < 0 then Negate(m) else m;
    if d.scale == 0 {
      assert v == Decimal(d.units * 10, 1);
      NormaliseWhole(d.units);
    } else {
      assert v == d;
    }
  }

  lemma NormaliseWhole(u: int)
    ensures Normalise(Decimal(u * 10, 1)) == Decimal(u, 0)
  {
    assert (u * 10) % 10 == 0 && (u * 10) / 10 == u;
  }

  /** Reading back `str(i)` for an integer gives that integer. */
  lemma IntTextRoundTrip(i: int)
    ensures FloatLiteral(IntToString(i)) == Some(Decimal(i, 0))
  {
    var a: nat := if i < 0 then -i else i;
    var digits := NatToString(a);
    var s := IntToString(i);
    IntTextNoUnderscore(i);
    assert Ungrouped(s) == Some(s);
    DigitsMantissa(a);
    if i < 0 {
      assert s[1..] == digits;
      assert Literal(s) == Some(Normalise(Negate(Decimal(a, 0))));
    } else {
      assert s == digits && digits[0] != '+' && digits[0] != '-';
      assert Literal(s) == Some(Normalise(Decimal(a, 0)));
    }
  }

  /** The digits of a natural number read as that number, with no exponent
      and no fraction. */
  lemma DigitsMantissa(a: nat)
    ensures UnsignedLiteral(NatToString(a)) == Some(Decimal(a, 0))
  {
    var digits := NatToString(a);
    DigitsNoStop(digits, {'e', 'E'});
    DigitsNoStop(digits, {'.'});
    assert digits[..|digits|] == digits;
    assert digits + "" == digits;
    assert Mantissa(digits) == Some(Decimal(a, 0));
  }

  /** `int(x)` for the float `x`: truncation toward zero, so the magnitude
      of the result is the floor of the magnitude of `x`, and the sign is kept. */
  function Truncate(d: Decimal): (r: int)
    ensures var a, t := if d.units < 0 then -d.units else d.units, if d.units < 0 then -r else r;
      t >= 0 && t * Pow10(d.scale) <= a < (t + 1) * Pow10(d.scale)
    ensures d.units < 0 ==> r <= 0
  {
    var p := Pow10(d.scale);
    if d.units >= 0 then
      DivMod(d.units, p);
      d.units / p
    else
      DivMod(-d.units, p);
      -((-d.units) / p)
  }
}
