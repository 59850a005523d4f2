/** String helpers shared by the Python back end and the TypeScript front end:
    whitespace stripping, case mapping, substring search, single-character
    replacement, joining, and the decimal rendering of integers (Python's
    `str(int)`, zero-padded fields of `strftime`). */
module Text {
  import opened Wrappers

  /** The two runtimes whose whitespace rules differ (Python's `str.strip`
      against JavaScript's `String.prototype.trim`). */
  datatype Runtime = Python | JavaScript

  /** Python's `str.isspace` characters (`str.strip()` with no argument). */
  predicate IsPySpace(c: char)
  {
    c == ' ' || '\t' <= c <= '\r' || '\U{1C}' <= c <= '\U{1F}' || c == '\U{85}' || c == '\U{A0}'
    || c == '\U{1680}' || '\U{2000}' <= c <= '\U{200A}' || c == '\U{2028}' || c == '\U{2029}'
    || c == '\U{202F}' || c == '\U{205F}' || c == '\U{3000}'
  }

  /** JavaScript's WhiteSpace and LineTerminator characters (`trim()`). */
  predicate IsJsSpace(c: char)
  {
    c == ' ' || '\t' <= c <= '\r' || c == '\U{A0}' || c == '\U{FEFF}'
    || c == '\U{1680}' || '\U{2000}' <= c <= '\U{200A}' || c == '\U{2028}' || c == '\U{2029}'
    || c == '\U{202F}' || c == '\U{205F}' || c == '\U{3000}'
  }

  predicate IsSpace(rt: Runtime, c: char)
  {
    match rt
    case Python => IsPySpace(c)
    case JavaScript => IsJsSpace(c)
  }

  /** Drops the leading whitespace: what is left is a suffix of `s` that does
      not start with whitespace (`TrimStartSuffix`), and everything dropped
      was whitespace (`TrimStartDropped`). */
  function TrimStart(rt: Runtime, s: string): (r: string)
    ensures |r| <= |s|
    ensures r == [] || !IsSpace(rt, r[0])
  {
    if s != [] && IsSpace(rt, s[0]) then TrimStart(rt, s[1..]) else s
  }

  /** Drops the trailing whitespace: what is left is a prefix of `s` that does
      not end with whitespace (`TrimEndPrefix`), and everything dropped was
      whitespace (`TrimEndDropped`). */
  function TrimEnd(rt: Runtime, s: string): (r: string)
    ensures |r| <= |s|
    ensures r == [] || !IsSpace(rt, r[|r| - 1])
  {
    if s != [] && IsSpace(rt, s[|s| - 1]) then TrimEnd(rt, s[..|s| - 1]) else s
  }

  /** What `TrimStart` leaves is a suffix of its input. */
  lemma {:induction false} TrimStartSuffix(rt: Runtime, s: string)
    ensures TrimStart(rt, s) == s[|s| - |TrimStart(rt, s)|..]
    decreases |s|
  {
    if s != [] && IsSpace(rt, s[0]) {
      TrimStartSuffix(rt, s[1..]);
      assert s[1..][|s| - 1 - |TrimStart(rt, s)|..] == s[|s| - |TrimStart(rt, s)|..];
    }
  }

  /** Everything `TrimStart` drops is whitespace. */
  lemma {:induction false} TrimStartDropped(rt: Runtime, s: string)
    ensures forall i :: 0 <= i < |s| - |TrimStart(rt, s)| ==> IsSpace(rt, s[i])
    decreases |s|
  {
    if s != [] && IsSpace(rt, s[0]) {
      TrimStartDropped(rt, s[1..]);
      forall i | 0 <= i < |s| - |TrimStart(rt, s)|
        ensures IsSpace(rt, s[i])
      {
        if i > 0 {
          assert s[i] == s[1..][i - 1];
        }
      }
    }
  }

  /** Everything `TrimEnd` drops is whitespace. */
  lemma {:induction false} TrimEndDropped(rt: Runtime, s: string)
    ensures forall i :: |TrimEnd(rt, s)| <= i < |s| ==> IsSpace(rt, s[i])
    decreases |s|
  {
    if s != [] && IsSpace(rt, s[|s| - 1]) {
      TrimEndDropped(rt, s[..|s| - 1]);
      forall i | |TrimEnd(rt, s)| <= i < |s|
        ensures IsSpace(rt, s[i])
      {
        if i < |s| - 1 {
          assert s[i] == s[..|s| - 1][i];
        }
      }
    }
  }

  /** What `TrimEnd` leaves is a prefix of its input. */
  lemma {:induction false} TrimEndPrefix(rt: Runtime, s: string)
    ensures TrimEnd(rt, s) == s[..|TrimEnd(rt, s)|]
    decreases |s|
  {
    if s != [] && IsSpace(rt, s[|s| - 1]) {
      TrimEndPrefix(rt, s[..|s| - 1]);
      assert s[..|s| - 1][..|TrimEnd(rt, s)|] == s[..|TrimEnd(rt, s)|];
    }
  }

  /** Python's `s.strip()`. */
  function Strip(s: string): string
  {
    TrimEnd(Python, TrimStart(Python, s))
  }

  /** JavaScript's `s.trim()`. */
  function Trim(s: string): string
  {
    TrimEnd(JavaScript, TrimStart(JavaScript, s))
  }

  /** A string with no whitespace at either end is left alone by stripping. */
  lemma StripNoop(s: string)
    requires s == [] || (!IsPySpace(s[0]) && !IsPySpace(s[|s| - 1]))
    ensures Strip(s) == s
  {
    assert TrimStart(Python, s) == s;
    assert TrimEnd(Python, s) == s;
  }

  /** A stripped string has no whitespace at either end. */
  lemma StripEnds(s: string)
    ensures var r := Strip(s); r == [] || (!IsPySpace(r[0]) && !IsPySpace(r[|r| - 1]))
  {
    var t := TrimStart(Python, s);
    var r := TrimEnd(Python, t);
    TrimEndPrefix(Python, t);
    assert r != [] ==> r[0] == t[0];
  }

  /** Stripping twice is stripping once. */
  lemma StripIdempotent(s: string)
    ensures Strip(Strip(s)) == Strip(s)
  {
    StripEnds(s);
    StripNoop(Strip(s));
  }

  /** `trim()` yields "" exactly when every character is whitespace. */
  lemma {:induction false} TrimEmpty(s: string)
    ensures Trim(s) == "" <==> forall i :: 0 <= i < |s| ==> IsJsSpace(s[i])
  {
    var t := TrimStart(JavaScript, s);
    var r := TrimEnd(JavaScript, t);
    TrimStartSuffix(JavaScript, s);
    TrimEndPrefix(JavaScript, t);
    TrimStartDropped(JavaScript, s);
    TrimEndDropped(JavaScript, t);
    assert t != [] ==> t[0] == s[|s| - |t|];
    if k :| 0 <= k < |s| && !IsJsSpace(s[k]) {
      assert t[k - (|s| - |t|)] == s[k];
      assert |r| > k - (|s| - |t|);
    }
  }

  /** Upper case of one character as Python's `str.upper` does it for ASCII
      and Latin-1 letters (a-z, à-þ except ÷). */
  function UpperChar(c: char): char
  {
    if 'a' <= c <= 'z' || ('\U{E0}' <= c <= '\U{FE}' && c != '\U{F7}') then (c as int - 32) as char
    else c
  }

  /** Lower case of one character as JavaScript's `toLowerCase` does it for
      ASCII and Latin-1 letters (A-Z, À-Þ except ×). */
  function LowerChar(c: char): char
  {
    if 'A' <= c <= 'Z' || ('\U{C0}' <= c <= '\U{DE}' && c != '\U{D7}') then (c as int + 32) as char
    else c
  }

  function Upper(s: string): (r: string)
    ensures |r| == |s|
  {
    seq(|s|, i requires 0 <= i < |s| => UpperChar(s[i]))
  }

  function Lower(s: string): (r: string)
    ensures |r| == |s|
  {
    seq(|s|, i requires 0 <= i < |s| => LowerChar(s[i]))
  }

  /** Upper-casing twice is upper-casing once. */
  lemma UpperIdempotent(s: string)
    ensures Upper(Upper(s)) == Upper(s)
  {
  }

  /** A string that is already upper case (every character is its own upper
      case) is left alone. */
  lemma UpperNoop(s: string)
    requires forall i :: 0 <= i < |s| ==> UpperChar(s[i]) == s[i]
    ensures Upper(s) == s
  {
  }

  /** `t` occurs in `s` starting at position `i`. */
  predicate OccursAt(s: string, t: string, i: nat)
  {
    i + |t| <= |s| && s[i..i + |t|] == t
  }

  /** JavaScript's `s.includes(t)`: `t` occurs in `s` at some position. */
  function Contains(s: string, t: string): (r: bool)
    ensures r <==> exists i: nat :: OccursAt(s, t, i)
    decreases |s|
  {
    if OccursAt(s, t, 0) then
      true
    else if |s| <= |t| then
      assert forall i: nat :: OccursAt(s, t, i) ==> i == 0;
      false
    else
      var rest := Contains(s[1..], t);
      assert forall i: nat :: OccursAt(s, t, i + 1) <==> OccursAt(s[1..], t, i) by {
        forall i: nat ensures OccursAt(s, t, i + 1) <==> OccursAt(s[1..], t, i) {
          if i + 1 + |t| <= |s| {
            var a, b := s[i + 1..i + 1 + |t|], s[1..][i..i + |t|];
            assert forall k :: 0 <= k < |a| ==> a[k] == b[k];
            assert a == b;
          }
        }
      }
      assert (exists i: nat :: OccursAt(s, t, i)) ==> exists i: nat :: OccursAt(s[1..], t, i) by {
        if j: nat :| OccursAt(s, t, j) {
          assert j != 0;
          assert OccursAt(s[1..], t, j - 1);
        }
      }
      assert rest ==> exists i: nat :: OccursAt(s, t, i) by {
        if j: nat :| OccursAt(s[1..], t, j) {
          assert OccursAt(s, t, j + 1);
        }
      }
      rest
  }

  /** Python's `s.replace(c, "")` for a single character `c`. */
  function RemoveChar(s: string, c: char): (r: string)
    ensures |r| <= |s|
    ensures forall i :: 0 <= i < |r| ==> r[i] != c
    ensures forall x :: x != c ==> (x in r <==> x in s)
  {
    if s == [] then [] else (if s[0] == c then [] else [s[0]]) + RemoveChar(s[1..], c)
  }

  /** Removing a character that does not occur changes nothing. */
  lemma {:induction false} RemoveCharAbsent(s: string, c: char)
    requires c !in s
    ensures RemoveChar(s, c) == s
  {
    if s != [] {
      assert c !in s[1..];
      RemoveCharAbsent(s[1..], c);
    }
  }

  /** Every underscore of `s` stands between two digits, the one place
      Python's numeric literals allow it (PEP 515). */
  predicate UnderscoresBetweenDigits(s: string)
  {
    GroupedFrom(s, 0)
  }

  /** Every underscore of `s` from position `k` on stands between two digits. */
  predicate GroupedFrom(s: string, k: nat)
    decreases |s| - k
  {
    k >= |s|
    || ((s[k] == '_' ==> 0 < k < |s| - 1 && IsDigit(s[k - 1]) && IsDigit(s[k + 1])) && GroupedFrom(s, k + 1))
  }

  /** A text whose only non-digit from `k` on is an underscore between two
      digits at `u` passes the check from `k` on. */
  lemma {:induction false} GroupedFromDigits(s: string, k: nat, u: nat)
    requires 0 < u < |s| - 1 && IsDigit(s[u - 1]) && IsDigit(s[u + 1])
    requires forall i :: k <= i < |s| && i != u ==> IsDigit(s[i])
    ensures GroupedFrom(s, k)
    decreases |s| - k
  {
    if k < |s| {
      GroupedFromDigits(s, k + 1, u);
    }
  }

  /** The text `float()` and `int()` go on to read: the underscores dropped
      when each stands between two digits, and the ValueError (None) when
      one does not. */
  function Ungrouped(s: string): (r: Option<string>)
    ensures r.None? <==> '_' in s && !UnderscoresBetweenDigits(s)
    ensures r.Some? ==> '_' !in r.value
    ensures '_' !in s ==> r == Some(s)
  {
    if '_' !in s then Some(s)
    else if UnderscoresBetweenDigits(s) then Some(RemoveChar(s, '_'))
    else None
  }

  lemma DigitsConcat(a: string, b: string)
    requires IsDigits(a) && IsDigits(b)
    ensures IsDigits(a + b)
  {
  }

  lemma DigitsNoUnderscore(a: string)
    requires IsDigits(a)
    ensures '_' !in a
  {
  }

  /** One underscore between two runs of digits is dropped. */
  lemma UngroupedDigits(a: string, b: string)
    requires |a| > 0 && |b| > 0 && IsDigits(a) && IsDigits(b)
    ensures Ungrouped(a + "_" + b) == Some(a + b)
  {
    var s := a + "_" + b;
    forall i | 0 <= i < |s| && i != |a|
      ensures IsDigit(s[i])
    {
      if i < |a| {
        assert s[i] == a[i];
      } else {
        assert s[i] == b[i - |a| - 1];
      }
    }
    assert s[|a| - 1] == a[|a| - 1] && s[|a| + 1] == b[0];
    GroupedFromDigits(s, 0, |a|);
    assert s[|a|] == '_';
    DigitsNoUnderscore(a);
    DigitsNoUnderscore(b);
    RemoveCharAppend(a + "_", b, '_');
    RemoveCharAppend(a, "_", '_');
    RemoveCharAbsent(a, '_');
    RemoveCharAbsent(b, '_');
    assert RemoveChar("_", '_') == [];
    assert RemoveChar(a + "_", '_') == a;
    assert '_' in s;
    assert Ungrouped(s) == Some(RemoveChar(s, '_'));
  }

  /** Python's `s.replace(a, b)` for single characters `a` and `b`. */
  function ReplaceChar(s: string, a: char, b: char): (r: string)
    ensures |r| == |s|
  {
    seq(|s|, i requires 0 <= i < |s| => if s[i] == a then b else s[i])
  }

  lemma {:induction false} RemoveCharAppend(s: string, t: string, c: char)
    ensures RemoveChar(s + t, c) == RemoveChar(s, c) + RemoveChar(t, c)
    decreases |s|
  {
    if s == [] {
      assert s + t == t;
    } else {
      assert (s + t)[0] == s[0] && (s + t)[1..] == s[1..] + t;
      RemoveCharAppend(s[1..], t, c);
    }
  }

  lemma ReplaceCharAbsent(s: string, a: char, b: char)
    requires a !in s
    ensures ReplaceChar(s, a, b) == s
  {
  }

  lemma ReplaceCharAppend(s: string, t: string, a: char, b: char)
    ensures ReplaceChar(s + t, a, b) == ReplaceChar(s, a, b) + ReplaceChar(t, a, b)
  {
  }

  /** A leading space is dropped by stripping. */
  lemma StripLeadingSpace(t: string)
    ensures Strip(" " + t) == Strip(t)
  {
    assert (" " + t)[1..] == t;
  }

  /** Python's `sep.join(parts)`. */
  function Join(parts: seq<string>, sep: string): string
  {
    if |parts| == 0 then "" else if |parts| == 1 then parts[0] else parts[0] + sep + Join(parts[1..], sep)
  }

  /** Removing the separator from pieces that do not contain it
      concatenates them. */
  lemma {:induction false} RemoveJoined(parts: seq<string>, c: char)
    requires forall i :: 0 <= i < |parts| ==> c !in parts[i]
    ensures RemoveChar(Join(parts, [c]), c) == Join(parts, "")
  {
    if |parts| == 1 {
      RemoveCharAbsent(parts[0], c);
    } else if |parts| > 1 {
      var rest := parts[1..];
      RemoveJoined(rest, c);
      RemoveCharAppend(parts[0] + [c], Join(rest, [c]), c);
      RemoveCharAppend(parts[0], [c], c);
      RemoveCharAbsent(parts[0], c);
      assert RemoveChar([c], c) == [];
      assert Join(parts, "") == parts[0] + "" + Join(rest, "");
    }
  }

  /** Python's `s.split(c)` for a single character `c`: the maximal pieces
      between occurrences of `c`, which joined with `c` give back `s`. */
  function Split(s: string, c: char): (parts: seq<string>)
    ensures |parts| >= 1
    ensures forall i :: 0 <= i < |parts| ==> c !in parts[i]
    ensures Join(parts, [c]) == s
    decreases |s|
  {
    if s == [] then
      [""]
    else
      var rest := Split(s[1..], c);
      if s[0] == c then
        assert [c] + Join(rest, [c]) == s;
        [""] + rest
      else
        var parts := [[s[0]] + rest[0]] + rest[1..];
        assert |rest| > 1 ==> Join(parts, [c]) == ([s[0]] + rest[0]) + [c] + Join(rest[1..], [c]);
        assert |rest| > 1 ==> ([s[0]] + rest[0]) + [c] + Join(rest[1..], [c]) == [s[0]] + (rest[0] + [c] + Join(rest[1..], [c]));
        assert [s[0]] + Join(rest, [c]) == s;
        parts
  }

  /** A string without the separator is a single piece. */
  lemma {:induction false} SplitNone(s: string, c: char)
    requires c !in s
    ensures Split(s, c) == [s]
    decreases |s|
  {
    if s != [] {
      assert c !in s[1..];
      SplitNone(s[1..], c);
    }
  }

  /** A piece without the separator, then the separator, splits off that piece. */
  lemma {:induction false} SplitPiece(a: string, c: char, t: string)
    requires c !in a
    ensures Split(a + [c] + t, c) == [a] + Split(t, c)
    decreases |a|
  {
    var s := a + [c] + t;
    if a == [] {
      assert s[0] == c && s[1..] == t;
    } else {
      assert s[0] == a[0] && s[1..] == a[1..] + [c] + t;
      assert c !in a[1..];
      SplitPiece(a[1..], c, t);
      assert [a[0]] + a[1..] == a;
    }
  }

  predicate IsDigit(c: char)
  {
    '0' <= c <= '9'
  }

  predicate IsDigits(s: string)
  {
    forall i :: 0 <= i < |s| ==> IsDigit(s[i])
  }

  function DigitChar(d: nat): (c: char)
    requires d < 10
    ensures IsDigit(c)
  {
    ('0' as int + d) as char
  }

  function DigitValue(c: char): (d: nat)
    requires IsDigit(c)
    ensures d < 10 && DigitChar(d) == c
  {
    c as int - '0' as int
  }

  /** The number a string of decimal digits denotes (most significant first). */
  function DigitsValue(s: string): nat
    requires IsDigits(s)
  {
    if s == [] then 0 else DigitsValue(s[..|s| - 1]) * 10 + DigitValue(s[|s| - 1])
  }

  /** Python's `str(n)` for a natural number: its shortest decimal digits,
      which read back as `n`. */
  function NatToString(n: nat): (r: string)
    ensures |r| >= 1 && IsDigits(r)
    ensures DigitsValue(r) == n
    ensures n >= 10 ==> r[0] != '0'
    ensures n < 10 <==> |r| == 1
    decreases n
  {
    if n < 10 then
      [DigitChar(n)]
    else
      var prefix := NatToString(n / 10);
      var r := prefix + [DigitChar(n % 10)];
      assert r[..|r| - 1] == prefix;
      r
  }

  /** Python's `str(i)` for any integer. */
  function IntToString(i: int): (r: string)
    ensures |r| >= 1
    ensures i >= 0 ==> r == NatToString(i)
    ensures i < 0 ==> r == "-" + NatToString(-i)
  {
    if i < 0 then "-" + NatToString(-i) else NatToString(i)
  }

  lemma IntTextNoUnderscore(i: int)
    ensures '_' !in IntToString(i)
  {
    DigitsNoUnderscore(NatToString(if i < 0 then -i else i));
  }

  /** Different numbers have different renderings. */
  lemma NatToStringInjective(a: nat, b: nat)
    requires NatToString(a) == NatToString(b)
    ensures a == b
  {
    assert DigitsValue(NatToString(a)) == a;
  }

  /** Two digit strings of the same length with the same value are equal. */
  lemma {:induction false} DigitsValueInjective(a: string, b: string)
    requires IsDigits(a) && IsDigits(b) && |a| == |b| && DigitsValue(a) == DigitsValue(b)
    ensures a == b
  {
    if a != [] {
      var pa, pb := a[..|a| - 1], b[..|b| - 1];
      var da, db := DigitValue(a[|a| - 1]), DigitValue(b[|b| - 1]);
      assert DigitsValue(a) == DigitsValue(pa) * 10 + da;
      assert DigitsValue(b) == DigitsValue(pb) * 10 + db;
      LastDigitUnique(DigitsValue(pa), DigitsValue(pb), da, db);
      assert a[|a| - 1] == b[|b| - 1];
      DigitsValueInjective(pa, pb);
      assert a == pa + [a[|a| - 1]] && b == pb + [b[|b| - 1]];
    }
  }

  /** A number written with one more decimal digit determines both the
      digit and the number before it. */
  lemma LastDigitUnique(x: int, y: int, dx: int, dy: int)
    requires 0 <= dx < 10 && 0 <= dy < 10 && x * 10 + dx == y * 10 + dy
    ensures x == y && dx == dy
  {
  }

  /** Leading zeros do not change the value of a digit string. */
  lemma {:induction false} DigitsValueLeadingZeros(z: string, s: string)
    requires IsDigits(s) && forall i :: 0 <= i < |z| ==> z[i] == '0'
    ensures IsDigits(z + s) && DigitsValue(z + s) == DigitsValue(s)
  {
    if s == [] {
      assert z + s == z;
      ZerosValue(z);
    } else {
      var p := s[..|s| - 1];
      assert (z + s)[..|z + s| - 1] == z + p;
      DigitsValueLeadingZeros(z, p);
    }
  }

  lemma {:induction false} ZerosValue(z: string)
    requires forall i :: 0 <= i < |z| ==> z[i] == '0'
    ensures IsDigits(z) && DigitsValue(z) == 0
  {
    if z != [] {
      ZerosValue(z[..|z| - 1]);
    }
  }

  function Zeros(k: nat): (z: string)
    ensures |z| == k && forall i :: 0 <= i < k ==> z[i] == '0'
  {
    seq(k, i => '0')
  }

  /** The `width`-digit zero-padded rendering of `n` (as `%02d`, `%04d`
      do), which reads back as `n`. */
  function ZeroPad(n: nat, width: nat): (r: string)
    ensures IsDigits(r) && DigitsValue(r) == n
    ensures |r| == if |NatToString(n)| >= width then |NatToString(n)| else width
  {
    var s := NatToString(n);
    if |s| >= width then s
    else
      DigitsValueLeadingZeros(Zeros(width - |s|), s);
      Zeros(width - |s|) + s
  }

  /** A number whose rendering fits the width is rendered in exactly `width`
      digits, so the field can be cut out of a fixed-layout string. */
  lemma {:induction false} ZeroPadWidth(n: nat, width: nat)
    requires n < Pow10(width) && width >= 1
    ensures |ZeroPad(n, width)| == width
  {
    NatToStringLength(n, width);
  }

  function Pow10(k: nat): (p: nat)
    ensures p >= 1
  {
    if k == 0 then 1 else 10 * Pow10(k - 1)
  }

  lemma {:induction false} NatToStringLength(n: nat, width: nat)
    requires n < Pow10(width) && width >= 1
    ensures |NatToString(n)| <= width
    decreases width
  {
    if n >= 10 {
      assert width == 1 ==> Pow10(width) == 10;
      assert n / 10 < Pow10(width - 1);
      NatToStringLength(n / 10, width - 1);
    }
  }
}
