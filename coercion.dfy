/** The import's coercion helpers (trabajadores/management/commands/importar_excel.py):
    `_parse_date`, `_parse_decimal`, `_parse_int`, `_parse_bool`,
    `_map_tipo_identificacion` and the contract-type map, each applied to
    what `_get_cell_value` returned. */
module Coercion {
  import opened Wrappers
  import opened Text
  import opened Dates
  import opened Money
  import opened Cells
  import opened Trabajadores
  import opened Contratacion

  // ---------------------------------------------------------------- dates

  /** A `strptime` format with three numeric fields and one separator:
      `%Y<sep>%m<sep>%d` or `%d<sep>%m<sep>%Y`. */
  datatype Format = YearFirst(sep: char) | DayFirst(sep: char)

  /** The formats `_parse_date` tries, in order. */
  const Formats: seq<Format> := [YearFirst('-'), DayFirst('/'), DayFirst('-'), YearFirst('/')]

  /** The text `%Y` accepts: exactly four digits. */
  predicate YearText(t: string)
  {
    |t| == 4 && IsDigits(t)
  }

  /** The text `%m` accepts: `1`-`9`, `01`-`09` or `10`-`12`. */
  predicate MonthText(t: string)
  {
    (|t| == 1 && '1' <= t[0] <= '9')
    || (|t| == 2 && ((t[0] == '0' && '1' <= t[1] <= '9') || (t[0] == '1' && '0' <= t[1] <= '2')))
  }

  /** The text `%d` accepts: `1`-`9`, a space and `1`-`9`, `01`-`09`,
      `10`-`29`, `30` or `31`. */
  predicate DayText(t: string)
  {
    (|t| == 1 && '1' <= t[0] <= '9')
    || (|t| == 2 && ((t[0] == ' ' && '1' <= t[1] <= '9') || (t[0] == '0' && '1' <= t[1] <= '9')
                      || ((t[0] == '1' || t[0] == '2') && IsDigit(t[1])) || (t[0] == '3' && (t[1] == '0' || t[1] == '1'))))
  }

  /** `int(t)` for a field text: a leading space is ignored. */
  function FieldNumber(t: string): nat
    requires IsDigits(t) || (|t| > 0 && t[0] == ' ' && IsDigits(t[1..]))
  {
    if |t| > 0 && t[0] == ' ' then DigitsValue(t[1..]) else DigitsValue(t)
  }

  lemma OneDigit(t: string)
    requires |t| == 1 && IsDigit(t[0])
    ensures IsDigits(t) && DigitsValue(t) == DigitValue(t[0])
  {
    assert t[..0] == [];
  }

  lemma TwoDigits(t: string)
    requires |t| == 2 && IsDigits(t)
    ensures DigitsValue(t) == DigitValue(t[0]) * 10 + DigitValue(t[1])
  {
    var p := t[..1];
    OneDigit(p);
    assert DigitsValue(t) == DigitsValue(p) * 10 + DigitValue(t[1]);
  }

  /** `%m` denotes a month number. */
  lemma MonthRange(t: string)
    requires MonthText(t)
    ensures IsDigits(t) && 1 <= FieldNumber(t) <= 12
  {
    if |t| == 1 {
      OneDigit(t);
    } else {
      TwoDigits(t);
    }
  }

  /** `%d` denotes a day number. */
  lemma DayRange(t: string)
    requires DayText(t)
    ensures IsDigits(t) || IsDigits(t[1..])
    ensures 1 <= FieldNumber(t) <= 31
  {
    if |t| == 1 {
      OneDigit(t);
    } else if t[0] == ' ' {
      OneDigit(t[1..]);
    } else {
      TwoDigits(t);
    }
  }

  /** Three pieces joined by a one-character separator. */
  lemma JoinThree(parts: seq<string>, c: char)
    requires |parts| == 3
    ensures Join(parts, [c]) == parts[0] + [c] + parts[1] + [c] + parts[2]
  {
    var tail := parts[1..];
    assert Join(tail, [c]) == tail[0] + [c] + Join(tail[1..], [c]);
    assert tail[1..] == [parts[2]];
  }

  /** `datetime.strptime(s, f).date()`: the text must split at the separator
      into exactly three fields, each in its directive's language, and the
      fields must name an existing day (year 0 and 30 February raise). */
  function Strptime(s: string, f: Format): (r: Option<CalendarDate>)
    ensures r.Some? ==> |s| <= 10 && f.sep in s
  {
    var parts := Split(s, f.sep);
    if |parts| != 3 then None
    else
      var yt := if f.YearFirst? then parts[0] else parts[2];
      var mt := parts[1];
      var dt := if f.YearFirst? then parts[2] else parts[0];
      if YearText(yt) && MonthText(mt) && DayText(dt) then
        MonthRange(mt);
        DayRange(dt);
        var d := Date(DigitsValue(yt), FieldNumber(mt), FieldNumber(dt));
        var some: Option<CalendarDate> := if Valid(d) then var cd: CalendarDate := d; Some(cd) else None;
        JoinThree(parts, f.sep);
        assert s[|parts[0]|] == f.sep;
        some
      else
        None
  }

  /** The first format of `fs` that accepts `s`, or None when none does. */
  function FirstFormat(s: string, fs: seq<Format>): (r: Option<CalendarDate>)
    ensures r.None? <==> forall i :: 0 <= i < |fs| ==> Strptime(s, fs[i]).None?
    ensures r.Some? ==> exists i :: 0 <= i < |fs| && Strptime(s, fs[i]) == r
                          && forall j :: 0 <= j < i ==> Strptime(s, fs[j]).None?
  {
    FirstSome(Tries(s, fs), 0)
  }

  /** The result of each format in turn. */
  function Tries(s: string, fs: seq<Format>): (tries: seq<Option<CalendarDate>>)
    ensures |tries| == |fs|
    ensures forall i :: 0 <= i < |fs| ==> tries[i] == Strptime(s, fs[i])
  {
    if fs == [] then [] else [Strptime(s, fs[0])] + Tries(s, fs[1..])
  }

  /** The first present result from position `k` on. */
  function FirstSome(tries: seq<Option<CalendarDate>>, k: nat): (r: Option<CalendarDate>)
    requires k <= |tries|
    ensures r.None? <==> forall i :: k <= i < |tries| ==> tries[i].None?
    ensures r.Some? ==> exists i :: k <= i < |tries| && tries[i] == r
                          && forall j :: k <= j < i ==> tries[j].None?
    decreases |tries| - k
  {
    if k == |tries| then None
    else if tries[k].Some? then tries[k]
    else FirstSome(tries, k + 1)
  }

  /** `_parse_date`: "" and "N/A" are no date, a datetime gives its date,
      and a string is tried against the formats in order. */
  function ParseDate(v: Value): (r: Option<CalendarDate>)
    ensures v.Stamp? ==> r == Some(v.date)
    ensures v == Plain("") || v == Plain("N/A") ==> r.None?
    ensures v.Plain? && v.s != "" && v.s != "N/A" ==> r == FirstFormat(v.s, Formats)
  {
    match v
    case Stamp(d) => Some(d)
    case Plain(s) => if s == "" || s == "N/A" then None else FirstFormat(s, Formats)
  }

  /** A two-digit zero-padded month is `%m` text, read back as the month. */
  lemma PaddedMonth(t: string, m: int)
    requires |t| == 2 && IsDigits(t) && DigitsValue(t) == m && 1 <= m <= 12
    ensures MonthText(t) && FieldNumber(t) == m
  {
    TwoDigits(t);
  }

  /** A two-digit zero-padded day is `%d` text, read back as the day. */
  lemma PaddedDay(t: string, d: int)
    requires |t| == 2 && IsDigits(t) && DigitsValue(t) == d && 1 <= d <= 31
    ensures DayText(t) && FieldNumber(t) == d
  {
    TwoDigits(t);
  }

  lemma NoSeparator(t: string, c: char)
    requires IsDigits(t) && !IsDigit(c)
    ensures c !in t
  {
  }

  /** `%Y-%m-%d` reads `str(date)` back as the same date, and so does
      `_parse_date`, whose first format it is. */
  lemma IsoRoundTrip(d: CalendarDate)
    ensures Strptime(IsoText(d), YearFirst('-')) == Some(d)
    ensures ParseDate(Plain(IsoText(d))) == Some(d)
  {
    var y, m, dd := IsoField(d.year, 4), IsoField(d.month, 2), IsoField(d.day, 2);
    var s := IsoText(d);
    assert s == y + ['-'] + (m + ['-'] + dd);
    NoSeparator(y, '-');
    NoSeparator(m, '-');
    NoSeparator(dd, '-');
    SplitPiece(y, '-', m + ['-'] + dd);
    SplitPiece(m, '-', dd);
    SplitNone(dd, '-');
    var parts := Split(s, '-');
    assert parts == [y, m, dd];
    PaddedMonth(m, d.month);
    PaddedDay(dd, d.day);
    assert s != "" && s != "N/A";
  }

  /** Conversely, a ten-character text without spaces that `%Y-%m-%d`
      accepts is the `str()` of the date it denotes: the zero-padded form
      is the only way to write a date in ten characters. */
  lemma IsoCanonical(s: string, d: CalendarDate)
    requires |s| == 10 && ' ' !in s
    requires Strptime(s, YearFirst('-')) == Some(d)
    ensures s == IsoText(d)
  {
    var parts := Split(s, '-');
    var y, m, dd := parts[0], parts[1], parts[2];
    JoinThree(parts, '-');
    assert |y| == 4 && |m| == 2 && |dd| == 2;
    assert dd[0] in s by {
      assert dd[0] == s[8];
    }
    MonthRange(m);
    DayRange(dd);
    assert IsDigits(dd);
    DigitsValueInjective(y, IsoField(d.year, 4));
    DigitsValueInjective(m, IsoField(d.month, 2));
    DigitsValueInjective(dd, IsoField(d.day, 2));
  }

  lemma DigitsSnoc(p: string, c: char)
    requires IsDigits(p) && IsDigit(c)
    ensures IsDigits(p + [c]) && DigitsValue(p + [c]) == DigitsValue(p) * 10 + DigitValue(c)
  {
    assert (p + [c])[..|p|] == p;
  }

  /** Three pieces without the separator split back into those pieces. */
  lemma SplitThree(a: string, b: string, c: string, sep: char)
    requires sep !in a && sep !in b && sep !in c
    ensures Split(a + [sep] + b + [sep] + c, sep) == [a, b, c]
  {
    assert a + [sep] + b + [sep] + c == a + [sep] + (b + [sep] + c);
    SplitPiece(a, sep, b + [sep] + c);
    SplitPiece(b, sep, c);
    SplitNone(c, sep);
  }

  /** A text without the format's separator is not accepted by it. */
  lemma StrptimeNoSeparator(s: string, f: Format)
    requires f.sep !in s
    ensures Strptime(s, f).None?
  {
    SplitNone(s, f.sep);
  }

  lemma DayFirstSplit()
    ensures Split("5/3/2025", '/') == ["5", "3", "2025"]
  {
    assert "5/3/2025" == "5" + ['/'] + "3" + ['/'] + "2025";
    SplitThree("5", "3", "2025", '/');
  }

  lemma DayFirstStrptime()
    ensures var r := Strptime("5/3/2025", DayFirst('/')); r.Some? && r.value == Date(2025, 3, 5)
  {
    DayFirstSplit();
    DayFirstFields();
  }

  /** A day-first date with single-digit fields is read by the second
      format: "5/3/2025" is 5 March 2025. */
  lemma DayFirstExample()
    ensures var r := ParseDate(Plain("5/3/2025")); r.Some? && r.value == Date(2025, 3, 5)
  {
    var s := "5/3/2025";
    StrptimeNoSeparator(s, YearFirst('-'));
    DayFirstStrptime();
    assert Formats[1] == DayFirst('/');
    var t := Tries(s, Formats);
    assert t[0].None? && t[1] == Strptime(s, DayFirst('/'));
    assert FirstFormat(s, Formats) == FirstSome(t, 1) == t[1];
  }

  lemma DayFirstFields()
    ensures YearText("2025") && DigitsValue("2025") == 2025
    ensures MonthText("3") && FieldNumber("3") == 3
    ensures DayText("5") && FieldNumber("5") == 5
  {
    OneDigit("5");
    OneDigit("3");
    DigitsSnoc("", '2');
    DigitsSnoc("2", '0');
    DigitsSnoc("20", '2');
    DigitsSnoc("202", '5');
    assert [] + ['2'] == "2" && "2" + ['0'] == "20" && "20" + ['2'] == "202" && "202" + ['5'] == "2025";
  }

  lemma NonexistentDaySplit()
    ensures Split("2025-02-30", '-') == ["2025", "02", "30"]
  {
    assert "2025-02-30" == "2025" + ['-'] + "02" + ['-'] + "30";
    SplitThree("2025", "02", "30", '-');
  }

  lemma NonexistentDayFields()
    ensures MonthText("02") && FieldNumber("02") == 2
    ensures DayText("30") && FieldNumber("30") == 30
    ensures !DayText("2025")
  {
    TwoDigits("02");
    TwoDigits("30");
  }

  lemma NonexistentDayYearFirst()
    ensures Strptime("2025-02-30", YearFirst('-')).None?
  {
    NonexistentDaySplit();
    NonexistentDayFields();
  }

  lemma NonexistentDayDayFirst()
    ensures Strptime("2025-02-30", DayFirst('-')).None?
  {
    NonexistentDaySplit();
    NonexistentDayFields();
  }

  /** A day that does not exist is no date in any format: "2025-02-30". */
  lemma NonexistentDayExample()
    ensures ParseDate(Plain("2025-02-30")).None?
  {
    var s := "2025-02-30";
    StrptimeNoSeparator(s, DayFirst('/'));
    StrptimeNoSeparator(s, YearFirst('/'));
    NonexistentDayYearFirst();
    NonexistentDayDayFirst();
    NoFormatAccepts(s);
  }

  /** A text that none of the four formats accepts is no date. */
  lemma NoFormatAccepts(s: string)
    requires s != "" && s != "N/A"
    requires Strptime(s, YearFirst('-')).None? && Strptime(s, DayFirst('/')).None?
    requires Strptime(s, DayFirst('-')).None? && Strptime(s, YearFirst('/')).None?
    ensures ParseDate(Plain(s)).None?
  {
    assert forall i :: 0 <= i < |Formats| ==> Strptime(s, Formats[i]).None?;
  }

  // -------------------------------------------------------------- amounts

  /** Python's `float(t)`: surrounding whitespace is allowed. */
  function PyFloat(t: string): (r: Option<Decimal>)
    ensures r.Some? ==> Normal(r.value)
  {
    FloatLiteral(Strip(t))
  }

  /** The separator rule of `_parse_decimal`: with both a point and a comma,
      points are thousands separators and the comma is the decimal point;
      with only a comma, it is the decimal point; otherwise nothing changes. */
  function Separators(t: string): (r: string)
    ensures ',' !in r
    ensures ',' !in t ==> r == t
  {
    if ',' in t && '.' in t then
      var r := ReplaceChar(RemoveChar(t, '.'), ',', '.');
      assert forall i :: 0 <= i < |r| ==> r[i] != ',';
      r
    else if ',' in t then
      var r := ReplaceChar(t, ',', '.');
      assert forall i :: 0 <= i < |r| ==> r[i] != ',';
      r
    else
      t
  }

  /** `_parse_decimal`: "" and "N/A" are no amount; a datetime is no amount
      (`float()` of it raises); a string loses its `$` signs and surrounding
      whitespace, has its separators converted, and is read by `float()`. */
  function ParseDecimal(v: Value): (r: Option<Decimal>)
    ensures r.Some? ==> Normal(r.value)
    ensures v.Stamp? || v == Plain("") || v == Plain("N/A") ==> r.None?
  {
    match v
    case Stamp(_) => None
    case Plain(s) =>
      if s == "" || s == "N/A" then None
      else PyFloat(Separators(Strip(RemoveChar(s, '$'))))
  }

  /** For a text that needs no cleaning, `_parse_decimal` is the separator
      rule followed by `float()`. */
  lemma CleanDecimal(s: string)
    requires s != "" && s != "N/A" && '$' !in s && Strip(s) == s
    ensures ParseDecimal(Plain(s)) == PyFloat(Separators(s))
  {
    RemoveCharAbsent(s, '$');
  }

  /** `float()` of a text with no surrounding whitespace. */
  lemma CleanFloat(s: string)
    requires Strip(s) == s
    ensures PyFloat(s) == FloatLiteral(s)
  {
  }

  /** The text of an amount, as the export leaves it in a cell, has no
      currency sign and no comma. */
  lemma DecimalTextPlain(d: Decimal)
    ensures '$' !in DecimalText(d) && ',' !in DecimalText(d) && DecimalText(d) != "N/A"
  {
    var ip, fp := IntPartText(d), FracText(d);
    var s := DecimalText(d);
    assert s == (if d.units < 0 then "-" else "") + (ip + "." + fp);
    assert forall i :: 0 <= i < |s| ==> IsDigit(s[i]) || s[i] == '-' || s[i] == '.';
    assert IsDigit(s[|s| - 1]);
  }

  /** A text with no currency sign, no comma and no surrounding
      whitespace is read by `float()` as it stands. */
  lemma PlainDecimal(s: string)
    requires s != "" && s != "N/A" && '$' !in s && ',' !in s && Strip(s) == s
    ensures ParseDecimal(Plain(s)) == FloatLiteral(s)
  {
    CleanDecimal(s);
    CleanFloat(s);
  }

  /** A non-zero amount written to a cell by the export is read back as the
      same amount. */
  lemma AmountRoundTrip(d: Decimal)
    requires Normal(d) && !IsZero(d)
    ensures ParseDecimal(ReadCell(Amount(d))) == Some(d)
  {
    ReadAmount(d);
    DecimalTextPlain(d);
    DecimalTextStripped(d);
    PlainDecimal(DecimalText(d));
    DecimalTextRoundTrip(d);
  }

  /** The text of an integer: digits after an optional minus. */
  lemma IntTextPlain(i: int)
    ensures var s := IntToString(i);
      s != "" && s != "N/A" && '$' !in s && ',' !in s && Strip(s) == s
  {
    var s := IntToString(i);
    var a: nat := if i < 0 then -i else i;
    var digits := NatToString(a);
    assert s == digits || s == "-" + digits;
    assert forall k :: 0 <= k < |s| ==> IsDigit(s[k]) || s[k] == '-';
    assert IsDigit(s[|s| - 1]);
    SignedDigitsStripped(s, digits);
  }

  /** A non-zero integer cell is read as that whole amount. */
  lemma IntAmountRoundTrip(i: int)
    requires i != 0
    ensures ParseDecimal(ReadCell(Int(i))) == Some(Decimal(i, 0))
  {
    ReadInt(i);
    IntTextPlain(i);
    PlainDecimal(IntToString(i));
    IntTextRoundTrip(i);
  }

  /** Thousands groups: non-empty digit strings. */
  predicate DigitGroups(groups: seq<string>)
  {
    |groups| >= 1 && forall i :: 0 <= i < |groups| ==> |groups[i]| > 0 && IsDigits(groups[i])
  }

  /** Groups joined by points: digits and points, starting and ending with a
      digit; the groups run together form one digit string. */
  lemma GroupedText(groups: seq<string>)
    requires DigitGroups(groups)
    ensures var t := Join(groups, ".");
      |t| > 0 && IsDigit(t[0]) && IsDigit(t[|t| - 1])
      && (forall i :: 0 <= i < |t| ==> IsDigit(t[i]) || t[i] == '.')
      && (|groups| >= 2 ==> '.' in t)
    ensures |Join(groups, "")| > 0 && IsDigits(Join(groups, ""))
  {
    PointedGroups(groups);
    RunTogether(groups);
  }

  /** The first half of `GroupedText`: the groups joined by points. */
  lemma {:induction false} PointedGroups(groups: seq<string>)
    requires DigitGroups(groups)
    ensures var t := Join(groups, ".");
      |t| > 0 && IsDigit(t[0]) && IsDigit(t[|t| - 1])
      && (forall i :: 0 <= i < |t| ==> IsDigit(t[i]) || t[i] == '.')
      && (|groups| >= 2 ==> '.' in t)
  {
    if |groups| > 1 {
      var rest := groups[1..];
      assert DigitGroups(rest) by {
        assert forall i :: 0 <= i < |rest| ==> rest[i] == groups[i + 1];
      }
      PointedGroups(rest);
      var g, t := groups[0], Join(rest, ".");
      var u := g + "." + t;
      assert Join(groups, ".") == u;
      assert u[0] == g[0] && u[|u| - 1] == t[|t| - 1] && u[|g|] == '.';
      forall i | 0 <= i < |u| ensures IsDigit(u[i]) || u[i] == '.' {
        if i > |g| {
          assert u[i] == t[i - |g| - 1];
        }
      }
    }
  }

  /** The second half of `GroupedText`: the groups run together. */
  lemma {:induction false} RunTogether(groups: seq<string>)
    requires DigitGroups(groups)
    ensures |Join(groups, "")| > 0 && IsDigits(Join(groups, ""))
  {
    if |groups| > 1 {
      var rest := groups[1..];
      assert DigitGroups(rest) by {
        assert forall i :: 0 <= i < |rest| ==> rest[i] == groups[i + 1];
      }
      RunTogether(rest);
      assert Join(groups, "") == groups[0] + "" + Join(rest, "");
      DigitsConcat(groups[0], Join(rest, ""));
      assert groups[0] + "" == groups[0];
    }
  }

  /** The text `g,fp` for a text `g` of digits and points. */
  lemma ColombianText(g: string, fp: string, t: string)
    requires |g| > 0 && IsDigit(g[0]) && '.' in g
    requires forall i :: 0 <= i < |g| ==> IsDigit(g[i]) || g[i] == '.'
    requires |fp| > 0 && IsDigits(fp)
    requires t == g + "," + fp
    ensures |t| > 0 && IsDigit(t[0]) && IsDigit(t[|t| - 1]) && '$' !in t
    ensures ',' in t && '.' in t
  {
    assert t[0] == g[0] && t[|t| - 1] == fp[|fp| - 1] && t[|g|] == ',';
    assert forall i :: 0 <= i < |t| ==> IsDigit(t[i]) || t[i] == '.' || t[i] == ',';
    var k :| 0 <= k < |g| && g[k] == '.';
    assert t[k] == '.';
  }

  /** `ip.fp` for digit strings reads as a float with no cleaning. */
  lemma PointedText(ip: string, fp: string, body: string)
    requires |ip| > 0 && IsDigits(ip) && |fp| > 0 && IsDigits(fp) && body == ip + "." + fp
    ensures PyFloat(body) == FloatLiteral(body)
  {
    assert body[0] == ip[0] && body[|body| - 1] == fp[|fp| - 1];
    StripNoop(body);
  }

  /** A text that starts and ends with a digit and has no currency sign is
      read by the separator rule and `float()`. */
  lemma DigitText(t: string)
    requires |t| > 0 && IsDigit(t[0]) && IsDigit(t[|t| - 1]) && '$' !in t
    ensures ParseDecimal(Plain(t)) == PyFloat(Separators(t))
  {
    DigitEnds(t);
    RemoveCharAbsent(t, '$');
    assert ParseDecimal(Plain(t)) == PyFloat(Separators(Strip(t)));
  }

  /** A text that starts and ends with a digit needs no stripping and is
      not "N/A". */
  lemma DigitEnds(t: string)
    requires |t| > 0 && IsDigit(t[0]) && IsDigit(t[|t| - 1])
    ensures t != "N/A" && Strip(t) == t
  {
    StripNoop(t);
  }

  /** `g,fp` where `g` is digits and points that spell `ip` once the points go. */
  lemma ColombianRead(g: string, ip: string, fp: string)
    requires |g| > 0 && IsDigit(g[0]) && '.' in g
    requires forall i :: 0 <= i < |g| ==> IsDigit(g[i]) || g[i] == '.'
    requires RemoveChar(g, '.') == ip && |ip| > 0 && IsDigits(ip)
    requires |fp| > 0 && IsDigits(fp)
    ensures IsDigits(ip + fp) && ParseDecimal(Plain(g + "," + fp)) == Some(Normalise(Decimal(DigitsValue(ip + fp), |fp|)))
  {
    var t := g + "," + fp;
    ColombianText(g, fp, t);
    DigitText(t);
    ColombianSeparators(g, ip, fp);
    var body := ip + "." + fp;
    PointedText(ip, fp, body);
    DigitsConcat(ip, fp);
    var m := Decimal(DigitsValue(ip + fp), |fp|);
    PointedSome(ip, fp, m);
    PointedLiteral(ip, fp, body, m);
  }

  lemma GroupsHaveNoPoint(groups: seq<string>)
    requires DigitGroups(groups)
    ensures forall i :: 0 <= i < |groups| ==> '.' !in groups[i]
  {
    forall i | 0 <= i < |groups| ensures '.' !in groups[i] {
      var g := groups[i];
      assert IsDigits(g);
    }
  }

  /** Groups joined by points, and run together once the points are removed. */
  lemma GroupedJoin(groups: seq<string>)
    requires DigitGroups(groups) && |groups| >= 2
    ensures var g, ip := Join(groups, "."), Join(groups, "");
       |g| > 0 && IsDigit(g[0]) && '.' in g && (forall i :: 0 <= i < |g| ==> IsDigit(g[i]) || g[i] == '.')
       && RemoveChar(g, '.') == ip && |ip| > 0 && IsDigits(ip)
  {
    GroupedText(groups);
    GroupsHaveNoPoint(groups);
    RemoveJoined(groups, '.');
  }

  /** The Colombian format: thousands groups `g` separated by points and a
      decimal comma (`1.234.567,89`) read as the amount the digits `ip`
      spell, with the comma as the decimal point. */
  lemma ColombianAmount(groups: seq<string>, fp: string, g: string, ip: string)
    requires DigitGroups(groups) && |groups| >= 2
    requires |fp| > 0 && IsDigits(fp)
    requires g == Join(groups, ".") && ip == Join(groups, "")
    ensures IsDigits(ip) && IsDigits(ip + fp) && ParseDecimal(Plain(g + "," + fp)) == Some(Normalise(Decimal(DigitsValue(ip + fp), |fp|)))
  {
    GroupedJoin(groups);
    ColombianRead(g, ip, fp);
  }

  /** With a point and a comma, the points go and the comma becomes the
      decimal point. */
  lemma ColombianSeparators(g: string, ip: string, fp: string)
    requires ',' !in g && '.' in g && ',' !in ip && '.' !in fp && ',' !in fp
    requires RemoveChar(g, '.') == ip
    ensures Separators(g + "," + fp) == ip + "." + fp
  {
    var t := g + "," + fp;
    assert t[|g|] == ',';
    assert '.' in t by {
      var k :| 0 <= k < |g| && g[k] == '.';
      assert t[k] == '.';
    }
    PointsRemoved(g, ip, fp);
    CommaReplaced(ip, fp);
  }

  /** Deleting the points of "g,fp" leaves "ip,fp". */
  lemma PointsRemoved(g: string, ip: string, fp: string)
    requires '.' !in fp && RemoveChar(g, '.') == ip
    ensures RemoveChar(g + "," + fp, '.') == ip + "," + fp
  {
    RemoveCharAppend(g + ",", fp, '.');
    RemoveCharAppend(g, ",", '.');
    RemoveCharAbsent(",", '.');
    RemoveCharAbsent(fp, '.');
  }

  /** Replacing the only comma of "ip,fp" gives "ip.fp". */
  lemma CommaReplaced(ip: string, fp: string)
    requires ',' !in ip && ',' !in fp
    ensures ReplaceChar(ip + "," + fp, ',', '.') == ip + "." + fp
  {
    var u, w := ip + "," + fp, ip + "." + fp;
    var r := ReplaceChar(u, ',', '.');
    forall i | 0 <= i < |w|
      ensures r[i] == w[i]
    {
      if i < |ip| {
        assert u[i] == ip[i] == w[i];
      } else if i > |ip| {
        assert u[i] == fp[i - |ip| - 1] == w[i];
      }
    }
  }


  /** The currency sign and the space after it are ignored. */
  lemma CurrencySign(t: string)
    requires t != "" && t != "N/A"
    ensures ParseDecimal(Plain("$ " + t)) == ParseDecimal(Plain(t))
  {
    var x := RemoveChar(t, '$');
    RemoveCharAppend("$ ", t, '$');
    assert RemoveChar("$ ", '$') == " ";
    assert RemoveChar("$ " + t, '$') == " " + x;
    StripLeadingSpace(x);
    assert ("$ " + t)[0] == '$';
  }

  /** Points alone are read as decimal points, so a thousands-grouped amount
      without a decimal comma (`1.500.000`) is no amount at all. */
  lemma PointGroupsRejected(a: string, b: string, c: string)
    requires |a| > 0 && |c| > 0 && IsDigits(a) && IsDigits(b) && IsDigits(c)
    ensures ParseDecimal(Plain(a + "." + b + "." + c)).None?
  {
    var t := a + "." + b + "." + c;
    assert t[0] == a[0] && t[|t| - 1] == c[|c| - 1];
    assert forall i :: 0 <= i < |t| ==> IsDigit(t[i]) || t[i] == '.';
    StripNoop(t);
    PlainDecimal(t);
    TwoPointsRejected(a, b, c, t);
  }

  /** Commas as thousands separators (`1,234,567`) become two decimal
      points, so such an amount is no amount at all. */
  lemma CommaGroupsRejected(a: string, b: string, c: string)
    requires |a| > 0 && |c| > 0 && IsDigits(a) && IsDigits(b) && IsDigits(c)
    ensures ParseDecimal(Plain(a + "," + b + "," + c)).None?
  {
    var t, u := a + "," + b + "," + c, a + "." + b + "." + c;
    CommaText(a, b, c);
    CleanDecimal(t);
    CommaSeparators(a, b, c);
    assert u[0] == a[0] && u[|u| - 1] == c[|c| - 1];
    StripNoop(u);
    CleanFloat(u);
    TwoPointsRejected(a, b, c, u);
  }

  lemma CommaText(a: string, b: string, c: string)
    requires |a| > 0 && |c| > 0 && IsDigits(a) && IsDigits(b) && IsDigits(c)
    ensures var t := a + "," + b + "," + c;
      t != "" && t != "N/A" && '$' !in t && Strip(t) == t && ',' in t && '.' !in t
  {
    var t := a + "," + b + "," + c;
    assert t[0] == a[0] && t[|t| - 1] == c[|c| - 1] && t[|a|] == ',';
    assert forall i :: 0 <= i < |t| ==> IsDigit(t[i]) || t[i] == ',';
    StripNoop(t);
  }

  lemma CommaSeparators(a: string, b: string, c: string)
    requires |a| > 0 && |c| > 0 && IsDigits(a) && IsDigits(b) && IsDigits(c)
    ensures Separators(a + "," + b + "," + c) == a + "." + b + "." + c
  {
    CommaText(a, b, c);
    ReplaceCharAppend(a + "," + b + ",", c, ',', '.');
    ReplaceCharAppend(a + "," + b, ",", ',', '.');
    ReplaceCharAppend(a + ",", b, ',', '.');
    ReplaceCharAppend(a, ",", ',', '.');
    ReplaceCharAbsent(a, ',', '.');
    ReplaceCharAbsent(b, ',', '.');
    ReplaceCharAbsent(c, ',', '.');
  }

  // ------------------------------------------------------------ integers

  /** `_parse_int`: "" and "N/A" are no number; otherwise `int(float(str(v)))`,
      which truncates toward zero, and is no number when `float()` raises
      (as it does for the text of a datetime). */
  function ParseInt(v: Value): (r: Option<int>)
    ensures v == Plain("") || v == Plain("N/A") ==> r.None?
    ensures r.Some? ==> exists d :: PyFloat(PyStr(v)) == Some(d) && r.value == Truncate(d)
  {
    if v == Plain("") || v == Plain("N/A") then None
    else
      var f := PyFloat(PyStr(v));
      if f.Some? then Some(Truncate(f.value)) else None
  }

  /** A non-zero integer cell is read back as that integer. */
  lemma IntRoundTrip(i: int)
    requires i != 0
    ensures ParseInt(ReadCell(Int(i))) == Some(i)
  {
    ReadInt(i);
    IntTextPlain(i);
    IntTextRoundTrip(i);
    WholeText(IntToString(i), i);
  }

  /** A clean text that is the literal of a whole number parses as it. */
  lemma WholeText(s: string, x: int)
    requires s != "" && s != "N/A" && Strip(s) == s
    requires FloatLiteral(s) == Some(Decimal(x, 0))
    ensures ParseInt(Plain(s)) == Some(x)
  {
    CleanFloat(s);
    assert Truncate(Decimal(x, 0)) == x;
  }

  /** The text of a datetime is not a float, so a date in a number column
      is no number. */
  lemma StampNotInt(d: CalendarDate)
    ensures ParseInt(Stamp(d)).None?
  {
    var s := DateTimeText(d);
    DateTimeChars(d);
    DigitEnds(s);
    StrayCharRejected(s, 4);
  }

  /** `str(datetime)`: digits, dashes, a space and colons, starting with a digit. */
  lemma DateTimeChars(d: CalendarDate)
    ensures var s := DateTimeText(d);
      IsDigit(s[0]) && IsDigit(s[|s| - 1]) && s[4] == '-'
      && forall i :: 0 <= i < |s| ==> IsDigit(s[i]) || s[i] == '-' || s[i] == ' ' || s[i] == ':'
  {
    var y, m, dd := IsoField(d.year, 4), IsoField(d.month, 2), IsoField(d.day, 2);
    var iso := IsoText(d);
    assert iso == y + "-" + m + "-" + dd;
    assert forall i :: 0 <= i < |iso| ==> IsDigit(iso[i]) || iso[i] == '-';
    var s := DateTimeText(d);
    assert s == iso + " 00:00:00";
    assert s[0] == y[0];
  }

  // --------------------------------------------------------------- flags

  /** The words `_parse_bool` reads as true, once upper-cased and stripped. */
  const TrueWords: seq<string> := ["SÍ", "SI", "YES", "TRUE", "1", "X", "✓"]

  /** `_parse_bool`: a falsy value is false; otherwise the upper-cased,
      stripped text must be one of the true words. */
  function ParseBool(v: Value): (r: bool)
    ensures Falsy(v) ==> !r
  {
    !Falsy(v) && Strip(Upper(PyStr(v))) in TrueWords
  }

  /** `s` upper-cases to `t`. */
  lemma UpperIs(s: string, t: string)
    requires |s| == |t| && forall i :: 0 <= i < |s| ==> UpperChar(s[i]) == t[i]
    ensures Upper(s) == t
  {
  }

  /** A word without surrounding whitespace is left alone by stripping. */
  lemma WordStripped(s: string)
    requires |s| > 0 && !IsPySpace(s[0]) && !IsPySpace(s[|s| - 1])
    ensures Strip(s) == s
  {
    StripNoop(s);
  }

  /** A lower-case word `w` whose upper case `u` is a true word reads as
      true. */
  lemma LowerWord(w: string, u: string)
    requires u in TrueWords && |w| == |u|
    requires forall i :: 0 <= i < |w| ==> UpperChar(w[i]) == u[i]
    ensures ParseBool(Plain(w))
  {
    UpperIs(w, u);
    WordStripped(u);
  }

  /** The export marks a project with "X" and leaves it "" otherwise, and
      the import reads the mark back. */
  lemma FlagRoundTrip(b: bool)
    ensures ParseBool(ReadCell(Str(if b then "X" else ""))) == b
  {
    ReadStr(if b then "X" else "");
    if b {
      LowerWord("X", "X");
    }
  }

  /** A boolean cell reads as itself ("True" upper-cases to a true word). */
  lemma BoolCellRoundTrip(b: bool)
    ensures ParseBool(ReadCell(Flag(b))) == b
  {
    if b {
      ReadFlag(true);
      TrueIsWord();
    } else {
      ReadFlag(false);
    }
  }

  /** "True", the text of a true boolean cell, is a true word. */
  lemma TrueIsWord()
    ensures ParseBool(Plain("True"))
  {
    LowerWord("True", "TRUE");
  }

  /** Case does not matter: a text and its upper case read the same. */
  lemma ParseBoolCaseInsensitive(s: string)
    ensures ParseBool(Plain(Upper(s))) == ParseBool(Plain(s))
  {
    UpperIdempotent(s);
  }

  /** The upper-cased, stripped text of a date keeps all 19 characters. */
  lemma StampKey(d: CalendarDate)
    ensures |Strip(Upper(PyStr(Stamp(d))))| == 19
  {
    var s := DateTimeText(d);
    DateTimeChars(d);
    var u := Upper(s);
    assert u[0] == UpperChar(s[0]) == s[0];
    assert u[18] == UpperChar(s[18]) == s[18];
    WordStripped(u);
  }

  /** A date in a project column is no mark. */
  lemma StampNotFlag(d: CalendarDate)
    ensures !ParseBool(Stamp(d))
  {
    StampKey(d);
    NoLongWord(Strip(Upper(PyStr(Stamp(d)))));
  }

  /** No true word is as long as a date's text. */
  lemma NoLongWord(k: string)
    requires |k| == 19
    ensures k !in TrueWords
  {
  }

  // ---------------------------------------------------- choice mappings

  /** The texts `_map_tipo_identificacion` recognises, upper-cased. */
  const IdMapping: map<string, IdType> := map[
    "CÉDULA DE CIUDADANÍA" := CC, "CEDULA DE CIUDADANIA" := CC, "CÉDULA CIUDADANÍA" := CC,
    "CEDULA" := CC, "CC" := CC,
    "CÉDULA DE EXTRANJERÍA" := CE, "CEDULA DE EXTRANJERIA" := CE, "CE" := CE,
    "PASAPORTE" := PA, "PA" := PA,
    "TARJETA DE IDENTIDAD" := TI, "TI" := TI]

  /** `_map_tipo_identificacion`: a falsy value, and any text it does not
      recognise, is a citizenship card (CC). */
  function MapTipoIdentificacion(v: Value): (t: IdType)
    ensures Falsy(v) ==> t == CC
  {
    if Falsy(v) then CC
    else
      var key := Strip(Upper(PyStr(v)));
      if key in IdMapping then IdMapping[key] else CC
  }

  /** Any value whose stripped upper case is not a key of the mapping is a
      citizenship card; one whose stripped upper case is a key is that
      key's type. */
  lemma IdFallback(v: Value)
    ensures !Falsy(v) && Strip(Upper(PyStr(v))) !in IdMapping ==> MapTipoIdentificacion(v) == CC
    ensures !Falsy(v) && Strip(Upper(PyStr(v))) in IdMapping
      ==> MapTipoIdentificacion(v) == IdMapping[Strip(Upper(PyStr(v)))]
  {
  }

  /** A text `w` whose upper case is the key `u` of the identification
      mapping is read as the type `u` maps to. */
  lemma IdWord(w: string, u: string)
    requires u in IdMapping && |w| == |u|
    requires forall i :: 0 <= i < |w| ==> UpperChar(w[i]) == u[i]
    requires u != [] && !IsPySpace(u[0]) && !IsPySpace(u[|u| - 1])
    requires !IsPySpace(w[0]) && !IsPySpace(w[|w| - 1])
    ensures MapTipoIdentificacion(Plain(w)) == IdMapping[u]
  {
    UpperIs(w, u);
    WordStripped(u);
  }

  /** The stored code of every identification type is read back as that
      type; this is what the export writes in the type column. */
  lemma IdCodeRoundTrip(t: IdType)
    ensures MapTipoIdentificacion(Plain(IdCode(t))) == t
  {
    match t
    case CC => assert MapTipoIdentificacion(Plain("CC")) == CC by { IdWord("CC", "CC"); }
    case CE => assert MapTipoIdentificacion(Plain("CE")) == CE by { IdWord("CE", "CE"); }
    case PA => assert MapTipoIdentificacion(Plain("PA")) == PA by { IdWord("PA", "PA"); }
    case TI => assert MapTipoIdentificacion(Plain("TI")) == TI by { IdWord("TI", "TI"); }
  }

  /** The display label of every identification type is read back as that
      type. */
  lemma IdLabelRoundTrip(t: IdType)
    ensures MapTipoIdentificacion(Plain(IdLabel(t))) == t
  {
    match t
    case CC => LabelCC();
    case CE => LabelCE();
    case PA => LabelPA();
    case TI => LabelTI();
  }

  lemma LabelCC()
    ensures MapTipoIdentificacion(Plain("Cédula de Ciudadanía")) == CC
  {
    KeyCC();
    IdWord("Cédula de Ciudadanía", "CÉDULA DE CIUDADANÍA");
  }

  lemma KeyCC()
    ensures "CÉDULA DE CIUDADANÍA" in IdMapping && IdMapping["CÉDULA DE CIUDADANÍA"] == CC
  {
  }

  lemma LabelCE()
    ensures MapTipoIdentificacion(Plain("Cédula de Extranjería")) == CE
  {
    KeyCE();
    IdWord("Cédula de Extranjería", "CÉDULA DE EXTRANJERÍA");
  }

  lemma KeyCE()
    ensures "CÉDULA DE EXTRANJERÍA" in IdMapping && IdMapping["CÉDULA DE EXTRANJERÍA"] == CE
  {
  }

  lemma LabelPA()
    ensures MapTipoIdentificacion(Plain("Pasaporte")) == PA
  {
    KeyPA();
    IdWord("Pasaporte", "PASAPORTE");
  }

  lemma KeyPA()
    ensures "PASAPORTE" in IdMapping && IdMapping["PASAPORTE"] == PA
  {
  }

  lemma LabelTI()
    ensures MapTipoIdentificacion(Plain("Tarjeta de Identidad")) == TI
  {
    KeyTI();
    IdWord("Tarjeta de Identidad", "TARJETA DE IDENTIDAD");
  }

  lemma KeyTI()
    ensures "TARJETA DE IDENTIDAD" in IdMapping && IdMapping["TARJETA DE IDENTIDAD"] == TI
  {
  }

  /** A date in the type column is not recognised: the worker becomes CC. */
  lemma StampIsCC(d: CalendarDate)
    ensures MapTipoIdentificacion(Stamp(d)) == CC
  {
    StampKey(d);
    NineteenIsCC(Stamp(d));
  }

  /** A truthy value whose key has the 19 characters of a rendered datetime
      is not recognised: no key of the mapping is that long. */
  lemma NineteenIsCC(v: Value)
    requires !Falsy(v) && |Strip(Upper(PyStr(v)))| == 19
    ensures MapTipoIdentificacion(v) == CC
  {
    NotIdKey(Strip(Upper(PyStr(v))));
  }

  /** No key of the identification mapping has 19 characters. */
  lemma NotIdKey(k: string)
    requires |k| == 19
    ensures k !in IdMapping
  {
  }



  /** The contract-type texts the import recognises, upper-cased. */
  const ContractMapping: map<string, ContractType> := map[
    "PRESTACION DE SERVICIOS" := PrestacionServicios, "PRESTACIÓN DE SERVICIOS" := PrestacionServicios,
    "TERMINO INDEFINIDO" := TerminoIndefinido, "TÉRMINO INDEFINIDO" := TerminoIndefinido,
    "TERMINO FIJO" := TerminoFijo, "TÉRMINO FIJO" := TerminoFijo,
    "OBRA O LABOR" := ObraLabor, "APRENDIZAJE" := Aprendizaje]

  /** The contract type of an imported row: a falsy value and any text not
      recognised is a services contract; a date raises (it has no
      `upper()`), which is None here. The text is upper-cased but not
      stripped again. */
  function MapTipoContrato(v: Value): (r: Option<ContractType>)
    ensures r.None? <==> v.Stamp?
    ensures Falsy(v) ==> r == Some(PrestacionServicios)
    ensures v.Plain? && Upper(v.s) !in ContractMapping ==> r == Some(PrestacionServicios)
    ensures v.Plain? && v.s != "" && Upper(v.s) in ContractMapping ==> r == Some(ContractMapping[Upper(v.s)])
  {
    match v
    case Stamp(_) => None
    case Plain(s) =>
      if s == "" then Some(PrestacionServicios)
      else if Upper(s) in ContractMapping then Some(ContractMapping[Upper(s)])
      else Some(PrestacionServicios)
  }

  /** The display label, which is what the export writes in the contract
      column, is read back as the same type. */
  lemma ContractLabelRoundTrip(t: ContractType)
    ensures MapTipoContrato(Plain(ContractLabel(t))) == Some(t)
  {
    match t
    case PrestacionServicios => LabelPrestacion();
    case TerminoIndefinido => LabelIndefinido();
    case TerminoFijo => LabelFijo();
    case ObraLabor => LabelObra();
    case Aprendizaje => LabelAprendizaje();
  }

  lemma LabelPrestacion()
    ensures MapTipoContrato(Plain("Prestación de Servicios")) == Some(PrestacionServicios)
  {
    ContractLabelKeys();
    ContractWord("Prestación de Servicios", "PRESTACIÓN DE SERVICIOS");
  }

  lemma LabelIndefinido()
    ensures MapTipoContrato(Plain("Término Indefinido")) == Some(TerminoIndefinido)
  {
    ContractLabelKeys();
    ContractWord("Término Indefinido", "TÉRMINO INDEFINIDO");
  }

  lemma LabelFijo()
    ensures MapTipoContrato(Plain("Término Fijo")) == Some(TerminoFijo)
  {
    ContractLabelKeys();
    ContractWord("Término Fijo", "TÉRMINO FIJO");
  }

  lemma LabelObra()
    ensures MapTipoContrato(Plain("Obra o Labor")) == Some(ObraLabor)
  {
    ContractLabelKeys();
    ContractWord("Obra o Labor", "OBRA O LABOR");
  }

  lemma LabelAprendizaje()
    ensures MapTipoContrato(Plain("Aprendizaje")) == Some(Aprendizaje)
  {
    ContractLabelKeys();
    ContractWord("Aprendizaje", "APRENDIZAJE");
  }

  /** A non-empty text whose upper case is a key of the contract mapping is
      read as the type that key maps to. */
  lemma ContractWord(w: string, u: string)
    requires u in ContractMapping && |w| == |u| && w != []
    requires forall i :: 0 <= i < |w| ==> UpperChar(w[i]) == u[i]
    ensures MapTipoContrato(Plain(w)) == Some(ContractMapping[u])
  {
    UpperIs(w, u);
  }

  /** The upper-cased labels are keys of the contract mapping. */
  lemma ContractLabelKeys()
    ensures ContractMapping["PRESTACIÓN DE SERVICIOS"] == PrestacionServicios
    ensures ContractMapping["TÉRMINO INDEFINIDO"] == TerminoIndefinido
    ensures ContractMapping["TÉRMINO FIJO"] == TerminoFijo
    ensures ContractMapping["OBRA O LABOR"] == ObraLabor
    ensures ContractMapping["APRENDIZAJE"] == Aprendizaje
  {
  }

  /** The stored codes are not recognised (they have underscores), except
      APRENDIZAJE, so a code in the contract column imports as a services
      contract. */
  lemma ContractCodeNotRecognised(t: ContractType)
    ensures MapTipoContrato(Plain(ContractCode(t))) == Some(if t == Aprendizaje then Aprendizaje else PrestacionServicios)
  {
    var c := ContractCode(t);
    UpperIs(c, c);
    if t == Aprendizaje {
      ContractLabelKeys();
    } else {
      CodesNotKeys();
    }
  }

  /** The stored codes with an underscore are not keys of the mapping. */
  lemma CodesNotKeys()
    ensures "PRESTACION_SERVICIOS" !in ContractMapping && "TERMINO_INDEFINIDO" !in ContractMapping
    ensures "TERMINO_FIJO" !in ContractMapping && "OBRA_LABOR" !in ContractMapping
  {
  }
}
