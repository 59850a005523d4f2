/** The dashboard of the client (gestion-empleados/app/dashboard/page.tsx):
    on load it joins the employees of 2024 and 2025, counts the distinct
    names and the records, and lists the three most recently created
    records with a "time ago" text. Instants are milliseconds; the current
    instant is a parameter. */
module Dashboard {
  import opened Wrappers
  import opened Text
  import opened Empleados

  // ------------------------------------------------------------- counting

  /** There are at most as many distinct names as records, and exactly as
      many when no name repeats. */
  lemma {:induction false} NameCount(s: seq<Employee>)
    ensures |Names(s)| <= |s|
    ensures |Names(s)| == |s| <==> DistinctNames(s)
    decreases |s|
  {
    if s != [] {
      var init := s[..|s| - 1];
      var e := s[|s| - 1];
      assert s == init + [e];
      NameCount(init);
      AppendFacts(init, e);
      if e.nombreCompleto in Names(init) {
        RepeatedName(init, e);
      } else {
        FreshName(init, e);
      }
    }
  }

  /** A name already present makes a repeat. */
  lemma RepeatedName(init: seq<Employee>, e: Employee)
    requires e.nombreCompleto in Names(init)
    ensures !DistinctNames(init + [e])
  {
    var s := init + [e];
    var x :| x in init && x.nombreCompleto == e.nombreCompleto;
    var k :| 0 <= k < |init| && init[k] == x;
    assert s[k] == x && s[|init|] == e;
  }

  /** A new name adds no repeat. */
  lemma FreshName(init: seq<Employee>, e: Employee)
    requires e.nombreCompleto !in Names(init)
    ensures DistinctNames(init + [e]) <==> DistinctNames(init)
  {
    var s := init + [e];
    assert forall i :: 0 <= i < |init| ==> s[i] == init[i] && init[i] in init;
    assert s[|init|] == e;
  }

  /** "Total Empleados": the number of distinct names among the records. */
  function TotalEmployees(all: seq<Employee>): (n: nat)
    ensures n <= |all|
    ensures n == |all| <==> DistinctNames(all)
  {
    NameCount(all);
    |Names(all)|
  }

  // -------------------------------------------------------------- sorting

  /** Newest creation first. */
  predicate NewestFirst(s: seq<Employee>)
  {
    forall i, j :: 0 <= i < j < |s| ==> s[i].creado >= s[j].creado
  }

  /** Places `e` before the first record created no later than it, so that
      among records created at the same instant the earlier ones stay
      first. */
  function Insert(e: Employee, s: seq<Employee>): (r: seq<Employee>)
    requires NewestFirst(s)
    ensures NewestFirst(r)
    ensures |r| == |s| + 1
    ensures forall x :: x in r ==> x == e || x in s
    ensures multiset(r) == multiset(s) + multiset{e}
  {
    if s == [] || s[0].creado <= e.creado then
      PrependNewest(e, s);
      [e] + s
    else
      HeadNewest(s);
      var rest := Insert(e, s[1..]);
      assert s == [s[0]] + s[1..];
      InsertHead(s[0], rest, s[1..], e);
      [s[0]] + rest
  }

  /** A record no older than the first of a sorted list goes in front. */
  lemma PrependNewest(e: Employee, s: seq<Employee>)
    requires NewestFirst(s) && (s == [] || s[0].creado <= e.creado)
    ensures NewestFirst([e] + s)
  {
    var r := [e] + s;
    forall i, j | 0 <= i < j < |r| ensures r[i].creado >= r[j].creado {
      assert r[j] == s[j - 1];
      if i > 0 {
        assert r[i] == s[i - 1];
      }
    }
  }

  /** The first of a sorted list is the newest, and the rest stays sorted. */
  lemma HeadNewest(s: seq<Employee>)
    requires NewestFirst(s) && s != []
    ensures NewestFirst(s[1..])
    ensures forall x :: x in s[1..] ==> x.creado <= s[0].creado
  {
    forall x | x in s[1..] ensures x.creado <= s[0].creado {
      var k :| 0 <= k < |s[1..]| && s[1..][k] == x;
      assert s[k + 1] == x;
    }
  }

  /** Putting the newest record in front of an insertion keeps the order. */
  lemma InsertHead(h: Employee, rest: seq<Employee>, tail: seq<Employee>, e: Employee)
    requires NewestFirst(rest) && e.creado < h.creado
    requires forall x :: x in tail ==> x.creado <= h.creado
    requires forall x :: x in rest ==> x == e || x in tail
    ensures NewestFirst([h] + rest)
  {
    var r := [h] + rest;
    forall i, j | 0 <= i < j < |r| ensures r[i].creado >= r[j].creado {
      if i > 0 {
        assert r[i] == rest[i - 1] && r[j] == rest[j - 1];
      } else {
        assert r[j] == rest[j - 1];
        assert rest[j - 1] in rest;
      }
    }
  }

  /** The records sorted by creation, newest first (a stable sort on the
      comparator `b - a`). */
  function SortNewestFirst(s: seq<Employee>): (r: seq<Employee>)
    ensures NewestFirst(r)
    ensures |r| == |s|
    ensures multiset(r) == multiset(s)
  {
    if s == [] then []
    else
      assert s == [s[0]] + s[1..];
      Insert(s[0], SortNewestFirst(s[1..]))
  }

  // ------------------------------------------------------------ time ago

  const MsPerDay := 86400000
  const MsPerHour := 3600000

  /** `Math.abs` of the difference between two instants. */
  function Distance(now: int, created: int): (d: nat)
    ensures d == now - created || d == created - now
  {
    if now >= created then now - created else created - now
  }

  /** What the text shows: whole days, whole hours, or less than an hour. */
  datatype Age = Days(n: nat) | Hours(n: nat) | Minutes

  /** The floor divisions of the distance, tried days first. */
  function AgeOf(diff: nat): Age
  {
    if diff / MsPerDay > 0 then Days(diff / MsPerDay)
    else if diff / MsPerHour > 0 then Hours(diff / MsPerHour)
    else Minutes
  }

  /** Whole days exactly from one day on, whole hours from one hour up to a
      day, minutes below an hour; a whole day always means whole hours too. */
  lemma AgeMeaning(diff: nat)
    ensures AgeOf(diff).Days? <==> diff >= MsPerDay
    ensures AgeOf(diff).Days? ==> AgeOf(diff).n * MsPerDay <= diff < (AgeOf(diff).n + 1) * MsPerDay
    ensures AgeOf(diff).Hours? <==> MsPerHour <= diff < MsPerDay
    ensures AgeOf(diff).Hours? ==> 1 <= AgeOf(diff).n <= 23
    ensures AgeOf(diff).Hours? ==> AgeOf(diff).n * MsPerHour <= diff < (AgeOf(diff).n + 1) * MsPerHour
    ensures AgeOf(diff).Minutes? <==> diff < MsPerHour
    ensures diff / MsPerDay > 0 ==> diff / MsPerHour > 0
    ensures AgeOf(diff).Days? || AgeOf(diff).Hours? ==> AgeOf(diff).n >= 1
  {
    var a := AgeOf(diff);
    if a.Hours? {
      assert diff < MsPerDay;
      assert diff / MsPerHour * MsPerHour <= diff;
    }
  }

  /** The plural ending: an "s" for more than one. */
  function Plural(n: nat): string
  {
    if n > 1 then "s" else ""
  }

  const MinutesText := "Hace unos minutos"

  /** The displayed text of an age. */
  function AgeText(a: Age): (s: string)
    ensures |s| >= 5 && s[..5] == "Hace "
  {
    match a
    case Days(n) => "Hace " + NatToString(n) + " día" + Plural(n)
    case Hours(n) => "Hace " + NatToString(n) + " hora" + Plural(n)
    case Minutes => MinutesText
  }

  /** The `timeAgo` text for a distance. */
  function TimeAgo(diff: nat): string
  {
    AgeText(AgeOf(diff))
  }

  /** The unit word at the end of a day or hour text, with the count that
      precedes it. */
  function ReadUnit(rest: string): Option<Age>
  {
    if EndsIn(rest, true, true) then ReadCount(Before(rest, true, true), true, true)
    else if EndsIn(rest, true, false) then ReadCount(Before(rest, true, false), true, false)
    else if EndsIn(rest, false, true) then ReadCount(Before(rest, false, true), false, true)
    else if EndsIn(rest, false, false) then ReadCount(Before(rest, false, false), false, false)
    else None
  }

  /** The text ends with the unit word. */
  predicate EndsIn(rest: string, days: bool, plural: bool)
  {
    var w := UnitWord(days, plural);
    |rest| >= |w| && rest[|rest| - |w|..] == w
  }

  /** What precedes the unit word at the end of the text. */
  function Before(rest: string, days: bool, plural: bool): string
    requires EndsIn(rest, days, plural)
  {
    rest[..|rest| - |UnitWord(days, plural)|]
  }

  /** A count written in digits without leading zeros, that agrees with
      the plural ending. */
  function ReadCount(digits: string, days: bool, plural: bool): Option<Age>
  {
    if |digits| >= 1 && IsDigits(digits) && NatToString(DigitsValue(digits)) == digits
       && (DigitsValue(digits) > 1 <==> plural) then
      Some(if days then Days(DigitsValue(digits)) else Hours(DigitsValue(digits)))
    else None
  }

  /** Reads back what a text says. */
  function ReadAge(s: string): (r: Option<Age>)
    ensures r.Some? ==> AgeText(r.value) == s
  {
    if s == MinutesText then Some(Minutes)
    else if |s| >= 5 && s[..5] == "Hace " then
      var r := ReadUnit(s[5..]);
      if r.Some? then
        ReadAgeSound(s, r.value);
        r
      else None
    else None
  }

  /** What `ReadUnit` found reassembles to the text. */
  lemma ReadAgeSound(s: string, a: Age)
    requires |s| >= 5 && s[..5] == "Hace " && ReadUnit(s[5..]) == Some(a)
    ensures AgeText(a) == s
  {
    var rest := s[5..];
    assert s == "Hace " + rest;
    ReadUnitSound(rest, a);
  }

  /** What `ReadUnit` found, after "Hace ", reassembles to the text. */
  lemma ReadUnitSound(rest: string, a: Age)
    requires ReadUnit(rest) == Some(a)
    ensures AgeText(a) == "Hace " + rest
  {
    if EndsIn(rest, true, true) {
      UnitCase(rest, true, true, a);
    } else if EndsIn(rest, true, false) {
      UnitCase(rest, true, false, a);
    } else if EndsIn(rest, false, true) {
      UnitCase(rest, false, true, a);
    } else {
      UnitCase(rest, false, false, a);
    }
  }

  /** One unit word: the count before it and the word write back the text. */
  lemma UnitCase(rest: string, days: bool, plural: bool, a: Age)
    requires EndsIn(rest, days, plural) && ReadCount(Before(rest, days, plural), days, plural) == Some(a)
    ensures AgeText(a) == "Hace " + rest
  {
    var w := UnitWord(days, plural);
    UnitSplit(rest, w);
    CountText(Before(rest, days, plural), days, plural, a);
  }

  /** The unit word with its ending. */
  function UnitWord(days: bool, plural: bool): string
  {
    if days then (if plural then " días" else " día")
    else (if plural then " horas" else " hora")
  }

  /** A count read with its unit and ending writes back as it was read. */
  lemma CountText(d: string, days: bool, plural: bool, a: Age)
    requires ReadCount(d, days, plural) == Some(a)
    ensures AgeText(a) == "Hace " + (d + UnitWord(days, plural))
  {
    assert " día" + "s" == " días";
    assert " hora" + "s" == " horas";
  }

  /** A text ending in a word is what comes before it, then the word. */
  lemma UnitSplit(rest: string, word: string)
    requires |rest| >= |word| && rest[|rest| - |word|..] == word
    ensures rest == rest[..|rest| - |word|] + word
  {
  }

  /** Every text shown reads back as the age it shows, so two distances
      give the same text exactly when they give the same age. */
  lemma TimeAgoRoundTrip(diff: nat)
    ensures ReadAge(TimeAgo(diff)) == Some(AgeOf(diff))
  {
    AgeMeaning(diff);
    var a := AgeOf(diff);
    if !a.Minutes? {
      AgeTextRead(a);
    }
  }

  /** A day or hour text of a positive count reads back as that count. */
  lemma AgeTextRead(a: Age)
    requires !a.Minutes? && a.n >= 1
    ensures ReadAge(AgeText(a)) == Some(a)
  {
    var d := NatToString(a.n);
    var w := UnitWord(a.Days?, a.n > 1);
    var s := AgeText(a);
    AgeTextWord(a);
    assert s == "Hace " + (d + w);
    assert s[5..] == d + w;
    assert s != MinutesText by {
      assert s[5] == d[0];
      assert IsDigit(d[0]);
    }
    ReadWord(d, a.Days?, a.n > 1);
  }

  /** A day or hour text is the count, then the unit word with its ending. */
  lemma AgeTextWord(a: Age)
    requires !a.Minutes?
    ensures AgeText(a) == "Hace " + (NatToString(a.n) + UnitWord(a.Days?, a.n > 1))
  {
    assert " día" + "s" == " días";
    assert " hora" + "s" == " horas";
  }

  /** After a count in digits, the unit word is read as the one written. */
  lemma ReadWord(d: string, days: bool, plural: bool)
    requires |d| >= 1 && IsDigits(d)
    ensures ReadUnit(d + UnitWord(days, plural)) == ReadCount(d, days, plural)
  {
    assert IsDigit(d[|d| - 1]);
    if days && plural {
      ReadDias(d);
    } else if days {
      ReadDia(d);
    } else if plural {
      ReadHoras(d);
    } else {
      ReadHora(d);
    }
  }

  /** "días" is read as a plural day count. */
  lemma ReadDias(d: string)
    ensures ReadUnit(d + " días") == ReadCount(d, true, true)
  {
    var rest := d + " días";
    assert rest[..|rest| - 5] == d;
    assert rest[|rest| - 5..] == " días";
  }

  /** "día" is read as a singular day count. */
  lemma ReadDia(d: string)
    ensures ReadUnit(d + " día") == ReadCount(d, true, false)
  {
    var rest := d + " día";
    assert rest[..|rest| - 4] == d;
    assert rest[|rest| - 4..] == " día";
    assert rest[|rest| - 1] == 'a';
    assert |rest| >= 5 ==> rest[|rest| - 5..][4] == 'a';
  }

  /** "horas" is read as a plural hour count. */
  lemma ReadHoras(d: string)
    ensures ReadUnit(d + " horas") == ReadCount(d, false, true)
  {
    var rest := d + " horas";
    assert rest[..|rest| - 6] == d;
    assert rest[|rest| - 6..] == " horas";
    assert rest[|rest| - 5..][0] == 'h';
    assert rest[|rest| - 4..][0] == 'o';
  }

  /** "hora" is read as a singular hour count, never as "horas". */
  lemma ReadHora(d: string)
    requires |d| >= 1 && IsDigit(d[|d| - 1])
    ensures ReadUnit(d + " hora") == ReadCount(d, false, false)
  {
    var rest := d + " hora";
    assert rest[..|rest| - 5] == d;
    assert rest[|rest| - 5..] == " hora";
    assert rest[|rest| - 5..][1] == 'h';
    assert rest[|rest| - 4..][0] == 'h';
    assert rest[|rest| - 6] == d[|d| - 1];
    assert rest[|rest| - 6..][0] == d[|d| - 1];
  }

  /** The plural "s" of a day or hour text appears exactly when its count
      is more than one. */
  lemma PluralEnding(diff: nat)
    requires !AgeOf(diff).Minutes?
    ensures TimeAgo(diff)[|TimeAgo(diff)| - 1] == 's' <==> AgeOf(diff).n > 1
  {
  }

  // ---------------------------------------------------------- activities

  /** One line of "Actividad reciente". */
  datatype Activity = Activity(user: string, action: string, time: string)

  const RegisteredAction := "completó su registro"

  /** The line for one record. */
  function ActivityOf(e: Employee, now: int): Activity
  {
    Activity(e.nombreCompleto, RegisteredAction, TimeAgo(Distance(now, e.creado)))
  }

  /** The number of lines shown. */
  function RecentCount(all: seq<Employee>): (k: nat)
    ensures k <= 3 && k <= |all|
    ensures k == 3 || k == |all|
  {
    if |all| < 3 then |all| else 3
  }

  /** The three newest records (fewer when there are fewer). */
  function Newest(all: seq<Employee>): (top: seq<Employee>)
    ensures |top| == RecentCount(all)
  {
    SortNewestFirst(all)[..RecentCount(all)]
  }

  /** The newest records are records of the list, newest first, and none
      left out is newer than any of them. */
  lemma NewestAreNewest(all: seq<Employee>)
    ensures multiset(Newest(all)) <= multiset(all)
    ensures NewestFirst(Newest(all))
    ensures forall e, i :: e in multiset(all) - multiset(Newest(all)) && 0 <= i < |Newest(all)| ==>
      e.creado <= Newest(all)[i].creado
  {
    TopOfSorted(SortNewestFirst(all), RecentCount(all), all);
  }

  /** The first `k` of a sorted copy of `all` are records of `all`, sorted,
      and no other record of `all` is newer than any of them. */
  lemma TopOfSorted(s: seq<Employee>, k: nat, all: seq<Employee>)
    requires NewestFirst(s) && k <= |s| && multiset(s) == multiset(all)
    ensures multiset(s[..k]) <= multiset(all)
    ensures NewestFirst(s[..k])
    ensures forall e, i :: e in multiset(all) - multiset(s[..k]) && 0 <= i < k ==> e.creado <= s[..k][i].creado
  {
    assert s == s[..k] + s[k..];
    assert multiset(s) == multiset(s[..k]) + multiset(s[k..]);
    assert multiset(all) - multiset(s[..k]) == multiset(s[k..]);
    SortedSplit(s, k);
  }

  /** In a list sorted newest first, nothing after a cut is newer than
      anything before it, and what comes before is sorted. */
  lemma SortedSplit(s: seq<Employee>, k: nat)
    requires NewestFirst(s) && k <= |s|
    ensures NewestFirst(s[..k])
    ensures forall e, i :: e in multiset(s[k..]) && 0 <= i < k ==> e.creado <= s[..k][i].creado
  {
    forall e, i | e in multiset(s[k..]) && 0 <= i < k
      ensures e.creado <= s[..k][i].creado
    {
      var j :| 0 <= j < |s[k..]| && s[k..][j] == e;
      assert s[k + j] == e;
    }
  }

  /** The lines of "Actividad reciente". */
  function RecentActivities(all: seq<Employee>, now: int): (r: seq<Activity>)
    ensures |r| == RecentCount(all)
    ensures forall i :: 0 <= i < |r| ==> r[i] == ActivityOf(Newest(all)[i], now)
  {
    var top := Newest(all);
    seq(|top|, i requires 0 <= i < |top| => ActivityOf(top[i], now))
  }

  // ------------------------------------------------------------ the page

  /** The dashboard's state. */
  class Page {
    var employees: seq<Employee>
    var totalEmployees: nat
    var totalContracts: nat
    var recentActivities: seq<Activity>

    constructor ()
      ensures employees == [] && totalEmployees == 0 && totalContracts == 0 && recentActivities == []
    {
      employees, totalEmployees, totalContracts, recentActivities := [], 0, 0, [];
    }

    /** `loadData`, once both years have arrived: the 2024 records, then
        the 2025 ones. */
    method LoadData(e2024: seq<Employee>, e2025: seq<Employee>, now: int)
      modifies this
      ensures employees == e2024 + e2025
      ensures totalEmployees == TotalEmployees(employees) && totalContracts == |employees|
      ensures totalEmployees <= totalContracts
      ensures recentActivities == RecentActivities(employees, now)
    {
      var all := e2024 + e2025;
      employees := all;
      totalEmployees := TotalEmployees(all);
      totalContracts := |all|;
      recentActivities := RecentActivities(all, now);
    }
  }
}
