/** The `importar_excel` command (trabajadores/management/commands/importar_excel.py):
    it picks a sheet, finds where the data starts, reads every row from
    there by fixed column positions, and stores one worker with its yearly
    rows and its twelve monthly schedule rows per data row, inside one
    transaction per row. */
module Importar {
  import opened Wrappers
  import opened Text
  import opened Dates
  import opened Money
  import opened Cells
  import opened Coercion
  import opened Sheets
  import opened Trabajadores
  import opened Contratacion
  import opened Registros
  import opened Proyectos
  import opened Cronograma
  import opened Store

  // ------------------------------------------------------- sheet choice

  /** The last two characters of a text, or all of it when shorter
      (Python's `s[-2:]`). */
  function LastTwo(s: string): (r: string)
    ensures |r| == if |s| < 2 then |s| else 2
    ensures r == s[|s| - |r|..]
  {
    if |s| < 2 then s else s[|s| - 2..]
  }

  /** The sheet names tried for a year, in order. */
  function SheetCandidates(anio: int): (names: seq<string>)
    ensures |names| == 3
  {
    var y := IntToString(anio);
    ["NOVEDADES " + y, "NOVEDADES " + y + " (2)", "NOVEDADES " + LastTwo(y)]
  }

  /** Which sheet the import reads: a name, a requested or detected name the
      book lacks, or no sheet at all (indexing an empty list of sheets
      raises, and the command reports the error). */
  datatype SheetChoice = Use(name: string) | Missing(name: string) | NoSheets

  /** Python truthiness of the `--sheet` option. */
  predicate Requested(sheet: Option<string>)
  {
    sheet.Some? && sheet.value != ""
  }

  /** The sheet the import reads, candidate by candidate in priority order. */
  function SheetChoiceOf(names: seq<string>, anio: int, sheet: Option<string>): (c: SheetChoice)
    ensures c.Use? ==> c.name in names
    ensures c.Missing? ==> Requested(sheet) && c.name == sheet.value && c.name !in names
    ensures c.NoSheets? <==> !Requested(sheet) && names == []
  {
    var cands := SheetCandidates(anio);
    if Requested(sheet) then
      if sheet.value in names then Use(sheet.value) else Missing(sheet.value)
    else if cands[0] in names then Use(cands[0])
    else if cands[1] in names then Use(cands[1])
    else if cands[2] in names then Use(cands[2])
    else if names == [] then NoSheets
    else Use(names[0])
  }

  /** The sheet choice: a requested sheet is used when the book has it; with
      no request, the first of the year's candidates the book has, else the
      book's first sheet. */
  method ChooseSheet(names: seq<string>, anio: int, sheet: Option<string>) returns (c: SheetChoice)
    ensures c == SheetChoiceOf(names, anio, sheet)
    ensures Requested(sheet) ==> c == if sheet.value in names then Use(sheet.value) else Missing(sheet.value)
    ensures !Requested(sheet) && c.Use? ==>
      (exists i :: 0 <= i < 3 && c.name == SheetCandidates(anio)[i] && c.name in names
                   && forall j :: 0 <= j < i ==> SheetCandidates(anio)[j] !in names)
      || ((forall i :: 0 <= i < 3 ==> SheetCandidates(anio)[i] !in names) && names != [] && c.name == names[0])
    ensures !Requested(sheet) ==> !c.Missing?
    ensures !Requested(sheet) ==> (c.NoSheets? <==> names == [])
    ensures c.Use? ==> c.name in names
  {
    var chosen: string;
    if Requested(sheet) {
      chosen := sheet.value;
    } else {
      var candidates := SheetCandidates(anio);
      var found := FirstPresent(candidates, names);
      if found.Some? {
        chosen := candidates[found.value];
      } else if names == [] {
        return NoSheets;
      } else {
        chosen := names[0];
      }
    }
    if chosen in names {
      c := Use(chosen);
    } else {
      c := Missing(chosen);
    }
    SheetChoiceMeaning(names, anio, sheet);
  }

  /** The choice honours a request; without one it is the first candidate
      present, or else the first sheet. */
  lemma SheetChoiceMeaning(names: seq<string>, anio: int, sheet: Option<string>)
    ensures var c := SheetChoiceOf(names, anio, sheet);
      (Requested(sheet) ==> c == if sheet.value in names then Use(sheet.value) else Missing(sheet.value))
      && (!Requested(sheet) && c.Use? ==>
        (exists i :: 0 <= i < 3 && c.name == SheetCandidates(anio)[i] && c.name in names
                     && forall j :: 0 <= j < i ==> SheetCandidates(anio)[j] !in names)
        || ((forall i :: 0 <= i < 3 ==> SheetCandidates(anio)[i] !in names) && names != [] && c.name == names[0]))
  {
    var cands := SheetCandidates(anio);
    var c := SheetChoiceOf(names, anio, sheet);
    if !Requested(sheet) && c.Use? {
      if cands[0] in names {
        assert c.name == cands[0];
      } else if cands[1] in names {
        assert c.name == cands[1];
      } else if cands[2] in names {
        assert c.name == cands[2];
      }
    }
  }

  // ---------------------------------------------------- where data starts

  /** `str(row[0].value).strip() if row[0].value else ""`. */
  function MarkerText(c: Cell): string
  {
    if Truthy(c) then Strip(CellText(c)) else ""
  }

  /** The header cell that marks the data: `N°` (data on the next row) or
      a number (data on this row). */
  predicate IsMarker(t: string)
  {
    t != "" && (t == "N°" || IsDigits(t))
  }

  /** The first cell of row `r` (counted from 1); rows past the end of the
      sheet are empty. */
  function FirstCell(rows: seq<seq<Cell>>, r: int): Cell
  {
    if 1 <= r <= |rows| && |rows[r - 1]| > 0 then rows[r - 1][0] else Empty
  }

  /** The header text of row `r`. */
  function Marker(rows: seq<seq<Cell>>, r: int): string
  {
    MarkerText(FirstCell(rows, r))
  }

  /** Row `r` carries the marker. */
  predicate MarkedRow(rows: seq<seq<Cell>>, r: int)
  {
    IsMarker(Marker(rows, r))
  }

  /** Row `r` is the first of rows 1 to 10 to carry the marker. */
  predicate FirstMarked(rows: seq<seq<Cell>>, r: int)
  {
    1 <= r <= 10 && MarkedRow(rows, r) && forall q :: 1 <= q < r ==> !MarkedRow(rows, q)
  }

  /** Where the data starts when the marker is on row `r`. */
  function StartAfter(rows: seq<seq<Cell>>, r: int): int
  {
    if Marker(rows, r) == "N°" then r + 1 else r
  }

  /** The data start: the first marked row among rows 1 to 10 decides it,
      one row further on for `N°`; without a marked row there is none. */
  method FindDataStart(rows: seq<seq<Cell>>) returns (start: Option<int>)
    ensures start.None? <==> forall r :: 1 <= r <= 10 ==> !MarkedRow(rows, r)
    ensures start.Some? ==> exists r :: FirstMarked(rows, r) && start.value == StartAfter(rows, r)
    ensures start.Some? ==> 1 <= start.value <= 11
  {
    var r := 1;
    while r <= 10
      invariant 1 <= r <= 11
      invariant forall q :: 1 <= q < r ==> !MarkedRow(rows, q)
    {
      var text := Marker(rows, r);
      if IsMarker(text) {
        assert FirstMarked(rows, r);
        if text == "N°" {
          return Some(r + 1);
        } else {
          return Some(r);
        }
      }
      UnmarkedExtend(rows, r);
      r := r + 1;
    }
    return None;
  }

  /** One more unmarked row extends the unmarked prefix. */
  lemma UnmarkedExtend(rows: seq<seq<Cell>>, r: int)
    requires forall q :: 1 <= q < r ==> !MarkedRow(rows, q)
    requires !MarkedRow(rows, r)
    ensures forall q :: 1 <= q < r + 1 ==> !MarkedRow(rows, q)
  {
    forall q | 1 <= q < r + 1
      ensures !MarkedRow(rows, q)
    {
      if q == r {
        assert !MarkedRow(rows, r);
      }
    }
  }

  // ------------------------------------------------------ date inference

  /** The last year an estimated issue date may fall in. */
  const LastEstimatedYear := 2025

  /** The birth and issue dates stored for a worker. */
  datatype IdDates = IdDates(nacimiento: CalendarDate, expedicion: CalendarDate)

  /** Missing birth and issue dates estimated from each other. None is the
      ValueError `replace(year=…)` raises for a day the target year lacks. */
  function InferDates(nac: Option<CalendarDate>, exp: Option<CalendarDate>): (r: Option<IdDates>)
    ensures r.Some? && nac.Some? ==> r.value.nacimiento == nac.value
    ensures r.Some? && exp.Some? ==> r.value.expedicion == exp.value
    ensures nac.None? && exp.None? ==> r == Some(IdDates(Date(1982, 1, 1), Date(2000, 1, 1)))
    ensures r.Some? && nac.Some? && exp.None? ==>
      var b, e := nac.value, r.value.expedicion;
      if b.year + 18 <= LastEstimatedYear then e == Date(b.year + 18, b.month, b.day) else e == b
    ensures r.Some? && nac.None? && exp.Some? ==>
      var e, b := exp.value, r.value.nacimiento;
      b == Date(e.year - 18, e.month, e.day)
  {
    if nac.Some? && exp.Some? then Some(IdDates(nac.value, exp.value))
    else if nac.Some? then
      var b := nac.value;
      if b.year + 18 <= LastEstimatedYear then
        match ReplaceYear(b, b.year + 18)
        case None => None
        case Some(e) => Some(IdDates(b, e))
      else Some(IdDates(b, b))
    else if exp.Some? then
      var e := exp.value;
      match ReplaceYear(e, e.year - 18)
      case None => None
      case Some(b) => Some(IdDates(b, e))
    else Some(IdDates(Date(1982, 1, 1), Date(2000, 1, 1)))
  }

  /** 29 February. */
  predicate LeapDay(d: Date)
  {
    d.month == 2 && d.day == 29
  }

  /** Inference fails exactly when the one date given is 29 February and
      must be moved by 18 years, or when the issue date is in year 18 or
      earlier (there is no year 0). */
  lemma InferDatesFails(nac: Option<CalendarDate>, exp: Option<CalendarDate>)
    ensures InferDates(nac, exp).None? <==>
      (nac.Some? && exp.None? && nac.value.year + 18 <= LastEstimatedYear && LeapDay(nac.value))
      || (nac.None? && exp.Some? && (exp.value.year <= 18 || LeapDay(exp.value)))
  {
    if nac.Some? && exp.None? && nac.value.year + 18 <= LastEstimatedYear && LeapDay(nac.value) {
      Feb29ShiftFails(nac.value, 18);
    }
    if nac.None? && exp.Some? && exp.value.year > 18 && LeapDay(exp.value) {
      Feb29ShiftFails(exp.value, -18);
    }
  }

  // ------------------------------------------------------ column helpers

  /** A text field: `str()` of what was read (Django stores `str(value)` in
      a character field, also for a date), "" for an empty cell. */
  function TextOf(v: Value): string
  {
    PyStr(v)
  }

  /** `x if x else 0` for a parsed amount. */
  function AmountOrZero(o: Option<Decimal>): (r: Decimal)
    ensures o.Some? && !IsZero(o.value) ==> r == o.value
    ensures o.None? || IsZero(o.value) ==> r == Zero
  {
    if o.Some? && !IsZero(o.value) then o.value else Zero
  }

  /** `x if x else 0` for a parsed integer. */
  function IntOrZero(o: Option<int>): (r: int)
    ensures o.Some? ==> r == o.value
    ensures o.None? ==> r == 0
  {
    if o.Some? then o.value else 0
  }

  /** The base municipality of the contract: stripped and upper-cased; a
      date has no `strip()` and raises (None). */
  function BaseMunicipio(v: Value): (r: Option<string>)
    ensures r.None? <==> v.Stamp?
    ensures v.Plain? ==> r == Some(Upper(Strip(v.s)))
  {
    match v
    case Stamp(_) => None
    case Plain(s) => Some(if s != "" then Upper(Strip(s)) else "")
  }

  /** The ARL, upper-cased; a date raises (None). */
  function ArlText(v: Value): (r: Option<string>)
    ensures r.None? <==> v.Stamp?
    ensures v.Plain? ==> r == Some(Upper(v.s))
  {
    match v
    case Stamp(_) => None
    case Plain(s) => Some(if s != "" then Upper(s) else "")
  }

  /** The monthly municipality: "N/A" and "X", in any case, mean none and
      are stored as ""; any other value is upper-cased; a date raises. */
  function MonthMunicipio(v: Value): (r: Option<string>)
    ensures r.None? <==> v.Stamp?
    ensures v.Plain? && Upper(v.s) in ["N/A", "X"] ==> r == Some("")
    ensures v.Plain? && Upper(v.s) !in ["N/A", "X"] ==> r == Some(Upper(v.s))
  {
    match v
    case Stamp(_) => None
    case Plain(s) => Some(if s != "" && Upper(s) in ["N/A", "X"] then "" else Upper(s))
  }

  /** Every spelling of "n/a" and "x" is cleared. */
  lemma NoMunicipioAnyCase(s: string)
    requires Upper(s) == "N/A" || Upper(s) == "X"
    ensures MonthMunicipio(Plain(s)) == Some("")
  {
  }

  // ---------------------------------------------------------- the months

  /** The first column index of month `m`'s four cells (municipality,
      contribution salary, days worked, salary earned). */
  function MonthColumn(m: int): (c: int)
    requires 1 <= m <= 12
    ensures 37 <= c && c + 3 <= 84
  {
    37 + 4 * (m - 1)
  }

  /** The twelve slots do not overlap and cover columns 37 to 84. */
  lemma MonthSlots(m1: int, m2: int, k1: int, k2: int)
    requires 1 <= m1 <= 12 && 1 <= m2 <= 12 && 0 <= k1 < 4 && 0 <= k2 < 4
    ensures MonthColumn(m1) + k1 == MonthColumn(m2) + k2 ==> m1 == m2 && k1 == k2
    ensures 37 <= MonthColumn(m1) + k1 <= 84
  {
  }

  /** Every column from 37 to 84 belongs to a month slot. */
  lemma MonthSlotsCover(c: int)
    requires 37 <= c <= 84
    ensures var m := (c - 37) / 4 + 1; 1 <= m <= 12 && MonthColumn(m) <= c < MonthColumn(m) + 4
  {
  }

  /** Month `m`'s municipality cell holds a date. */
  predicate DatedMonth(row: seq<Cell>, m: int)
    requires 1 <= m <= 12
  {
    GetCellValue(row, MonthColumn(m)).Stamp?
  }

  /** One month of schedule data read from a row. */
  datatype MonthEntry = MonthEntry(mes: CalendarDate, municipio: string, salario: Decimal, dias: int, sueldo: Decimal)

  /** Month `m` of a row; None when its municipality cell holds a date. */
  function ParseMonth(row: seq<Cell>, anio: int, m: int): (r: Option<MonthEntry>)
    requires 1 <= anio <= 9999 && 1 <= m <= 12
    ensures r.Some? ==> r.value.mes == Date(anio, m, 1)
    ensures r.None? <==> DatedMonth(row, m)
  {
    var col := MonthColumn(m);
    match MonthMunicipio(GetCellValue(row, col))
    case None => None
    case Some(municipio) =>
      Some(MonthEntry(Date(anio, m, 1), municipio,
        AmountOrZero(ParseDecimal(GetCellValue(row, col + 1))),
        IntOrZero(ParseInt(GetCellValue(row, col + 2))),
        AmountOrZero(ParseDecimal(GetCellValue(row, col + 3)))))
  }

  /** The months in the order of the loop over `meses_config`: month
      `i + 1` at index `i`. */
  function ReadMonths(row: seq<Cell>, anio: int): (ps: seq<Option<MonthEntry>>)
    requires 1 <= anio <= 9999
    ensures |ps| == 12
  {
    seq(12, i requires 0 <= i < 12 => ParseMonth(row, anio, i + 1))
  }

  /** The entries when every step succeeded; None as soon as one raised. */
  function Collect<T>(ps: seq<Option<T>>): (r: Option<seq<T>>)
    ensures r.Some? <==> forall i :: 0 <= i < |ps| ==> ps[i].Some?
    ensures r.Some? ==> |r.value| == |ps| && forall i :: 0 <= i < |ps| ==> r.value[i] == ps[i].value
  {
    if ps == [] then Some([])
    else
      match ps[0]
      case None => None
      case Some(e) =>
        match Collect(ps[1..])
        case None =>
          assert exists i :: 0 <= i < |ps[1..]| && ps[1..][i].None?;
          None
        case Some(rest) =>
          assert forall i :: 1 <= i < |ps| ==> ps[i] == ps[1..][i - 1];
          Some([e] + rest)
  }

  /** Twelve entries, one per month of `anio`, in calendar order. */
  predicate MonthsOfYear(ms: seq<MonthEntry>, anio: int)
  {
    |ms| == 12 && forall i :: 0 <= i < 12 ==> ms[i].mes == Date(anio, i + 1, 1)
  }

  /** The twelve months of a row; `datetime(anio, m, 1)` raises for a year
      outside 1..9999. */
  function ParseMonths(row: seq<Cell>, anio: int): (r: Option<seq<MonthEntry>>)
    ensures !(1 <= anio <= 9999) ==> r.None?
    ensures r.Some? ==> 1 <= anio <= 9999 && MonthsOfYear(r.value, anio)
  {
    if 1 <= anio <= 9999 then Collect(ReadMonths(row, anio)) else None
  }

  /** A collection that failed has a step that raised. */
  lemma CollectFailed<T>(ps: seq<Option<T>>) returns (i: int)
    requires Collect(ps).None?
    ensures 0 <= i < |ps| && ps[i].None?
  {
    i :| 0 <= i < |ps| && ps[i].None?;
  }

  /** The months of a valid year fail only when one of their municipality
      cells holds a date. */
  lemma MonthsFailDated(row: seq<Cell>, anio: int)
    requires 1 <= anio <= 9999 && ParseMonths(row, anio).None?
    ensures exists m :: 1 <= m <= 12 && DatedMonth(row, m)
  {
    var k := CollectFailed(ReadMonths(row, anio));
    MonthDated(row, anio, k);
  }

  /** A month that cannot be read has a date in its municipality cell. */
  lemma MonthDated(row: seq<Cell>, anio: int, k: int)
    requires 1 <= anio <= 9999 && 0 <= k < 12 && ReadMonths(row, anio)[k].None?
    ensures DatedMonth(row, k + 1)
  {
    MonthIndex(row, anio, k);
  }

  /** Month `k + 1` sits at index `k`. */
  lemma MonthIndex(row: seq<Cell>, anio: int, k: int)
    requires 1 <= anio <= 9999 && 0 <= k < 12
    ensures ReadMonths(row, anio)[k] == ParseMonth(row, anio, k + 1)
  {
  }

  /** A municipality cell holding a date fails the months of any year. */
  lemma DatedMonthFails(row: seq<Cell>, anio: int, m: int)
    requires 1 <= anio <= 9999 && 1 <= m <= 12 && DatedMonth(row, m)
    ensures ParseMonths(row, anio).None?
  {
    var k := m - 1;
    assert k + 1 == m;
    MonthIndex(row, anio, k);
  }

  // ------------------------------------------------------------ one row

  /** The worker a row describes; None when date inference raises. */
  function ParseWorker(row: seq<Cell>): (r: Option<Worker>)
    ensures r.None? <==> InferDates(ParseDate(GetCellValue(row, 4)), ParseDate(GetCellValue(row, 3))).None?
    ensures r.Some? ==> r.value.anio == Trabajadores.DefaultYear
  {
    var nac := ParseDate(GetCellValue(row, 4));
    var exp := ParseDate(GetCellValue(row, 3));
    match InferDates(nac, exp)
    case None => None
    case Some(d) =>
      Some(Worker(
        MapTipoIdentificacion(GetCellValue(row, 1)),
        TextOf(GetCellValue(row, 2)),
        d.expedicion,
        d.nacimiento,
        TextOf(GetCellValue(row, 5)),
        Some(TextOf(GetCellValue(row, 6))),
        TextOf(GetCellValue(row, 7)),
        Some(TextOf(GetCellValue(row, 8))),
        Trabajadores.DefaultYear))
  }

  /** The yearly rows and the months a row describes. */
  datatype Facts = Facts(
    contract: Contract,
    onboarding: Onboarding,
    offboarding: Offboarding,
    social: SocialSecurity,
    flags: ProjectFlags,
    months: seq<MonthEntry>)

  /** The contract of a row, given its type and base municipality. */
  function ParseContract(row: seq<Cell>, tipo: ContractType, base: string): Contract
  {
    Contract(tipo, TextOf(GetCellValue(row, 10)), AmountOrZero(ParseDecimal(GetCellValue(row, 11))), base,
      ParseDate(GetCellValue(row, 13)), ParseDate(GetCellValue(row, 14)))
  }

  /** Columns 15-18. */
  function ParseOnboarding(row: seq<Cell>): Onboarding
  {
    Onboarding(ParseDate(GetCellValue(row, 15)), ParseDate(GetCellValue(row, 16)),
      ParseDate(GetCellValue(row, 17)), ParseDate(GetCellValue(row, 18)))
  }

  /** Columns 19-22; the settlement amount is stored as parsed. */
  function ParseOffboarding(row: seq<Cell>): Offboarding
  {
    Offboarding(ParseDate(GetCellValue(row, 19)), ParseDate(GetCellValue(row, 20)),
      ParseDecimal(GetCellValue(row, 21)), ParseDate(GetCellValue(row, 22)))
  }

  /** Columns 23-29, given the upper-cased ARL; the risk class and its date
      are not read. */
  function ParseSocial(row: seq<Cell>, arl: string): SocialSecurity
  {
    SocialSecurity(Some(TextOf(GetCellValue(row, 23))), ParseDate(GetCellValue(row, 24)),
      Some(TextOf(GetCellValue(row, 25))), ParseDate(GetCellValue(row, 26)),
      Some(TextOf(GetCellValue(row, 27))), ParseDate(GetCellValue(row, 28)),
      Some(arl), None, None)
  }

  /** Columns 32-36. */
  function ParseFlags(row: seq<Cell>): ProjectFlags
  {
    ProjectFlags(ParseBool(GetCellValue(row, 32)), ParseBool(GetCellValue(row, 33)),
      ParseBool(GetCellValue(row, 34)), ParseBool(GetCellValue(row, 35)), ParseBool(GetCellValue(row, 36)))
  }

  /** Everything after the worker; None when one of the steps raises: a date
      in the contract type, base municipality, ARL or a monthly
      municipality, or a year without a calendar. */
  function ParseFacts(row: seq<Cell>, anio: int): (r: Option<Facts>)
    ensures r.None? <==> GetCellValue(row, 9).Stamp? || GetCellValue(row, 12).Stamp? || GetCellValue(row, 29).Stamp?
                         || ParseMonths(row, anio).None?
    ensures r.Some? ==> 1 <= anio <= 9999 && MonthsOfYear(r.value.months, anio)
  {
    var tipo := MapTipoContrato(GetCellValue(row, 9));
    var base := BaseMunicipio(GetCellValue(row, 12));
    var arl := ArlText(GetCellValue(row, 29));
    var months := ParseMonths(row, anio);
    if tipo.None? || base.None? || arl.None? || months.None? then None
    else
      Some(Facts(ParseContract(row, tipo.value, base.value), ParseOnboarding(row), ParseOffboarding(row),
        ParseSocial(row, arl.value), ParseFlags(row), months.value))
  }

  /** What one row comes to: skipped (no number in the first column), failed
      (rolled back; `created` tells whether the worker had already been
      counted), or parsed. */
  datatype Outcome = Skip | Failed(created: bool) | Parsed(worker: Worker, facts: Facts)

  /** One data row. */
  function ParseRow(row: seq<Cell>, anio: int): (r: Outcome)
    ensures r.Skip? <==> Falsy(GetCellValue(row, 0))
    ensures r == Failed(false) <==> !Falsy(GetCellValue(row, 0)) && ParseWorker(row).None?
    ensures r.Parsed? ==> 1 <= anio <= 9999 && MonthsOfYear(r.facts.months, anio)
  {
    if Falsy(GetCellValue(row, 0)) then Skip
    else
      match ParseWorker(row)
      case None => Failed(false)
      case Some(w) =>
        match ParseFacts(row, anio)
        case None => Failed(true)
        case Some(f) => Parsed(w, f)
  }

  /** A row whose worker is stored but whose months cannot be dated fails
      after the worker was counted. */
  lemma BadYearFails(row: seq<Cell>, anio: int)
    requires !Falsy(GetCellValue(row, 0)) && ParseWorker(row).Some?
    requires !(1 <= anio <= 9999)
    ensures ParseRow(row, anio) == Failed(true)
  {
  }

  // ------------------------------------------------------------- storing

  /** The schedule table after storing `months` for worker `id`, in order. */
  function WithMonths(s: map<(nat, CalendarDate), ScheduleRow>, id: nat, months: seq<MonthEntry>): map<(nat, CalendarDate), ScheduleRow>
    decreases |months|
  {
    if months == [] then s
    else
      var e := months[|months| - 1];
      WithMonths(s, id, months[..|months| - 1])[(id, e.mes) := StoredRow(e.mes, e.municipio, e.salario, e.dias, e.sueldo)]
  }

  /** The tables after storing a parsed row as worker number |workers| + 1
      for year `anio`. */
  function Saved(t: Tables, w: Worker, f: Facts, anio: int): Tables
  {
    var id := |t.workers| + 1;
    var prior := if (id, anio) in t.socials then Some(t.socials[(id, anio)]) else None;
    Tables(
      t.workers + [w],
      t.contracts[(id, anio) := f.contract],
      t.onboardings[(id, anio) := f.onboarding],
      t.offboardings[(id, anio) := f.offboarding],
      t.socials[(id, anio) := MergedSocial(prior, f.social)],
      t.projects[(id, anio) := f.flags],
      WithMonths(t.schedules, id, f.months))
  }

  /** The tables after one row: a skipped or failed row leaves them as they
      were (the transaction is rolled back). */
  function Step(t: Tables, row: seq<Cell>, anio: int): Tables
  {
    match ParseRow(row, anio)
    case Parsed(w, f) => Saved(t, w, f, anio)
    case _ => t
  }

  /** The tables after the rows, in order. */
  function Imported(t: Tables, rows: seq<seq<Cell>>, anio: int): Tables
    decreases |rows|
  {
    if rows == [] then t else Step(Imported(t, rows[..|rows| - 1], anio), rows[|rows| - 1], anio)
  }

  /** `trabajadores_creados` as the command counts it: it is raised right
      after the worker is created, so a row that fails later still counts. */
  function CreatedCount(rows: seq<seq<Cell>>, anio: int): nat
    decreases |rows|
  {
    if rows == [] then 0
    else
      var o := ParseRow(rows[|rows| - 1], anio);
      CreatedCount(rows[..|rows| - 1], anio) + (if o.Parsed? || o == Failed(true) then 1 else 0)
  }

  /** `errores`: the rows that failed. */
  function ErrorCount(rows: seq<seq<Cell>>, anio: int): nat
    decreases |rows|
  {
    if rows == [] then 0
    else ErrorCount(rows[..|rows| - 1], anio) + (if ParseRow(rows[|rows| - 1], anio).Failed? then 1 else 0)
  }

  /** The workers of the rows that were stored, in row order. */
  function KeptWorkers(rows: seq<seq<Cell>>, anio: int): seq<Worker>
    decreases |rows|
  {
    if rows == [] then []
    else
      KeptWorkers(rows[..|rows| - 1], anio) +
        match ParseRow(rows[|rows| - 1], anio)
        case Parsed(w, _) => [w]
        case _ => []
  }

  /** Stores one parsed row: the worker, then its yearly rows, then the
      twelve months in order, as the command's sequence of `create` and
      `update_or_create` calls does. */
  method StoreRow(db: Database, w: Worker, f: Facts, anio: int)
    modifies db
    ensures db.State() == Saved(old(db.State()), w, f, anio)
  {
    var id := db.CreateWorker(w);
    db.PutContract(id, anio, f.contract);
    db.PutOnboarding(id, anio, f.onboarding);
    db.PutOffboarding(id, anio, f.offboarding);
    db.PutSocial(id, anio, f.social);
    db.PutProject(id, anio, f.flags);
    StoreMonths(db, id, f.months);
  }

  /** The loop over the row's months: one schedule row each, in order. */
  method StoreMonths(db: Database, id: nat, months: seq<MonthEntry>)
    modifies db
    ensures db.State() == old(db.State()).(schedules := WithMonths(old(db.State()).schedules, id, months))
  {
    var i := 0;
    while i < |months|
      invariant 0 <= i <= |months|
      invariant db.State() == old(db.State()).(schedules := WithMonths(old(db.State()).schedules, id, months[..i]))
    {
      var e := months[i];
      db.PutSchedule(id, e.mes, e.municipio, e.salario, e.dias, e.sueldo);
      assert months[..i + 1][..i] == months[..i];
      i := i + 1;
    }
    assert months[..i] == months;
  }

  /** The row loop: every row is parsed and, when it parses, stored;
      `creados` and `errores` are the command's counters. */
  method ImportRows(db: Database, rows: seq<seq<Cell>>, anio: int) returns (creados: nat, errores: nat)
    modifies db
    ensures db.State() == Imported(old(db.State()), rows, anio)
    ensures creados == CreatedCount(rows, anio) && errores == ErrorCount(rows, anio)
  {
    creados, errores := 0, 0;
    var i := 0;
    while i < |rows|
      invariant 0 <= i <= |rows|
      invariant db.State() == Imported(old(db.State()), rows[..i], anio)
      invariant creados == CreatedCount(rows[..i], anio) && errores == ErrorCount(rows[..i], anio)
    {
      var created, failed := ProcessRow(db, rows[i], anio);
      RowsStep(old(db.State()), rows, i, anio);
      if created {
        creados := creados + 1;
      }
      if failed {
        errores := errores + 1;
      }
      i := i + 1;
    }
    assert rows[..i] == rows;
  }

  /** One pass of the row loop: the row is parsed and, when it parses,
      stored; `created` and `failed` say which counters it raises. */
  method ProcessRow(db: Database, row: seq<Cell>, anio: int) returns (created: bool, failed: bool)
    modifies db
    ensures db.State() == Step(old(db.State()), row, anio)
    ensures created <==> ParseRow(row, anio).Parsed? || ParseRow(row, anio) == Failed(true)
    ensures failed <==> ParseRow(row, anio).Failed?
  {
    match ParseRow(row, anio) {
      case Skip =>
        created, failed := false, false;
      case Failed(c) =>
        created, failed := c, true;
      case Parsed(w, f) =>
        StoreRow(db, w, f, anio);
        created, failed := true, false;
    }
  }

  /** The tables and counters after row `i` follow from those before it. */
  lemma RowsStep(t: Tables, rows: seq<seq<Cell>>, i: int, anio: int)
    requires 0 <= i < |rows|
    ensures Imported(t, rows[..i + 1], anio) == Step(Imported(t, rows[..i], anio), rows[i], anio)
    ensures CreatedCount(rows[..i + 1], anio) == CreatedCount(rows[..i], anio)
      + (if ParseRow(rows[i], anio).Parsed? || ParseRow(rows[i], anio) == Failed(true) then 1 else 0)
    ensures ErrorCount(rows[..i + 1], anio) == ErrorCount(rows[..i], anio)
      + (if ParseRow(rows[i], anio).Failed? then 1 else 0)
  {
    assert rows[..i + 1][..i] == rows[..i];
  }

  // ------------------------------------------------------ the whole file

  /** A sheet of the workbook: its title and its rows, from row 1 to
      `max_row`. */
  datatype NamedSheet = NamedSheet(title: string, rows: seq<seq<Cell>>)

  /** `wb.sheetnames`. */
  function Titles(book: seq<NamedSheet>): (names: seq<string>)
    ensures |names| == |book| && forall i :: 0 <= i < |book| ==> names[i] == book[i].title
  {
    if book == [] then [] else Titles(book[..|book| - 1]) + [book[|book| - 1].title]
  }

  /** `wb[name]`: the first sheet with that title. */
  function SheetRows(book: seq<NamedSheet>, name: string): seq<seq<Cell>>
    requires name in Titles(book)
  {
    book[IndexOf(Titles(book), name)].rows
  }

  /** `ws.iter_rows(min_row=start)`: the rows from `start` on. */
  function DataRows(rows: seq<seq<Cell>>, start: int): (r: seq<seq<Cell>>)
    requires start >= 1
    ensures start - 1 <= |rows| ==> r == rows[start - 1..]
    ensures start - 1 > |rows| ==> r == []
  {
    if start - 1 <= |rows| then rows[start - 1..] else []
  }

  /** How the command ends: the file is missing, the sheet is missing, the
      workbook has no sheet at all (the error is caught and reported), no
      data start was found, or the rows were imported. */
  datatype Report =
    | NoFile
    | NoSheet(name: string)
    | Crashed
    | NoDataStart
    | Done(sheet: string, start: int, creados: nat, actualizados: nat, errores: nat)

  /** `handle`: checks the file, chooses the sheet, finds the data start and
      imports every row from there. Only a finished import changes the
      database, and no worker is ever reported as updated. */
  method Handle(db: Database, fileExists: bool, book: seq<NamedSheet>, anio: int, sheet: Option<string>) returns (rep: Report)
    modifies db
    ensures !fileExists ==> rep == NoFile
    ensures !rep.Done? ==> db.State() == old(db.State())
    ensures rep.Crashed? ==> !Requested(sheet) && book == []
    ensures rep.NoSheet? ==> rep.name !in Titles(book)
    ensures rep.Done? ==> rep.sheet in Titles(book) && rep.actualizados == 0 && rep.start >= 1
    ensures rep.Done? && Requested(sheet) ==> rep.sheet == sheet.value
    ensures rep.Done? ==> exists r :: FirstMarked(SheetRows(book, rep.sheet), r) && rep.start == StartAfter(SheetRows(book, rep.sheet), r)
    ensures rep.NoDataStart? ==> exists name :: name in Titles(book) && forall r :: 1 <= r <= 10 ==> !MarkedRow(SheetRows(book, name), r)
    ensures fileExists ==>
      var choice := SheetChoiceOf(Titles(book), anio, sheet);
      (choice.NoSheets? ==> rep == Crashed)
      && (choice.Missing? ==> rep == NoSheet(choice.name))
      && (choice.Use? ==>
            (rep.NoDataStart? <==> forall r :: 1 <= r <= 10 ==> !MarkedRow(SheetRows(book, choice.name), r))
            && (rep.NoDataStart? || (rep.Done? && rep.sheet == choice.name)))
    ensures rep.Done? ==>
      var rows := DataRows(SheetRows(book, rep.sheet), rep.start);
      db.State() == Imported(old(db.State()), rows, anio)
      && rep.creados == CreatedCount(rows, anio) && rep.errores == ErrorCount(rows, anio)
  {
    if !fileExists {
      return NoFile;
    }
    var names := Titles(book);
    var choice := ChooseSheet(names, anio, sheet);
    match choice {
      case NoSheets =>
        return Crashed;
      case Missing(name) =>
        return NoSheet(name);
      case Use(name) =>
        var rows := SheetRows(book, name);
        var start := FindDataStart(rows);
        if start.None? {
          return NoDataStart;
        }
        var creados, errores := ImportRows(db, DataRows(rows, start.value), anio);
        return Done(name, start.value, creados, 0, errores);
    }
  }

  // ------------------------------------------------------------- lemmas

  /** The months only add rows of worker `id`; other rows stay as they were. */
  lemma {:induction false} WithMonthsFrame(s: map<(nat, CalendarDate), ScheduleRow>, id: nat, months: seq<MonthEntry>)
    ensures forall k :: k in WithMonths(s, id, months) ==> k in s || k.0 == id
    ensures forall k :: k in s && k.0 != id ==> k in WithMonths(s, id, months) && WithMonths(s, id, months)[k] == s[k]
    decreases |months|
  {
    if months != [] {
      WithMonthsFrame(s, id, months[..|months| - 1]);
    }
  }

  /** With distinct months, every month gets its own row of worker `id`,
      holding that month's data and whose year is the month's year. */
  lemma {:induction false} WithMonthsRows(s: map<(nat, CalendarDate), ScheduleRow>, id: nat, months: seq<MonthEntry>)
    requires forall i, j :: 0 <= i < j < |months| ==> months[i].mes != months[j].mes
    ensures forall i :: 0 <= i < |months| ==>
      var e := months[i];
      (id, e.mes) in WithMonths(s, id, months) && WithMonths(s, id, months)[(id, e.mes)] == ScheduleRow(e.municipio, e.salario, e.dias, e.sueldo, e.mes.year)
    decreases |months|
  {
    if months != [] {
      var init := months[..|months| - 1];
      WithMonthsRows(s, id, init);
      forall i | 0 <= i < |months| - 1
        ensures months[i] == init[i]
      {
      }
    }
  }

  /** The months of one year are distinct. */
  lemma MonthsDistinct(ms: seq<MonthEntry>, anio: int)
    requires MonthsOfYear(ms, anio)
    ensures forall i, j :: 0 <= i < j < |ms| ==> ms[i].mes != ms[j].mes
  {
  }

  /** Storing a parsed row keeps the foreign keys valid. */
  lemma SavedValid(t: Tables, w: Worker, f: Facts, anio: int)
    requires Store.Valid(t)
    ensures Store.Valid(Saved(t, w, f, anio))
  {
    SavedYearlyKnown(t, w, f, anio);
    SavedMonthsKnown(t, w, f, anio);
  }

  /** The yearly rows after storing a row all belong to a stored worker. */
  lemma SavedYearlyKnown(t: Tables, w: Worker, f: Facts, anio: int)
    requires Store.Valid(t)
    ensures var u := Saved(t, w, f, anio);
      (forall k :: k in u.contracts ==> Store.Known(u, k.0))
      && (forall k :: k in u.onboardings ==> Store.Known(u, k.0))
      && (forall k :: k in u.offboardings ==> Store.Known(u, k.0))
      && (forall k :: k in u.socials ==> Store.Known(u, k.0))
      && (forall k :: k in u.projects ==> Store.Known(u, k.0))
  {
  }

  /** The schedule rows after storing a row all belong to a stored worker. */
  lemma SavedMonthsKnown(t: Tables, w: Worker, f: Facts, anio: int)
    requires Store.Valid(t)
    ensures var u := Saved(t, w, f, anio); forall k :: k in u.schedules ==> Store.Known(u, k.0)
  {
    WithMonthsFrame(t.schedules, |t.workers| + 1, f.months);
  }

  /** Importing any rows keeps the foreign keys valid. */
  lemma {:induction false} ImportedValid(t: Tables, rows: seq<seq<Cell>>, anio: int)
    requires Store.Valid(t)
    ensures Store.Valid(Imported(t, rows, anio))
    decreases |rows|
  {
    if rows != [] {
      var before := Imported(t, rows[..|rows| - 1], anio);
      ImportedValid(t, rows[..|rows| - 1], anio);
      match ParseRow(rows[|rows| - 1], anio)
      case Parsed(w, f) => SavedValid(before, w, f, anio);
      case _ =>
    }
  }

  /** The workers after an import are the ones before, followed by the
      workers of the rows that were stored, in row order. */
  lemma {:induction false} ImportedWorkers(t: Tables, rows: seq<seq<Cell>>, anio: int)
    ensures Imported(t, rows, anio).workers == t.workers + KeptWorkers(rows, anio)
    decreases |rows|
  {
    if rows != [] {
      var init := rows[..|rows| - 1];
      ImportedWorkers(t, init, anio);
      StepWorkers(Imported(t, init, anio), rows[|rows| - 1], anio);
    }
  }

  /** One row adds its worker to the workers exactly when it is stored. */
  lemma StepWorkers(t: Tables, row: seq<Cell>, anio: int)
    ensures Step(t, row, anio).workers
      == t.workers + match ParseRow(row, anio) case Parsed(w, _) => [w] case _ => []
  {
  }

  /** What the import stores for one parsed row of a valid database: the new
      worker is the next id; its yearly rows are the row's, its social
      security row has no risk class or ARL date; each of the twelve months
      of `anio` has a schedule row whose year is `anio`; and every row
      stored before is kept unchanged. */
  lemma SavedRow(t: Tables, row: seq<Cell>, anio: int)
    requires Store.Valid(t) && ParseRow(row, anio).Parsed?
    ensures var o := ParseRow(row, anio); var id := |t.workers| + 1; var u := Step(t, row, anio);
      u.workers == t.workers + [o.worker]
      && u.contracts == t.contracts[(id, anio) := o.facts.contract]
      && u.onboardings == t.onboardings[(id, anio) := o.facts.onboarding]
      && u.offboardings == t.offboardings[(id, anio) := o.facts.offboarding]
      && u.projects == t.projects[(id, anio) := o.facts.flags]
      && u.socials == t.socials[(id, anio) := o.facts.social]
      && o.facts.social.riesgo.None? && o.facts.social.fechaArl.None?
      && (forall m :: 1 <= m <= 12 ==> (id, Date(anio, m, 1)) in u.schedules && u.schedules[(id, Date(anio, m, 1))].anio == anio)
      && (forall k :: k in t.schedules ==> k in u.schedules && u.schedules[k] == t.schedules[k])
  {
    var o := ParseRow(row, anio);
    SavedTables(t, o.worker, o.facts, anio);
    ParsedSocial(row, anio);
  }

  /** Storing a worker and its facts for a year of twelve months into a
      valid database. */
  lemma SavedTables(t: Tables, w: Worker, f: Facts, anio: int)
    requires Store.Valid(t) && MonthsOfYear(f.months, anio)
    ensures var id := |t.workers| + 1; var u := Saved(t, w, f, anio);
      u.workers == t.workers + [w]
      && u.contracts == t.contracts[(id, anio) := f.contract]
      && u.onboardings == t.onboardings[(id, anio) := f.onboarding]
      && u.offboardings == t.offboardings[(id, anio) := f.offboarding]
      && u.projects == t.projects[(id, anio) := f.flags]
      && u.socials == t.socials[(id, anio) := f.social]
      && (forall m :: 1 <= m <= 12 ==> (id, Date(anio, m, 1)) in u.schedules && u.schedules[(id, Date(anio, m, 1))].anio == anio)
      && (forall k :: k in t.schedules ==> k in u.schedules && u.schedules[k] == t.schedules[k])
  {
    var id := |t.workers| + 1;
    var u := Saved(t, w, f, anio);
    assert (id, anio) !in t.socials;
    MonthsDistinct(f.months, anio);
    WithMonthsRows(t.schedules, id, f.months);
    WithMonthsFrame(t.schedules, id, f.months);
    forall m | 1 <= m <= 12
      ensures (id, Date(anio, m, 1)) in u.schedules && u.schedules[(id, Date(anio, m, 1))].anio == anio
    {
      assert f.months[m - 1].mes == Date(anio, m, 1);
    }
  }

  /** A parsed row's social security row has no risk class or ARL date. */
  lemma ParsedSocial(row: seq<Cell>, anio: int)
    requires ParseRow(row, anio).Parsed?
    ensures ParseRow(row, anio).facts.social.riesgo.None? && ParseRow(row, anio).facts.social.fechaArl.None?
  {
  }

  /** The rows that fail after their worker was created. */
  function LateFailures(rows: seq<seq<Cell>>, anio: int): nat
    decreases |rows|
  {
    if rows == [] then 0
    else LateFailures(rows[..|rows| - 1], anio) + (if ParseRow(rows[|rows| - 1], anio) == Failed(true) then 1 else 0)
  }

  /** The number of workers whose transaction commits: what the summary's
      count of created workers is meant to be. */
  function CommittedCount(rows: seq<seq<Cell>>, anio: int): nat
    decreases |rows|
  {
    if rows == [] then 0
    else CommittedCount(rows[..|rows| - 1], anio) + (if ParseRow(rows[|rows| - 1], anio).Parsed? then 1 else 0)
  }

  /** The committed count is exactly the number of workers the import adds. */
  lemma {:induction false} CommittedCountExact(t: Tables, rows: seq<seq<Cell>>, anio: int)
    ensures |Imported(t, rows, anio).workers| == |t.workers| + CommittedCount(rows, anio)
    decreases |rows|
  {
    if rows != [] {
      CommittedCountExact(t, rows[..|rows| - 1], anio);
    }
  }

  /** The command's count of created workers also counts the rows rolled
      back after the worker was created. */
  lemma {:induction false} CreatedCountSplit(rows: seq<seq<Cell>>, anio: int)
    ensures CreatedCount(rows, anio) == CommittedCount(rows, anio) + LateFailures(rows, anio)
    decreases |rows|
  {
    if rows != [] {
      CreatedCountSplit(rows[..|rows| - 1], anio);
    }
  }

  /** A numbered row whose contract type cell holds a date: its worker is
      counted as created, yet the database gains no worker. */
  lemma LateFailureCounted()
    ensures var row := [Str("1"), Empty, Empty, Empty, Empty, Empty, Empty, Empty, Empty, When(Date(2024, 1, 1))];
      CreatedCount([row], 2025) == 1 && CommittedCount([row], 2025) == 0
      && |Imported(NoTables, [row], 2025).workers| == 0
  {
    var row := [Str("1"), Empty, Empty, Empty, Empty, Empty, Empty, Empty, Empty, When(Date(2024, 1, 1))];
    ReadStr("1");
    assert GetCellValue(row, 0) == Plain("1");
    assert row[3] == Empty && row[4] == Empty;
    assert GetCellValue(row, 3) == Plain("");
    assert GetCellValue(row, 4) == Plain("");
    assert ParseDate(GetCellValue(row, 4)).None? && ParseDate(GetCellValue(row, 3)).None?;
    assert InferDates(ParseDate(GetCellValue(row, 4)), ParseDate(GetCellValue(row, 3))).Some?;
    assert GetCellValue(row, 9).Stamp?;
    assert ParseRow(row, 2025) == Failed(true);
    var rows: seq<seq<Cell>> := [row];
    assert rows[..0] == [];
    CommittedCountExact(NoTables, [row], 2025);
  }
}
