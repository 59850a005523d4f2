/** What the import reads back from a row the export command wrote. The
    worksheet is 1-based and the row tuples the import reads are 0-based,
    so export column `c` is import index `c - 1`; this module proves that
    every field comes back, and says how the nullable and zero values
    change on the way. */
module RoundTrip {
  import opened Wrappers
  import opened Text
  import opened Dates
  import opened Money
  import opened Cells
  import opened Coercion
  import opened Sheets
  import opened Trabajadores
  import opened Contratacion
  import opened Registros
  import opened Proyectos
  import opened Cronograma
  import opened Store
  import opened Exportar
  import Importar
  import ExportarVista

  // ---------------------------------------------------------- the row read

  /** The import reads indexes 0 to 84: columns 1 to 85 of the sheet. */
  const RowWidth := 85

  /** The row tuple `iter_rows(values_only=True)` gives for a row holding
      the cells `cells`: index `i` is column `i + 1`, and an empty cell is
      None. */
  function ImportRow(cells: map<int, Cell>): (row: seq<Cell>)
    ensures |row| == RowWidth
    ensures forall i :: 0 <= i < RowWidth ==> row[i] == if i + 1 in cells then cells[i + 1] else Empty
  {
    seq(RowWidth, i requires 0 <= i < RowWidth => if i + 1 in cells then cells[i + 1] else Empty)
  }

  /** Every step assigns, each to its own column of the sheet's first 85. */
  predicate Layout(p: Plan)
  {
    (forall k :: 0 <= k < |p| ==> p[k].Write? && 1 <= p[k].col <= RowWidth)
    && (forall i, j :: 0 <= i < j < |p| && p[i].Write? && p[j].Write? ==> p[i].col != p[j].col)
  }

  /** What the import reads from a cell the step assigned, or from an empty
      cell when it assigned nothing. */
  function ReadOf(v: Option<Cell>): Value
  {
    if v.Some? then ReadCell(Stored(v.value)) else Plain("")
  }

  /** The row reads, at every column of the plan, what the plan assigned
      there. */
  predicate Carries(row: seq<Cell>, p: Plan)
  {
    forall k {:trigger CarriesAt(row, p[k])} :: 0 <= k < |p| ==> CarriesAt(row, p[k])
  }

  /** The row reads, at the step's column, what the step assigned. */
  predicate CarriesAt(row: seq<Cell>, a: Action)
  {
    a.Write? && 1 <= a.col && GetCellValue(row, a.col - 1) == ReadOf(a.v)
  }

  /** In a plan with its own column per step, each column keeps its step's
      value. */
  lemma {:induction false} WrittenLayout(p: Plan)
    requires Layout(p)
    ensures forall k :: 0 <= k < |p| && p[k].v.Some? ==> p[k].col in Written(p) && Written(p)[p[k].col] == Stored(p[k].v.value)
    ensures forall k :: 0 <= k < |p| && p[k].v.None? ==> p[k].col !in Written(p)
    decreases |p|
  {
    ExportarVista.WrittenKeys(p);
    if p != [] {
      var init := p[..|p| - 1];
      var a := p[|p| - 1];
      assert forall k :: 0 <= k < |init| ==> init[k] == p[k];
      WrittenLayout(init);
      forall k | 0 <= k < |p| && p[k].v.None? ensures p[k].col !in Written(p) {
        assert forall i :: 0 <= i < |p| && p[i].Write? && p[i].v.Some? ==> p[i].col != p[k].col;
        assert p[k].col !in ExportarVista.WrittenColumns(p);
      }
    }
  }

  /** The row the import reads back from a planned row carries the plan. */
  lemma CarriesWritten(p: Plan)
    requires Layout(p)
    ensures Carries(ImportRow(Written(p)), p)
  {
    WrittenLayout(p);
  }

  /** A row that carries two plans joined carries each. */
  lemma CarriesSplit(row: seq<Cell>, a: Plan, b: Plan)
    requires Carries(row, a + b)
    ensures Carries(row, a) && Carries(row, b)
  {
    forall k | 0 <= k < |a| ensures CarriesAt(row, a[k]) {
      assert (a + b)[k] == a[k];
    }
    forall k | 0 <= k < |b| ensures CarriesAt(row, b[k]) {
      assert (a + b)[|a| + k] == b[k];
    }
  }

  // ------------------------------------------------------ one cell back

  /** Text that survives a cell as it is: no longer than openpyxl keeps,
      and without surrounding whitespace the import would strip. */
  predicate Clean(s: string)
  {
    |s| <= MaxCellText && (s == [] || (!IsPySpace(s[0]) && !IsPySpace(s[|s| - 1])))
  }

  /** A clean text comes back as itself. */
  lemma TextBack(s: string)
    requires Clean(s)
    ensures ReadOf(TextCell(s)) == Plain(s)
    ensures Importar.TextOf(ReadOf(TextCell(s))) == s
  {
    assert Stored(Str(s)) == Str(s);
    ReadStr(s);
  }

  /** A nullable text comes back as itself, and null as "". */
  lemma OptTextBack(o: Option<string>)
    requires o.Some? ==> Clean(o.value)
    ensures Importar.TextOf(ReadOf(OptTextCell(o))) == o.GetOr("")
  {
    if o.Some? {
      TextBack(o.value);
    }
  }

  /** A nullable date comes back as itself. */
  lemma DateBack(d: Option<CalendarDate>)
    ensures ParseDate(ReadOf(DateCell(d))) == d
  {
  }

  /** An amount written as a float comes back as itself, a zero one
      through the import's `or 0`. */
  lemma AmountBack(d: Decimal)
    requires Normal(d)
    ensures Importar.AmountOrZero(ParseDecimal(ReadOf(Some(Amount(d))))) == d
    ensures Importar.AmountOrZero(ParseDecimal(ReadOf(Some(Exportar.AmountOrZero(d))))) == d
  {
    if IsZero(d) {
      assert d == Zero;
      ReadInt(0);
    } else {
      AmountRoundTrip(d);
    }
  }

  /** An integer comes back as itself, zero through the import's `or 0`. */
  lemma IntBack(i: int)
    ensures Importar.IntOrZero(ParseInt(ReadOf(Some(Int(i))))) == i
  {
    if i == 0 {
      ReadInt(0);
    } else {
      IntRoundTrip(i);
    }
  }

  /** A project mark comes back as the flag. */
  lemma FlagBack(b: bool)
    ensures ParseBool(ReadOf(FlagCell(b))) == b
  {
    assert Stored(Str(if b then "X" else "")) == Str(if b then "X" else "");
    FlagRoundTrip(b);
  }

  /** What a carried flag column reads back as. */
  lemma FlagAt(row: seq<Cell>, p: Plan, k: nat, b: bool)
    requires Carries(row, p) && k < |p| && p[k].Write? && p[k].v == FlagCell(b)
    ensures 1 <= p[k].col
    ensures ParseBool(GetCellValue(row, p[k].col - 1)) == b
  {
    At(row, p, k);
    FlagBack(b);
  }

  /** The identification code comes back as the type. */
  lemma IdBack(t: IdType)
    ensures MapTipoIdentificacion(ReadOf(TextCell(IdCode(t)))) == t
  {
    TextBack(IdCode(t));
    IdCodeRoundTrip(t);
  }

  /** The contract label comes back as the type. */
  lemma ContractTypeBack(t: ContractType)
    ensures MapTipoContrato(ReadOf(TextCell(ContractLabel(t)))) == Some(t)
  {
    TextBack(ContractLabel(t));
    ContractLabelRoundTrip(t);
  }

  // ------------------------------------------------------- one section back

  /** The worker the import makes of an exported identification: the null
      second names come back as "", and the year is the model's default. */
  function ImportedWorker(w: Worker): Worker
  {
    w.(segundoApellido := Some(w.segundoApellido.GetOr("")),
       segundoNombre := Some(w.segundoNombre.GetOr("")),
       anio := Trabajadores.DefaultYear)
  }

  /** The worker's texts survive a cell. */
  predicate CleanWorker(w: Worker)
  {
    Clean(w.numero) && Clean(w.primerApellido) && Clean(w.primerNombre)
    && (w.segundoApellido.Some? ==> Clean(w.segundoApellido.value))
    && (w.segundoNombre.Some? ==> Clean(w.segundoNombre.value))
  }

  /** What a carried plan's `k`-th step leaves in the row. */
  lemma At(row: seq<Cell>, p: Plan, k: nat)
    requires Carries(row, p) && k < |p|
    ensures p[k].Write? && 1 <= p[k].col
    ensures GetCellValue(row, p[k].col - 1) == ReadOf(p[k].v)
  {
    assert CarriesAt(row, p[k]);
  }

  /** `At`, for a step whose column is known as `c + 1`. */
  lemma AtColumn(row: seq<Cell>, p: Plan, k: nat, c: nat)
    requires Carries(row, p) && k < |p| && p[k].Write? && p[k].col == c + 1
    ensures GetCellValue(row, c) == ReadOf(p[k].v)
  {
    assert CarriesAt(row, p[k]);
  }

  /** Columns 2-9 come back as the worker. */
  lemma IdentityBack(row: seq<Cell>, w: Worker)
    requires Carries(row, IdentityCells(w)) && CleanWorker(w)
    ensures Importar.ParseWorker(row) == Some(ImportedWorker(w))
  {
    var p := IdentityCells(w);
    At(row, p, 0); At(row, p, 1); At(row, p, 2); At(row, p, 3);
    At(row, p, 4); At(row, p, 5); At(row, p, 6); At(row, p, 7);
    IdBack(w.tipo);
    TextBack(w.numero);
    TextBack(w.primerApellido);
    TextBack(w.primerNombre);
    OptTextBack(w.segundoApellido);
    OptTextBack(w.segundoNombre);
    DateBack(Some(w.fechaExpedicion));
    DateBack(Some(w.fechaNacimiento));
    assert ParseDate(GetCellValue(row, 4)) == Some(w.fechaNacimiento);
    assert ParseDate(GetCellValue(row, 3)) == Some(w.fechaExpedicion);
  }

  /** The contract's texts survive a cell, and its base municipality is in
      the upper case the import stores. */
  predicate CleanContract(c: Contract)
  {
    Clean(c.cargo) && Clean(c.municipioBase) && Upper(c.municipioBase) == c.municipioBase && Normal(c.salario)
  }

  /** Columns 10-15 come back as the contract. */
  lemma ContractBack(row: seq<Cell>, c: Contract)
    requires Carries(row, ContractCells(c)) && CleanContract(c)
    ensures MapTipoContrato(GetCellValue(row, 9)) == Some(c.tipo)
    ensures Importar.BaseMunicipio(GetCellValue(row, 12)) == Some(c.municipioBase)
    ensures Importar.ParseContract(row, c.tipo, c.municipioBase) == c
  {
    var p := ContractCells(c);
    At(row, p, 0); At(row, p, 1); At(row, p, 2); At(row, p, 3); At(row, p, 4); At(row, p, 5);
    DateBack(c.inicio);
    DateBack(c.fin);
    ContractTypeBack(c.tipo);
    TextBack(c.cargo);
    TextBack(c.municipioBase);
    StripNoop(c.municipioBase);
    AmountBack(c.salario);
  }

  /** Columns 16-19 come back as the onboarding. */
  lemma OnboardingBack(row: seq<Cell>, o: Onboarding)
    requires Carries(row, OnboardingCells(o))
    ensures Importar.ParseOnboarding(row) == o
  {
    var p := OnboardingCells(o);
    At(row, p, 0); At(row, p, 1); At(row, p, 2); At(row, p, 3);
    DateBack(o.fechaIngreso);
    DateBack(o.examenIngreso);
    DateBack(o.fechaEntregaEpp);
    DateBack(o.fechaEntregaDotacion);
  }

  /** The settlement as the export writes it: a zero one is not written. */
  function Settlement(v: Option<Decimal>): Option<Decimal>
  {
    if v.Some? && !IsZero(v.value) then v else None
  }

  /** Columns 20-23 come back as the offboarding, a zero settlement as
      null. */
  lemma OffboardingBack(row: seq<Cell>, o: Offboarding)
    requires Carries(row, OffboardingCells(o))
    requires o.valorLiquidacion.Some? ==> Normal(o.valorLiquidacion.value)
    ensures Importar.ParseOffboarding(row) == o.(valorLiquidacion := Settlement(o.valorLiquidacion))
  {
    var p := OffboardingCells(o);
    At(row, p, 0); At(row, p, 1); At(row, p, 2); At(row, p, 3);
    DateBack(o.fechaRetiro);
    DateBack(o.fechaLiquidacion);
    DateBack(o.fechaExamenRetiro);
    if o.valorLiquidacion.Some? && !IsZero(o.valorLiquidacion.value) {
      AmountRoundTrip(o.valorLiquidacion.value);
    }
  }

  /** The social security texts survive a cell, and the ARL is in the upper
      case the import stores. */
  predicate CleanSocial(s: SocialSecurity)
  {
    (s.eps.Some? ==> Clean(s.eps.value)) && (s.caja.Some? ==> Clean(s.caja.value))
    && (s.fondo.Some? ==> Clean(s.fondo.value))
    && (s.arl.Some? ==> Clean(s.arl.value) && Upper(s.arl.value) == s.arl.value)
  }

  /** The social security row the import makes of an exported one: null
      texts come back as "", and the risk class and its date, which are not
      exported, as null. */
  function ImportedSocial(s: SocialSecurity): SocialSecurity
  {
    SocialSecurity(Some(s.eps.GetOr("")), s.fechaEps, Some(s.caja.GetOr("")), s.fechaCaja,
      Some(s.fondo.GetOr("")), s.fechaPension, Some(s.arl.GetOr("")), None, None)
  }

  /** Columns 24-30 come back as the social security row. */
  lemma SocialBack(row: seq<Cell>, s: SocialSecurity)
    requires Carries(row, SocialCells(s)) && CleanSocial(s)
    ensures Importar.ArlText(GetCellValue(row, 29)) == Some(s.arl.GetOr(""))
    ensures Importar.ParseSocial(row, s.arl.GetOr("")) == ImportedSocial(s)
  {
    var p := SocialCells(s);
    At(row, p, 0); At(row, p, 1); At(row, p, 2); At(row, p, 3); At(row, p, 4); At(row, p, 5); At(row, p, 6);
    assert GetCellValue(row, 23) == ReadOf(OptTextCell(s.eps));
    assert GetCellValue(row, 24) == ReadOf(DateCell(s.fechaEps));
    assert GetCellValue(row, 25) == ReadOf(OptTextCell(s.caja));
    assert GetCellValue(row, 26) == ReadOf(DateCell(s.fechaCaja));
    assert GetCellValue(row, 27) == ReadOf(OptTextCell(s.fondo));
    assert GetCellValue(row, 28) == ReadOf(DateCell(s.fechaPension));
    assert GetCellValue(row, 29) == ReadOf(OptTextCell(s.arl));
    DateBack(s.fechaEps);
    DateBack(s.fechaCaja);
    DateBack(s.fechaPension);
    OptTextBack(s.eps);
    OptTextBack(s.caja);
    OptTextBack(s.fondo);
    if s.arl.Some? {
      TextBack(s.arl.value);
      assert GetCellValue(row, 29) == Plain(s.arl.value);
    } else {
      assert GetCellValue(row, 29) == Plain("");
    }
  }

  /** Columns 33-37 come back as the project flags. */
  lemma FlagsBack(row: seq<Cell>, f: ProjectFlags)
    requires Carries(row, ProjectCells(f))
    ensures Importar.ParseFlags(row) == f
  {
    var p := ProjectCells(f);
    assert p[0].v == FlagCell(f.administrativo) && p[0].col == 33;
    assert p[1].v == FlagCell(f.construccionInstalaciones) && p[1].col == 34;
    assert p[2].v == FlagCell(f.construccionRedes) && p[2].col == 35;
    assert p[3].v == FlagCell(f.servicios) && p[3].col == 36;
    assert p[4].v == FlagCell(f.mantenimientoRedes) && p[4].col == 37;
    FlagAt(row, p, 0, f.administrativo);
    FlagAt(row, p, 1, f.construccionInstalaciones);
    FlagAt(row, p, 2, f.construccionRedes);
    FlagAt(row, p, 3, f.servicios);
    FlagAt(row, p, 4, f.mantenimientoRedes);
  }

  /** The schedule's texts survive a cell, its municipality is in the form
      the import stores, and its amounts are canonical. */
  predicate CleanSchedule(r: ScheduleRow)
  {
    Clean(r.municipio) && Upper(r.municipio) == r.municipio && r.municipio !in ["N/A", "X"]
    && Normal(r.salario) && Normal(r.sueldo)
  }

  /** The cell at column `c` reads as the municipality `s`. */
  predicate MunicipioAt(row: seq<Cell>, c: nat, s: string)
  {
    Importar.MonthMunicipio(GetCellValue(row, c)) == Some(s)
  }

  /** The cell at column `c` reads as the amount `d`. */
  predicate AmountAt(row: seq<Cell>, c: nat, d: Decimal)
  {
    Importar.AmountOrZero(ParseDecimal(GetCellValue(row, c))) == d
  }

  /** The cell at column `c` reads as the number `i`. */
  predicate NumberAt(row: seq<Cell>, c: nat, i: int)
  {
    Importar.IntOrZero(ParseInt(GetCellValue(row, c))) == i
  }

  /** The four cells of month `m` come back as its schedule row. */
  lemma {:induction false} MonthBack(row: seq<Cell>, anio: int, m: int, r: ScheduleRow)
    requires 1 <= anio <= 9999 && 1 <= m <= 12
    requires Carries(row, MonthCells(m, r)) && CleanSchedule(r)
    ensures Importar.ParseMonth(row, anio, m)
      == Some(Importar.MonthEntry(Date(anio, m, 1), r.municipio, r.salario, r.dias, r.sueldo))
  {
    MonthCellsBack(row, m, r);
    MonthReads(row, anio, m, r);
  }

  /** Each of the four cells of month `m` reads back as its value. */
  lemma MonthCellsBack(row: seq<Cell>, m: int, r: ScheduleRow)
    requires 1 <= m <= 12
    requires Carries(row, MonthCells(m, r)) && CleanSchedule(r)
    ensures MunicipioAt(row, Importar.MonthColumn(m), r.municipio)
    ensures AmountAt(row, Importar.MonthColumn(m) + 1, r.salario)
    ensures NumberAt(row, Importar.MonthColumn(m) + 2, r.dias)
    ensures AmountAt(row, Importar.MonthColumn(m) + 3, r.sueldo)
  {
    MonthMunicipioBack(row, m, r, Importar.MonthColumn(m));
    MonthAmountBack(row, m, r, 1, Importar.MonthColumn(m) + 1, r.salario);
    MonthDiasBack(row, m, r, Importar.MonthColumn(m) + 2);
    MonthAmountBack(row, m, r, 3, Importar.MonthColumn(m) + 3, r.sueldo);
  }

  /** The month's municipality cell, at column `c`, comes back as its text. */
  lemma MonthMunicipioBack(row: seq<Cell>, m: int, r: ScheduleRow, c: nat)
    requires 1 <= m <= 12 && c == Importar.MonthColumn(m)
    requires Carries(row, MonthCells(m, r)) && CleanSchedule(r)
    ensures MunicipioAt(row, c, r.municipio)
  {
    MonthCellsLayout(m, r);
    AtColumn(row, MonthCells(m, r), 0, c);
    MunicipioValueBack(GetCellValue(row, c), r.municipio);
  }

  /** The month's salary (`k` = 1) and pay (`k` = 3) cells, at column `c`,
      come back as their amounts. */
  lemma MonthAmountBack(row: seq<Cell>, m: int, r: ScheduleRow, k: nat, c: nat, d: Decimal)
    requires 1 <= m <= 12 && (k == 1 || k == 3) && c == Importar.MonthColumn(m) + k
    requires d == (if k == 1 then r.salario else r.sueldo)
    requires Carries(row, MonthCells(m, r)) && Normal(d)
    ensures AmountAt(row, c, d)
  {
    MonthCellsLayout(m, r);
    AtColumn(row, MonthCells(m, r), k, c);
    AmountValueBack(GetCellValue(row, c), d);
  }

  /** The month's days cell, at column `c`, comes back as its number. */
  lemma MonthDiasBack(row: seq<Cell>, m: int, r: ScheduleRow, c: nat)
    requires 1 <= m <= 12 && c == Importar.MonthColumn(m) + 2
    requires Carries(row, MonthCells(m, r))
    ensures NumberAt(row, c, r.dias)
  {
    MonthCellsLayout(m, r);
    AtColumn(row, MonthCells(m, r), 2, c);
    IntValueBack(GetCellValue(row, c), r.dias);
  }

  /** Month `m`'s four cells sit side by side from the month's column. */
  lemma MonthCellsLayout(m: int, r: ScheduleRow)
    requires 1 <= m <= 12
    ensures var p, col := MonthCells(m, r), Importar.MonthColumn(m);
      |p| == 4
      && p[0].col - 1 == col && p[0].v == TextCell(r.municipio)
      && p[1].col - 1 == col + 1 && p[1].v == Some(Exportar.AmountOrZero(r.salario))
      && p[2].col - 1 == col + 2 && p[2].v == Some(Int(r.dias))
      && p[3].col - 1 == col + 3 && p[3].v == Some(Exportar.AmountOrZero(r.sueldo))
  {
  }

  /** A month whose four cells read as an entry's values reads as that
      entry. */
  lemma {:induction false} MonthReads(row: seq<Cell>, anio: int, m: int, r: ScheduleRow)
    requires 1 <= anio <= 9999 && 1 <= m <= 12
    requires MunicipioAt(row, Importar.MonthColumn(m), r.municipio)
    requires AmountAt(row, Importar.MonthColumn(m) + 1, r.salario)
    requires NumberAt(row, Importar.MonthColumn(m) + 2, r.dias)
    requires AmountAt(row, Importar.MonthColumn(m) + 3, r.sueldo)
    ensures Importar.ParseMonth(row, anio, m)
      == Some(Importar.MonthEntry(Date(anio, m, 1), r.municipio, r.salario, r.dias, r.sueldo))
  {
  }

  /** A cell reading as a clean upper-case text comes back as that
      municipality. */
  lemma MunicipioValueBack(v: Value, s: string)
    requires v == ReadOf(TextCell(s))
    requires Clean(s) && Upper(s) == s && s !in ["N/A", "X"]
    ensures Importar.MonthMunicipio(v) == Some(s)
  {
    TextBack(s);
    assert Upper(s) !in ["N/A", "X"];
  }

  /** A cell reading as a written amount comes back as that amount. */
  lemma AmountValueBack(v: Value, d: Decimal)
    requires v == ReadOf(Some(Exportar.AmountOrZero(d))) && Normal(d)
    ensures Importar.AmountOrZero(ParseDecimal(v)) == d
  {
    AmountBack(d);
  }

  /** A cell reading as a written number comes back as that number. */
  lemma IntValueBack(v: Value, i: int)
    requires v == ReadOf(Some(Int(i)))
    ensures Importar.IntOrZero(ParseInt(v)) == i
  {
    IntBack(i);
  }

  // ------------------------------------------------------- the plan's columns

  /** The columns a plan assigns. */
  function Cols(p: Plan): set<int>
  {
    set k | 0 <= k < |p| && p[k].Write? :: p[k].col
  }

  /** Joining plans joins their columns. */
  lemma ColsJoin(a: Plan, b: Plan)
    ensures Cols(a + b) == Cols(a) + Cols(b)
  {
    var ab := a + b;
    forall c | c in Cols(ab) ensures c in Cols(a) + Cols(b) {
      var k :| 0 <= k < |ab| && ab[k].Write? && ab[k].col == c;
      if k < |a| {
        assert ab[k] == a[k];
      } else {
        assert ab[k] == b[k - |a|];
      }
    }
    forall c | c in Cols(a) ensures c in Cols(ab) {
      var k :| 0 <= k < |a| && a[k].Write? && a[k].col == c;
      assert ab[k] == a[k];
    }
    forall c | c in Cols(b) ensures c in Cols(ab) {
      var k :| 0 <= k < |b| && b[k].Write? && b[k].col == c;
      assert ab[|a| + k] == b[k];
    }
  }

  /** Two plans on disjoint columns join into a plan with its own column
      per step. */
  lemma LayoutJoin(a: Plan, b: Plan)
    requires Layout(a) && Layout(b) && Cols(a) !! Cols(b)
    ensures Layout(a + b) && Cols(a + b) == Cols(a) + Cols(b)
  {
    ColsJoin(a, b);
    var ab := a + b;
    assert forall k :: 0 <= k < |a| ==> ab[k] == a[k];
    assert forall k :: |a| <= k < |ab| ==> ab[k] == b[k - |a|];
    forall i, j | 0 <= i < j < |ab| ensures ab[i].col != ab[j].col {
      if j < |a| {
      } else if i >= |a| {
      } else {
        assert ab[i].col in Cols(a) && ab[j].col in Cols(b);
      }
    }
  }

  /** A plan that assigns the columns `lo`, `lo + 1`, ... in turn. */
  predicate Spans(p: Plan, lo: int)
  {
    forall k :: 0 <= k < |p| ==> p[k].Write? && p[k].col == lo + k
  }

  /** Consecutive columns are distinct. */
  lemma SpanLayout(p: Plan, lo: int)
    requires Spans(p, lo) && 1 <= lo && lo + |p| - 1 <= RowWidth
    ensures Layout(p)
    ensures forall c :: c in Cols(p) <==> lo <= c < lo + |p|
  {
    forall c | lo <= c < lo + |p| ensures c in Cols(p) {
      assert p[c - lo].col == c;
    }
  }

  /** The columns of month `m`'s schedule row. */
  function MonthSlot(m: int): set<int>
    requires 1 <= m <= 12
  {
    var c := ExportMonthColumn(m);
    {c, c + 1, c + 2, c + 3}
  }

  /** The columns the months `m` to 12 with a schedule row assign. */
  function MonthsCols(s: map<(nat, CalendarDate), ScheduleRow>, id: nat, anio: int, m: int): set<int>
    requires 1 <= anio <= 9999 && 1 <= m <= 13
    decreases 13 - m
  {
    if m == 13 then {}
    else (if (id, Date(anio, m, 1)) in s then MonthSlot(m) else {}) + MonthsCols(s, id, anio, m + 1)
  }

  /** One month's cells assign its four columns once each. */
  lemma MonthLayout(m: int, r: ScheduleRow)
    requires 1 <= m <= 12
    ensures Layout(MonthCells(m, r)) && Cols(MonthCells(m, r)) == MonthSlot(m)
    ensures forall x :: x in MonthSlot(m) ==> 38 + 4 * (m - 1) <= x < 38 + 4 * m
  {
    var here := MonthCells(m, r);
    var c := ExportMonthColumn(m);
    assert Spans(here, c);
    SpanLayout(here, c);
    forall x ensures x in Cols(here) <==> x in MonthSlot(m) {
      assert x in Cols(here) <==> c <= x < c + 4;
    }
  }

  /** The month block assigns each of its columns once, right of month
      `m - 1`'s slot. */
  lemma {:induction false} MonthsLayout(s: map<(nat, CalendarDate), ScheduleRow>, id: nat, anio: int, m: int)
    requires 1 <= anio <= 9999 && 1 <= m <= 13
    ensures Layout(MonthsCells(s, id, anio, m))
    ensures Cols(MonthsCells(s, id, anio, m)) == MonthsCols(s, id, anio, m)
    ensures forall c :: c in MonthsCols(s, id, anio, m) ==> 38 + 4 * (m - 1) <= c <= RowWidth
    decreases 13 - m
  {
    if m < 13 {
      MonthsLayout(s, id, anio, m + 1);
      var key := (id, Date(anio, m, 1));
      var rest := MonthsCells(s, id, anio, m + 1);
      if key in s {
        var here := MonthCells(m, s[key]);
        MonthLayout(m, s[key]);
        assert Cols(here) !! Cols(rest) by {
          forall x | x in Cols(rest) ensures x !in Cols(here) {
            assert x in MonthsCols(s, id, anio, m + 1);
          }
        }
        LayoutJoin(here, rest);
        assert MonthsCells(s, id, anio, m) == here + rest;
      } else {
        assert MonthsCells(s, id, anio, m) == rest;
      }
    }
  }

  /** A row that carries the month block carries every month with a
      schedule row. */
  lemma {:induction false} MonthsCarried(row: seq<Cell>, s: map<(nat, CalendarDate), ScheduleRow>, id: nat, anio: int, m: int, present: int)
    requires 1 <= anio <= 9999 && 1 <= m <= present <= 12
    requires (id, Date(anio, present, 1)) in s
    requires Carries(row, MonthsCells(s, id, anio, m))
    ensures Carries(row, MonthCells(present, s[(id, Date(anio, present, 1))]))
    decreases 13 - m
  {
    MonthCarriedStep(row, s, id, anio, m);
    if m < present {
      MonthsCarried(row, s, id, anio, m + 1, present);
    }
  }

  /** A row that carries the month block from `m` carries month `m`, if it
      has a schedule row, and the block from `m + 1`. */
  lemma MonthCarriedStep(row: seq<Cell>, s: map<(nat, CalendarDate), ScheduleRow>, id: nat, anio: int, m: int)
    requires 1 <= anio <= 9999 && 1 <= m <= 12
    requires Carries(row, MonthsCells(s, id, anio, m))
    ensures Carries(row, MonthsCells(s, id, anio, m + 1))
    ensures (id, Date(anio, m, 1)) in s ==> Carries(row, MonthCells(m, s[(id, Date(anio, m, 1))]))
  {
    var here := MonthsStep(s, id, anio, m);
    CarriesSplit(row, here, MonthsCells(s, id, anio, m + 1));
  }

  /** The month block from `m` is month `m`'s cells, if it has a schedule
      row, followed by the block from `m + 1`. */
  lemma MonthsStep(s: map<(nat, CalendarDate), ScheduleRow>, id: nat, anio: int, m: int) returns (here: Plan)
    requires 1 <= anio <= 9999 && 1 <= m <= 12
    ensures MonthsCells(s, id, anio, m) == here + MonthsCells(s, id, anio, m + 1)
    ensures (id, Date(anio, m, 1)) in s ==> here == MonthCells(m, s[(id, Date(anio, m, 1))])
  {
    var key := (id, Date(anio, m, 1));
    here := if key in s then MonthCells(m, s[key]) else [];
  }

  // ---------------------------------------------------------- blank columns

  /** Every step assigns nothing the import would read as a value. */
  predicate Blank(q: Plan)
  {
    forall k :: 0 <= k < |q| ==> q[k].Write? && 1 <= q[k].col <= RowWidth && ReadOf(q[k].v) == Plain("")
  }

  /** The onboarding of a worker without one. */
  const NoOnboarding := Onboarding(None, None, None, None)

  /** The offboarding of a worker without one. */
  const NoOffboarding := Offboarding(None, None, None, None)

  /** The social security row of a worker without one. */
  const NoSocial := SocialSecurity(None, None, None, None, None, None, None, None, None)

  /** The schedule row of a month without one: its cells read as empty. */
  function NoSchedule(anio: int): ScheduleRow
  {
    ScheduleRow("", Zero, 0, Zero, anio)
  }

  /** The missing sections read as empty cells. */
  lemma NoneBlank(anio: int, m: int)
    requires 1 <= m <= 12
    ensures Blank(OnboardingCells(NoOnboarding)) && Blank(OffboardingCells(NoOffboarding))
    ensures Blank(SocialCells(NoSocial)) && Blank(ProjectCells(DefaultFlags))
    ensures Blank(MonthCells(m, NoSchedule(anio)))
  {
    ReadStr("");
    ReadInt(0);
  }

  // ------------------------------------------------------------- whole rows

  /** The yearly row of `id`, or `none` when it has none. */
  function RowOr<T>(rows: map<(nat, int), T>, id: nat, anio: int, none: T): T
  {
    if (id, anio) in rows then rows[(id, anio)] else none
  }

  /** Month `m`'s schedule row of `id`, or an empty one. */
  function ScheduleOf(s: map<(nat, CalendarDate), ScheduleRow>, id: nat, anio: int, m: int): ScheduleRow
    requires 1 <= m <= 12
  {
    var key := (id, Date(anio, m, 1));
    if key in s then s[key] else NoSchedule(anio)
  }

  /** What the import makes of month `m`. */
  function ImportedMonth(s: map<(nat, CalendarDate), ScheduleRow>, id: nat, anio: int, m: int): Importar.MonthEntry
    requires 1 <= anio <= 9999 && 1 <= m <= 12
  {
    var r := ScheduleOf(s, id, anio, m);
    Importar.MonthEntry(Date(anio, m, 1), r.municipio, r.salario, r.dias, r.sueldo)
  }

  /** What the import makes of the twelve months. */
  function ImportedMonths(s: map<(nat, CalendarDate), ScheduleRow>, id: nat, anio: int): seq<Importar.MonthEntry>
    requires 1 <= anio <= 9999
  {
    seq(12, k requires 0 <= k < 12 => ImportedMonth(s, id, anio, k + 1))
  }

  /** Month `m`'s cells are in the row. */
  predicate MonthCarried(row: seq<Cell>, s: map<(nat, CalendarDate), ScheduleRow>, id: nat, anio: int, m: int)
    requires 1 <= m <= 12
  {
    Carries(row, MonthCells(m, ScheduleOf(s, id, anio, m)))
  }

  /** Every schedule row of the year survives its cells. */
  predicate CleanMonths(s: map<(nat, CalendarDate), ScheduleRow>, id: nat, anio: int)
  {
    forall m :: 1 <= m <= 12 && (id, Date(anio, m, 1)) in s ==> CleanSchedule(s[(id, Date(anio, m, 1))])
  }

  /** A row carrying every month's cells reads back as the year's months. */
  lemma AllMonthsBack(row: seq<Cell>, s: map<(nat, CalendarDate), ScheduleRow>, id: nat, anio: int)
    requires 1 <= anio <= 9999
    requires forall m :: 1 <= m <= 12 ==> MonthCarried(row, s, id, anio, m)
    requires CleanMonths(s, id, anio)
    ensures Importar.ParseMonths(row, anio) == Some(ImportedMonths(s, id, anio))
  {
    var es := ImportedMonths(s, id, anio);
    var ps := Importar.ReadMonths(row, anio);
    forall k | 0 <= k < 12
      ensures ps[k] == Some(es[k])
    {
      MonthStep(row, s, id, anio, k + 1);
    }
    var r := Importar.Collect(ps);
    assert r.Some?;
    assert r.value == es;
  }

  /** Month `m` comes back, as an empty month when it has no schedule row. */
  lemma MonthStep(row: seq<Cell>, s: map<(nat, CalendarDate), ScheduleRow>, id: nat, anio: int, m: int)
    requires 1 <= anio <= 9999 && 1 <= m <= 12
    requires MonthCarried(row, s, id, anio, m)
    requires CleanMonths(s, id, anio)
    ensures Importar.ParseMonth(row, anio, m) == Some(ImportedMonth(s, id, anio, m))
  {
    var r := ScheduleOf(s, id, anio, m);
    assert CleanSchedule(r);
    MonthBack(row, anio, m, r);
  }

  /** Every column the plan assigns lies between `lo` and `hi`. */
  predicate Bounded(p: Plan, lo: int, hi: int)
  {
    forall c :: c in Cols(p) ==> lo <= c <= hi
  }

  /** A part of a row that, when present, assigns the columns `lo` to `hi`
      in turn. */
  lemma PartLayout(p: Plan, lo: int, hi: int)
    requires 1 <= lo && hi <= RowWidth
    requires p == [] || (Spans(p, lo) && |p| == hi - lo + 1)
    ensures Layout(p)
    ensures Bounded(p, lo, hi)
  {
    if p != [] {
      SpanLayout(p, lo);
    }
  }

  /** Joining a part left of another keeps every column apart. */
  lemma JoinBounded(a: Plan, b: Plan, lo: int, mid: int, hi: int)
    requires lo <= mid <= hi && Layout(a) && Layout(b)
    requires Bounded(a, lo, mid)
    requires Bounded(b, mid + 1, hi)
    ensures Layout(a + b) && Cols(a + b) == Cols(a) + Cols(b)
    ensures Bounded(a + b, lo, hi)
  {
    LayoutJoin(a, b);
  }

  /** The sections of worker `id`'s block before the months. */
  function Fixed(t: Tables, id: nat, anio: int): Plan
    requires 1 <= id <= |t.workers|
  {
    IdentityCells(t.workers[id - 1])
    + Section(t.contracts, id, anio, ContractCells)
    + Section(t.onboardings, id, anio, OnboardingCells)
    + Section(t.offboardings, id, anio, OffboardingCells)
    + Section(t.socials, id, anio, SocialCells)
    + Section(t.projects, id, anio, ProjectCells)
  }

  /** Each section before the months assigns its own columns. */
  lemma FixedParts(t: Tables, id: nat, anio: int)
    requires 1 <= id <= |t.workers|
    ensures Layout(IdentityCells(t.workers[id - 1]))
    ensures Bounded(IdentityCells(t.workers[id - 1]), 2, 9)
    ensures Layout(Section(t.contracts, id, anio, ContractCells))
    ensures Bounded(Section(t.contracts, id, anio, ContractCells), 10, 15)
    ensures Layout(Section(t.onboardings, id, anio, OnboardingCells))
    ensures Bounded(Section(t.onboardings, id, anio, OnboardingCells), 16, 19)
    ensures Layout(Section(t.offboardings, id, anio, OffboardingCells))
    ensures Bounded(Section(t.offboardings, id, anio, OffboardingCells), 20, 23)
    ensures Layout(Section(t.socials, id, anio, SocialCells))
    ensures Bounded(Section(t.socials, id, anio, SocialCells), 24, 30)
    ensures Layout(Section(t.projects, id, anio, ProjectCells))
    ensures Bounded(Section(t.projects, id, anio, ProjectCells), 33, 37)
  {
    IdentityContractParts(t, id, anio);
    YearlyParts(t, id, anio);
  }

  /** The identity, contract and onboarding sections of `FixedParts`. */
  lemma IdentityContractParts(t: Tables, id: nat, anio: int)
    requires 1 <= id <= |t.workers|
    ensures Layout(IdentityCells(t.workers[id - 1]))
    ensures Bounded(IdentityCells(t.workers[id - 1]), 2, 9)
    ensures Layout(Section(t.contracts, id, anio, ContractCells))
    ensures Bounded(Section(t.contracts, id, anio, ContractCells), 10, 15)
    ensures Layout(Section(t.onboardings, id, anio, OnboardingCells))
    ensures Bounded(Section(t.onboardings, id, anio, OnboardingCells), 16, 19)
  {
    PartLayout(IdentityCells(t.workers[id - 1]), 2, 9);
    PartLayout(Section(t.contracts, id, anio, ContractCells), 10, 15);
    PartLayout(Section(t.onboardings, id, anio, OnboardingCells), 16, 19);
  }

  /** The offboarding, social security and project sections of
      `FixedParts`. */
  lemma YearlyParts(t: Tables, id: nat, anio: int)
    ensures Layout(Section(t.offboardings, id, anio, OffboardingCells))
    ensures Bounded(Section(t.offboardings, id, anio, OffboardingCells), 20, 23)
    ensures Layout(Section(t.socials, id, anio, SocialCells))
    ensures Bounded(Section(t.socials, id, anio, SocialCells), 24, 30)
    ensures Layout(Section(t.projects, id, anio, ProjectCells))
    ensures Bounded(Section(t.projects, id, anio, ProjectCells), 33, 37)
  {
    PartLayout(Section(t.offboardings, id, anio, OffboardingCells), 20, 23);
    PartLayout(Section(t.socials, id, anio, SocialCells), 24, 30);
    PartLayout(Section(t.projects, id, anio, ProjectCells), 33, 37);
  }

  /** The sections before the months assign each of their columns once,
      all left of column 38. */
  lemma FixedLayout(t: Tables, id: nat, anio: int)
    requires 1 <= id <= |t.workers|
    ensures Layout(Fixed(t, id, anio))
    ensures Bounded(Fixed(t, id, anio), 2, 37)
    ensures Cols(Fixed(t, id, anio)) == Cols(IdentityCells(t.workers[id - 1]))
      + Cols(Section(t.contracts, id, anio, ContractCells))
      + Cols(Section(t.onboardings, id, anio, OnboardingCells))
      + Cols(Section(t.offboardings, id, anio, OffboardingCells))
      + Cols(Section(t.socials, id, anio, SocialCells))
      + Cols(Section(t.projects, id, anio, ProjectCells))
  {
    var p0 := IdentityCells(t.workers[id - 1]);
    var c := Section(t.contracts, id, anio, ContractCells);
    var o := Section(t.onboardings, id, anio, OnboardingCells);
    var f := Section(t.offboardings, id, anio, OffboardingCells);
    var s := Section(t.socials, id, anio, SocialCells);
    var j := Section(t.projects, id, anio, ProjectCells);
    FixedParts(t, id, anio);
    JoinBounded(p0, c, 2, 9, 15);
    JoinBounded(p0 + c, o, 2, 15, 19);
    JoinBounded(p0 + c + o, f, 2, 19, 23);
    JoinBounded(p0 + c + o + f, s, 2, 23, 30);
    JoinBounded(p0 + c + o + f + s, j, 2, 30, 37);
  }

  /** Worker `id`'s whole block, numbered `n`, is the number, the fixed
      sections and the months, each on columns of its own. */
  lemma FullLayout(t: Tables, id: nat, anio: int, n: int)
    requires 1 <= id <= |t.workers| && 1 <= anio <= 9999
    ensures Numbered(n, CommandBody(t, id, anio)) == [Write(1, Some(Int(n)))] + (Fixed(t, id, anio) + MonthsCells(t.schedules, id, anio, 1))
    ensures Layout(Numbered(n, CommandBody(t, id, anio)))
  {
    var num: Plan := [Write(1, Some(Int(n)))];
    var fixed := Fixed(t, id, anio);
    var months := MonthsCells(t.schedules, id, anio, 1);
    FixedLayout(t, id, anio);
    MonthsLayout(t.schedules, id, anio, 1);
    PartLayout(num, 1, 1);
    JoinBounded(fixed, months, 2, 37, RowWidth);
    JoinBounded(num, fixed + months, 1, 1, RowWidth);
  }

  /** The plan assigns none of the columns `lo` to `hi`. */
  predicate Clear(p: Plan, lo: int, hi: int)
  {
    forall k :: 0 <= k < |p| && p[k].Write? ==> p[k].col < lo || hi < p[k].col
  }

  /** Two plans that leave the columns alone leave them alone joined. */
  lemma ClearJoin(a: Plan, b: Plan, lo: int, hi: int)
    requires Clear(a, lo, hi) && Clear(b, lo, hi)
    ensures Clear(a + b, lo, hi)
  {
    assert forall k :: 0 <= k < |a| ==> (a + b)[k] == a[k];
    assert forall k :: |a| <= k < |a + b| ==> (a + b)[k] == b[k - |a|];
  }

  /** A part that is missing or lies elsewhere leaves the columns alone. */
  lemma PartClear(p: Plan, plo: int, phi: int, lo: int, hi: int)
    requires Bounded(p, plo, phi) && (p == [] || phi < lo || hi < plo)
    ensures Clear(p, lo, hi)
  {
    forall k | 0 <= k < |p| && p[k].Write? ensures p[k].col < lo || hi < p[k].col {
      assert p[k].col in Cols(p);
    }
  }

  /** A blank part on columns a plan leaves alone is carried by its row. */
  lemma AbsentBlank(full: Plan, q: Plan, lo: int, hi: int)
    requires Blank(q) && Spans(q, lo) && |q| == hi - lo + 1
    requires Clear(full, lo, hi)
    ensures Carries(ImportRow(Written(full)), q)
  {
    ExportarVista.WrittenKeys(full);
    forall k | 0 <= k < |q| ensures GetCellValue(ImportRow(Written(full)), q[k].col - 1) == Plain("") {
      var c := q[k].col;
      assert lo <= c <= hi;
      assert c !in ExportarVista.WrittenColumns(full);
    }
  }

  /** Worker `id`'s block, numbered `n`. */
  function Block(t: Tables, id: nat, anio: int, n: int): Plan
    requires 1 <= id <= |t.workers|
  {
    Numbered(n, CommandBody(t, id, anio))
  }

  /** The fixed sections leave alone columns every section leaves alone. */
  lemma FixedClear(t: Tables, id: nat, anio: int, lo: int, hi: int)
    requires 1 <= id <= |t.workers|
    requires Clear(IdentityCells(t.workers[id - 1]), lo, hi)
    requires Clear(Section(t.contracts, id, anio, ContractCells), lo, hi)
    requires Clear(Section(t.onboardings, id, anio, OnboardingCells), lo, hi)
    requires Clear(Section(t.offboardings, id, anio, OffboardingCells), lo, hi)
    requires Clear(Section(t.socials, id, anio, SocialCells), lo, hi)
    requires Clear(Section(t.projects, id, anio, ProjectCells), lo, hi)
    ensures Clear(Fixed(t, id, anio), lo, hi)
  {
    var p0 := IdentityCells(t.workers[id - 1]);
    var c := Section(t.contracts, id, anio, ContractCells);
    var o := Section(t.onboardings, id, anio, OnboardingCells);
    var f := Section(t.offboardings, id, anio, OffboardingCells);
    var s := Section(t.socials, id, anio, SocialCells);
    var j := Section(t.projects, id, anio, ProjectCells);
    ClearJoin(p0, c, lo, hi);
    ClearJoin(p0 + c, o, lo, hi);
    ClearJoin(p0 + c + o, f, lo, hi);
    ClearJoin(p0 + c + o + f, s, lo, hi);
    ClearJoin(p0 + c + o + f + s, j, lo, hi);
  }

  /** The block leaves alone columns right of the number that its fixed
      sections and its months leave alone. */
  lemma BlockClear(t: Tables, id: nat, anio: int, n: int, lo: int, hi: int)
    requires 1 <= id <= |t.workers| && 1 <= anio <= 9999 && 1 < lo
    requires Clear(Fixed(t, id, anio), lo, hi) && Clear(MonthsCells(t.schedules, id, anio, 1), lo, hi)
    ensures Clear(Block(t, id, anio, n), lo, hi)
  {
    FullLayout(t, id, anio, n);
    var num: Plan := [Write(1, Some(Int(n)))];
    ClearJoin(Fixed(t, id, anio), MonthsCells(t.schedules, id, anio, 1), lo, hi);
    ClearJoin(num, Fixed(t, id, anio) + MonthsCells(t.schedules, id, anio, 1), lo, hi);
  }

  /** The month block lies right of the fixed sections. */
  lemma MonthsRight(s: map<(nat, CalendarDate), ScheduleRow>, id: nat, anio: int, m: int, lo: int, hi: int)
    requires 1 <= anio <= 9999 && 1 <= m <= 13 && hi < 38
    ensures Clear(MonthsCells(s, id, anio, m), lo, hi)
  {
    MonthsLayout(s, id, anio, m);
    var p := MonthsCells(s, id, anio, m);
    forall k | 0 <= k < |p| && p[k].Write? ensures p[k].col < lo || hi < p[k].col {
      assert p[k].col in Cols(p);
    }
  }

  /** The columns of a section the worker lacks are left alone. */
  lemma AbsentClear(t: Tables, id: nat, anio: int, n: int, lo: int, hi: int)
    requires 1 <= id <= |t.workers| && 1 <= anio <= 9999
    requires (lo, hi) in {(16, 19), (20, 23), (24, 30), (33, 37)}
    requires lo == 16 ==> (id, anio) !in t.onboardings
    requires lo == 20 ==> (id, anio) !in t.offboardings
    requires lo == 24 ==> (id, anio) !in t.socials
    requires lo == 33 ==> (id, anio) !in t.projects
    ensures Clear(Block(t, id, anio, n), lo, hi)
  {
    FixedParts(t, id, anio);
    PartClear(IdentityCells(t.workers[id - 1]), 2, 9, lo, hi);
    PartClear(Section(t.contracts, id, anio, ContractCells), 10, 15, lo, hi);
    PartClear(Section(t.onboardings, id, anio, OnboardingCells), 16, 19, lo, hi);
    PartClear(Section(t.offboardings, id, anio, OffboardingCells), 20, 23, lo, hi);
    PartClear(Section(t.socials, id, anio, SocialCells), 24, 30, lo, hi);
    PartClear(Section(t.projects, id, anio, ProjectCells), 33, 37, lo, hi);
    FixedClear(t, id, anio, lo, hi);
    MonthsRight(t.schedules, id, anio, 1, lo, hi);
    BlockClear(t, id, anio, n, lo, hi);
  }

  /** Months from `m` on leave alone the slot of a month without a schedule
      row. */
  lemma {:induction false} MonthsClear(s: map<(nat, CalendarDate), ScheduleRow>, id: nat, anio: int, m: int, absent: int)
    requires 1 <= anio <= 9999 && 1 <= m <= 13 && 1 <= absent <= 12
    requires (id, Date(anio, absent, 1)) !in s
    ensures Clear(MonthsCells(s, id, anio, m), ExportMonthColumn(absent), ExportMonthColumn(absent) + 3)
    decreases 13 - m
  {
    if m < 13 {
      var lo, hi := ExportMonthColumn(absent), ExportMonthColumn(absent) + 3;
      MonthsClear(s, id, anio, m + 1, absent);
      var key := (id, Date(anio, m, 1));
      var here: Plan := if key in s then MonthCells(m, s[key]) else [];
      assert Clear(here, lo, hi) by {
        if key in s {
          assert m != absent;
        }
      }
      ClearJoin(here, MonthsCells(s, id, anio, m + 1), lo, hi);
      assert MonthsCells(s, id, anio, m) == here + MonthsCells(s, id, anio, m + 1);
    }
  }

  /** The slot of a month without a schedule row is left alone. */
  lemma AbsentMonthClear(t: Tables, id: nat, anio: int, n: int, m: int)
    requires 1 <= id <= |t.workers| && 1 <= anio <= 9999 && 1 <= m <= 12
    requires (id, Date(anio, m, 1)) !in t.schedules
    ensures Clear(Block(t, id, anio, n), ExportMonthColumn(m), ExportMonthColumn(m) + 3)
  {
    var lo, hi := ExportMonthColumn(m), ExportMonthColumn(m) + 3;
    FixedLayout(t, id, anio);
    PartClear(Fixed(t, id, anio), 2, 37, lo, hi);
    MonthsClear(t.schedules, id, anio, 1, m);
    BlockClear(t, id, anio, n, lo, hi);
  }

  /** The number cell and the sections the worker has are in its row. */
  lemma PresentCarried(t: Tables, id: nat, anio: int, n: int)
    requires 1 <= id <= |t.workers| && 1 <= anio <= 9999
    ensures Carries(ImportRow(Written(Block(t, id, anio, n))), [Write(1, Some(Int(n)))])
    ensures Carries(ImportRow(Written(Block(t, id, anio, n))), Fixed(t, id, anio))
    ensures Carries(ImportRow(Written(Block(t, id, anio, n))), MonthsCells(t.schedules, id, anio, 1))
  {
    var full := Block(t, id, anio, n);
    FullLayout(t, id, anio, n);
    CarriesWritten(full);
    var row := ImportRow(Written(full));
    CarriesSplit(row, [Write(1, Some(Int(n)))], Fixed(t, id, anio) + MonthsCells(t.schedules, id, anio, 1));
    CarriesSplit(row, Fixed(t, id, anio), MonthsCells(t.schedules, id, anio, 1));
  }

  /** The fixed sections the worker has are carried one by one. */
  lemma FixedCarried(row: seq<Cell>, t: Tables, id: nat, anio: int)
    requires 1 <= id <= |t.workers| && Carries(row, Fixed(t, id, anio))
    ensures Carries(row, IdentityCells(t.workers[id - 1]))
    ensures Carries(row, Section(t.contracts, id, anio, ContractCells))
    ensures Carries(row, Section(t.onboardings, id, anio, OnboardingCells))
    ensures Carries(row, Section(t.offboardings, id, anio, OffboardingCells))
    ensures Carries(row, Section(t.socials, id, anio, SocialCells))
    ensures Carries(row, Section(t.projects, id, anio, ProjectCells))
  {
    var p0 := IdentityCells(t.workers[id - 1]);
    var c := Section(t.contracts, id, anio, ContractCells);
    var o := Section(t.onboardings, id, anio, OnboardingCells);
    var f := Section(t.offboardings, id, anio, OffboardingCells);
    var s := Section(t.socials, id, anio, SocialCells);
    var j := Section(t.projects, id, anio, ProjectCells);
    CarriesSplit(row, p0 + c + o + f + s, j);
    CarriesSplit(row, p0 + c + o + f, s);
    CarriesSplit(row, p0 + c + o, f);
    CarriesSplit(row, p0 + c, o);
    CarriesSplit(row, p0, c);
  }

  /** The running number reads as a number, so the import does not skip
      the row. */
  lemma NumberBack(row: seq<Cell>, n: int)
    requires n != 0 && Carries(row, [Write(1, Some(Int(n)))])
    ensures !Falsy(GetCellValue(row, 0))
  {
    At(row, [Write(1, Some(Int(n)))], 0);
    assert GetCellValue(row, 0) == ReadCell(Stored(Int(n)));
    assert Stored(Int(n)) == Int(n);
    ReadInt(n);
    var text := IntToString(n);
    assert GetCellValue(row, 0) == Plain(text) && |text| >= 1;
  }

  /** The onboarding is in the row, or its columns read as empty. */
  lemma OnboardingCarried(t: Tables, id: nat, anio: int, n: int)
    requires 1 <= id <= |t.workers| && 1 <= anio <= 9999
    ensures Carries(ImportRow(Written(Block(t, id, anio, n))), OnboardingCells(RowOr(t.onboardings, id, anio, NoOnboarding)))
  {
    var full := Block(t, id, anio, n);
    if (id, anio) in t.onboardings {
      PresentCarried(t, id, anio, n);
      FixedCarried(ImportRow(Written(full)), t, id, anio);
    } else {
      NoneBlank(anio, 1);
      OnboardingSpans(NoOnboarding);
      AbsentClear(t, id, anio, n, 16, 19);
      AbsentBlank(full, OnboardingCells(NoOnboarding), 16, 19);
    }
  }

  /** The offboarding is in the row, or its columns read as empty. */
  lemma OffboardingCarried(t: Tables, id: nat, anio: int, n: int)
    requires 1 <= id <= |t.workers| && 1 <= anio <= 9999
    ensures Carries(ImportRow(Written(Block(t, id, anio, n))), OffboardingCells(RowOr(t.offboardings, id, anio, NoOffboarding)))
  {
    var full := Block(t, id, anio, n);
    if (id, anio) in t.offboardings {
      PresentCarried(t, id, anio, n);
      FixedCarried(ImportRow(Written(full)), t, id, anio);
    } else {
      NoneBlank(anio, 1);
      OffboardingSpans(NoOffboarding);
      AbsentClear(t, id, anio, n, 20, 23);
      AbsentBlank(full, OffboardingCells(NoOffboarding), 20, 23);
    }
  }

  /** The social security row is in the row, or its columns read as empty. */
  lemma SocialCarried(t: Tables, id: nat, anio: int, n: int)
    requires 1 <= id <= |t.workers| && 1 <= anio <= 9999
    ensures Carries(ImportRow(Written(Block(t, id, anio, n))), SocialCells(RowOr(t.socials, id, anio, NoSocial)))
  {
    if (id, anio) in t.socials {
      SocialPresentCarried(t, id, anio, n);
    } else {
      SocialAbsentCarried(t, id, anio, n);
    }
  }

  /** A stored social security row is in the row. */
  lemma SocialPresentCarried(t: Tables, id: nat, anio: int, n: int)
    requires 1 <= id <= |t.workers| && 1 <= anio <= 9999 && (id, anio) in t.socials
    ensures Carries(ImportRow(Written(Block(t, id, anio, n))), SocialCells(t.socials[(id, anio)]))
  {
    PresentCarried(t, id, anio, n);
    FixedCarried(ImportRow(Written(Block(t, id, anio, n))), t, id, anio);
  }

  /** Without a social security row, its columns read as empty. */
  lemma SocialAbsentCarried(t: Tables, id: nat, anio: int, n: int)
    requires 1 <= id <= |t.workers| && 1 <= anio <= 9999 && (id, anio) !in t.socials
    ensures Carries(ImportRow(Written(Block(t, id, anio, n))), SocialCells(NoSocial))
  {
    NoneBlank(anio, 1);
    SocialSpans(NoSocial);
    AbsentClear(t, id, anio, n, 24, 30);
    AbsentBlank(Block(t, id, anio, n), SocialCells(NoSocial), 24, 30);
  }

  /** The onboarding section assigns columns 16 to 19 in turn. */
  lemma OnboardingSpans(o: Onboarding)
    ensures Spans(OnboardingCells(o), 16) && |OnboardingCells(o)| == 4
  {
  }

  /** The offboarding section assigns columns 20 to 23 in turn. */
  lemma OffboardingSpans(o: Offboarding)
    ensures Spans(OffboardingCells(o), 20) && |OffboardingCells(o)| == 4
  {
  }

  /** The project flags assign columns 33 to 37 in turn. */
  lemma ProjectSpans(f: ProjectFlags)
    ensures Spans(ProjectCells(f), 33) && |ProjectCells(f)| == 5
  {
  }

  /** Month `m`'s cells assign its four columns in turn. */
  lemma MonthSpans(m: int, r: ScheduleRow)
    requires 1 <= m <= 12
    ensures Spans(MonthCells(m, r), ExportMonthColumn(m)) && |MonthCells(m, r)| == 4
  {
  }

  /** The social security section assigns columns 24 to 30 in turn. */
  lemma SocialSpans(s: SocialSecurity)
    ensures Spans(SocialCells(s), 24) && |SocialCells(s)| == 7
  {
  }

  /** The project flags is in the row, or its columns read as empty. */
  lemma FlagsCarried(t: Tables, id: nat, anio: int, n: int)
    requires 1 <= id <= |t.workers| && 1 <= anio <= 9999
    ensures Carries(ImportRow(Written(Block(t, id, anio, n))), ProjectCells(RowOr(t.projects, id, anio, DefaultFlags)))
  {
    var full := Block(t, id, anio, n);
    if (id, anio) in t.projects {
      PresentCarried(t, id, anio, n);
      FixedCarried(ImportRow(Written(full)), t, id, anio);
    } else {
      NoneBlank(anio, 1);
      ProjectSpans(DefaultFlags);
      AbsentClear(t, id, anio, n, 33, 37);
      AbsentBlank(full, ProjectCells(DefaultFlags), 33, 37);
    }
  }

  /** Every month is in the row, those without a schedule row as empty
      cells. */
  lemma MonthsAllCarried(t: Tables, id: nat, anio: int, n: int)
    requires 1 <= id <= |t.workers| && 1 <= anio <= 9999
    ensures forall m :: 1 <= m <= 12 ==> MonthCarried(ImportRow(Written(Block(t, id, anio, n))), t.schedules, id, anio, m)
  {
    var full := Block(t, id, anio, n);
    var row := ImportRow(Written(full));
    PresentCarried(t, id, anio, n);
    forall m | 1 <= m <= 12 ensures MonthCarried(row, t.schedules, id, anio, m) {
      if (id, Date(anio, m, 1)) in t.schedules {
        MonthsCarried(row, t.schedules, id, anio, 1, m);
      } else {
        AbsentMonthCarried(t, id, anio, n, m);
      }
    }
  }

  /** A month without a schedule row reads as empty cells. */
  lemma AbsentMonthCarried(t: Tables, id: nat, anio: int, n: int, m: int)
    requires 1 <= id <= |t.workers| && 1 <= anio <= 9999 && 1 <= m <= 12
    requires (id, Date(anio, m, 1)) !in t.schedules
    ensures MonthCarried(ImportRow(Written(Block(t, id, anio, n))), t.schedules, id, anio, m)
  {
    NoneBlank(anio, m);
    MonthSpans(m, NoSchedule(anio));
    AbsentMonthClear(t, id, anio, n, m);
    AbsentBlank(Block(t, id, anio, n), MonthCells(m, NoSchedule(anio)), ExportMonthColumn(m), ExportMonthColumn(m) + 3);
  }

  /** A nullable amount is canonical when present. */
  predicate Normalized(v: Option<Decimal>)
  {
    v.Some? ==> Normal(v.value)
  }

  /** Worker `id` has a contract for `anio` and every text and amount of
      its block survives its cell. */
  predicate Exportable(t: Tables, id: nat, anio: int)
  {
    1 <= id <= |t.workers| && 1 <= anio <= 9999 && (id, anio) in t.contracts
    && CleanWorker(t.workers[id - 1])
    && CleanContract(t.contracts[(id, anio)])
    && CleanSocial(RowOr(t.socials, id, anio, NoSocial))
    && Normalized(RowOr(t.offboardings, id, anio, NoOffboarding).valorLiquidacion)
    && CleanMonths(t.schedules, id, anio)
  }

  /** What the import makes of worker `id`'s facts for `anio`: a missing
      section as its empty row, a zero settlement as null, the social
      security texts as "" when null, and every month of the year. */
  function ImportedFacts(t: Tables, id: nat, anio: int): Importar.Facts
    requires 1 <= anio <= 9999 && (id, anio) in t.contracts
  {
    var off := RowOr(t.offboardings, id, anio, NoOffboarding);
    Importar.Facts(
      t.contracts[(id, anio)],
      RowOr(t.onboardings, id, anio, NoOnboarding),
      off.(valorLiquidacion := Settlement(off.valorLiquidacion)),
      ImportedSocial(RowOr(t.socials, id, anio, NoSocial)),
      RowOr(t.projects, id, anio, DefaultFlags),
      ImportedMonths(t.schedules, id, anio))
  }

  /** A row carrying the year's sections and months reads back as the
      year's facts. */
  lemma FactsBack(row: seq<Cell>, t: Tables, id: nat, anio: int)
    requires Exportable(t, id, anio)
    requires Carries(row, ContractCells(t.contracts[(id, anio)]))
    requires Carries(row, OnboardingCells(RowOr(t.onboardings, id, anio, NoOnboarding)))
    requires Carries(row, OffboardingCells(RowOr(t.offboardings, id, anio, NoOffboarding)))
    requires Carries(row, SocialCells(RowOr(t.socials, id, anio, NoSocial)))
    requires Carries(row, ProjectCells(RowOr(t.projects, id, anio, DefaultFlags)))
    requires forall m :: 1 <= m <= 12 ==> MonthCarried(row, t.schedules, id, anio, m)
    ensures Importar.ParseFacts(row, anio) == Some(ImportedFacts(t, id, anio))
  {
    ContractBack(row, t.contracts[(id, anio)]);
    OnboardingBack(row, RowOr(t.onboardings, id, anio, NoOnboarding));
    OffboardingBack(row, RowOr(t.offboardings, id, anio, NoOffboarding));
    SocialBack(row, RowOr(t.socials, id, anio, NoSocial));
    FlagsBack(row, RowOr(t.projects, id, anio, DefaultFlags));
    AllMonthsBack(row, t.schedules, id, anio);
  }

  /** The import reads back the row the export command writes for a worker
      whose block runs without raising (a block that raises leaves only
      part of its cells): the number keeps the row from being skipped, the
      identification comes back as the worker and the rest as the year's
      facts. */
  lemma ExportedRowBack(t: Tables, id: nat, anio: int, n: int)
    requires Exportable(t, id, anio) && n != 0
    requires Exportar.Succeeds(Block(t, id, anio, n))
    ensures Importar.ParseRow(ImportRow(Written(Block(t, id, anio, n))), anio)
      == Importar.Parsed(ImportedWorker(t.workers[id - 1]), ImportedFacts(t, id, anio))
  {
    var row := ImportRow(Written(Block(t, id, anio, n)));
    PresentCarried(t, id, anio, n);
    FixedCarried(row, t, id, anio);
    NumberBack(row, n);
    IdentityBack(row, t.workers[id - 1]);
    OnboardingCarried(t, id, anio, n);
    OffboardingCarried(t, id, anio, n);
    SocialCarried(t, id, anio, n);
    FlagsCarried(t, id, anio, n);
    MonthsAllCarried(t, id, anio, n);
    FactsBack(row, t, id, anio);
  }
}
