/** The `exportar-excel` action of the worker API
    (trabajadores/views.py): every worker, by id, written into the active
    sheet of the template and sent back as a download named after the
    moment of the request.

    As written, each worker's block reads `trabajador.contratacion`, which a
    worker does not have (its contracts are `trabajador.contrataciones`);
    the AttributeError is not the `DoesNotExist` the block expects, so every
    worker fails right after its identification columns. The corrected
    block looks each related row up the way the action looks up the
    project: no row skips the section, one row is written, more than one
    raises. */
module ExportarVista {
  import opened Wrappers
  import opened Dates
  import opened Money
  import opened Cells
  import opened Sheets
  import opened Trabajadores
  import opened Contratacion
  import opened Registros
  import opened Proyectos
  import opened Cronograma
  import opened Store
  import opened Exportar
  import Text

  /** The year whose months the action exports, whatever the data. */
  const ScheduleYear := 2025

  /** `value or ''` for a nullable text field. */
  function OrEmpty(o: Option<string>): Option<Cell>
  {
    Some(Str(if o.Some? then o.value else ""))
  }

  /** Columns 2-9 as the action writes them: text fields fall back to ''. */
  function ViewIdentity(w: Worker): Plan
  {
    [Write(2, TextCell(IdCode(w.tipo))), Write(3, TextCell(w.numero)),
     Write(4, Some(When(w.fechaExpedicion))), Write(5, Some(When(w.fechaNacimiento))),
     Write(6, TextCell(w.primerApellido)), Write(7, OrEmpty(w.segundoApellido)),
     Write(8, TextCell(w.primerNombre)), Write(9, OrEmpty(w.segundoNombre))]
  }

  /** The block as written: the identification, then the AttributeError of
      `trabajador.contratacion`. */
  function AsWrittenBody(w: Worker): Plan
  {
    ViewIdentity(w) + [Raise]
  }

  /** The as-written blocks of every worker, by id. */
  function AsWrittenBodies(workers: seq<Worker>): (bodies: seq<Plan>)
    ensures |bodies| == |workers|
    ensures forall i :: 0 <= i < |workers| ==> bodies[i] == AsWrittenBody(workers[i])
  {
    seq(|workers|, i requires 0 <= i < |workers| => AsWrittenBody(workers[i]))
  }

  // ------------------------------------------------ the finding, as written

  /** Overlaying a row twice with cells for the same columns keeps the
      second. */
  lemma OverlayTwice(g: Grid, r: int, w1: map<int, Cell>, w2: map<int, Cell>)
    requires w1.Keys == w2.Keys
    ensures Overlay(Overlay(g, r, w1), r, w2) == Overlay(g, r, w2)
  {
  }

  /** When every block fails after writing the same columns, nothing is
      counted and row 5 ends up with the last block's cells only. */
  lemma {:induction false} AllFailSameColumns(g: Grid, bodies: seq<Plan>, cols: set<int>)
    requires forall i :: 0 <= i < |bodies| ==> !Succeeds(bodies[i])
    requires forall i :: 0 <= i < |bodies| ==> Partial(Numbered(1, bodies[i])).Keys == cols
    ensures Successes(bodies) == 0
    ensures bodies != [] ==>
      Exported(g, bodies) == Overlay(g, FirstDataRow, Partial(Numbered(1, bodies[|bodies| - 1])))
    decreases |bodies|
  {
    if bodies != [] {
      var init := bodies[..|bodies| - 1];
      var last := bodies[|bodies| - 1];
      AllFailSameColumns(g, init, cols);
      ExportedStep(g, bodies);
      RowAfterOverlay(Exported(g, init), FirstDataRow, Numbered(1, last));
      if init != [] {
        OverlayTwice(g, FirstDataRow, Partial(Numbered(1, init[|init| - 1])), Partial(Numbered(1, last)));
      } else {
        assert Exported(g, init) == g;
      }
    }
  }

  /** Every column of the identification block the action writes
      (with its number) holds a value. */
  function IdentityColumns(): set<int>
  {
    {1, 2, 3, 4, 5, 6, 7, 8, 9}
  }

  /** The number and identification a worker's as-written block leaves,
      when none of its text is refused. */
  lemma AsWrittenPartial(n: int, w: Worker)
    requires Succeeds(ViewIdentity(w))
    ensures Partial(Numbered(n, AsWrittenBody(w))) == Written(Numbered(n, ViewIdentity(w)))
    ensures Written(Numbered(n, ViewIdentity(w))).Keys == IdentityColumns()
  {
    var p := Numbered(n, AsWrittenBody(w));
    var q := Numbered(n, ViewIdentity(w));
    NumberedSucceeds(n, ViewIdentity(w));
    assert p == q + [Raise];
    assert FirstFailure(p) == |q| by {
      assert forall j :: 0 <= j < |q| ==> p[j] == q[j];
      assert Fails(p[|q|]);
    }
    assert p[..|q|] == q;
    IdentityKeys(n, w);
  }

  /** The columns a block assigns a value in. */
  function WrittenColumns(p: Plan): set<int>
  {
    set i | 0 <= i < |p| && p[i].Write? && p[i].v.Some? :: p[i].col
  }

  /** A block leaves a cell in exactly the columns it assigns a value in. */
  lemma {:induction false} WrittenKeys(p: Plan)
    ensures Written(p).Keys == WrittenColumns(p)
    decreases |p|
  {
    if p != [] {
      var init := p[..|p| - 1];
      WrittenKeys(init);
      forall c | c in WrittenColumns(p) ensures c in Written(p) {
        var i :| 0 <= i < |p| && p[i].Write? && p[i].v.Some? && p[i].col == c;
        if i < |p| - 1 {
          assert init[i] == p[i];
          assert c in WrittenColumns(init);
        }
      }
      forall c | c in Written(p) ensures c in WrittenColumns(p) {
        if c in Written(init) {
          var i :| 0 <= i < |init| && init[i].Write? && init[i].v.Some? && init[i].col == c;
          assert p[i] == init[i];
        } else {
          assert p[|p| - 1].col == c;
        }
      }
    }
  }

  /** The identification block, with its number, writes columns 1-9. */
  lemma IdentityKeys(n: int, w: Worker)
    ensures Written(Numbered(n, ViewIdentity(w))).Keys == IdentityColumns()
  {
    var q := Numbered(n, ViewIdentity(w));
    WrittenKeys(q);
    assert |q| == 9;
    assert forall i :: 0 <= i < 9 ==> q[i].Write? && q[i].v.Some? && q[i].col == i + 1;
    forall c | c in IdentityColumns() ensures c in WrittenColumns(q) {
      assert q[c - 1].col == c;
    }
  }

  /** The action as written exports no worker: its sheet has the headers
      and a single data row, numbered 1, holding the last worker's
      identification. */
  lemma AsWrittenExportsLastOnly(g: Grid, workers: seq<Worker>)
    requires workers != []
    requires forall i :: 0 <= i < |workers| ==> Succeeds(ViewIdentity(workers[i]))
    ensures Successes(AsWrittenBodies(workers)) == 0
    ensures Exported(g, AsWrittenBodies(workers))
      == Overlay(g, FirstDataRow, Written(Numbered(1, ViewIdentity(workers[|workers| - 1]))))
  {
    var bodies := AsWrittenBodies(workers);
    forall i | 0 <= i < |bodies|
      ensures !Succeeds(bodies[i])
      ensures Partial(Numbered(1, bodies[i])).Keys == IdentityColumns()
    {
      assert bodies[i] == AsWrittenBody(workers[i]);
      assert Fails(bodies[i][|bodies[i]| - 1]);
      AsWrittenPartial(1, workers[i]);
    }
    AllFailSameColumns(g, bodies, IdentityColumns());
    AsWrittenPartial(1, workers[|workers| - 1]);
  }

  // --------------------------------------------------- the corrected block

  /** What a lookup without a year finds among a worker's yearly rows. */
  datatype Lookup<T> = NoRow | One(row: T) | Many

  /** `Model.objects.get(trabajador=...)`: the row when there is exactly
      one. */
  function Find<T>(rows: map<(nat, int), T>, id: nat): Lookup<T>
  {
    if exists k :: k in rows && k.0 == id then
      var k0 :| k0 in rows && k0.0 == id;
      LeastExists(rows, k0);
      var k :| k in rows && k.0 == id && forall k' :: k' in rows && k'.0 == id ==> k.1 <= k'.1;
      if forall k' :: k' in rows && k'.0 == id ==> k'.1 == k.1 then One(rows[k])
      else Many
    else NoRow
  }

  /** A lookup finds no row exactly when the worker has none, one row
      exactly when the worker has rows for a single year, and then that
      year's row. */
  lemma FindCases<T>(rows: map<(nat, int), T>, id: nat)
    ensures var r := Find(rows, id);
      (r.NoRow? <==> forall y :: (id, y) !in rows)
      && (r.One? <==> exists y :: (id, y) in rows && forall y' :: (id, y') in rows ==> y' == y)
      && (r.One? ==> exists y :: (id, y) in rows && rows[(id, y)] == r.row)
  {
  }

  /** Among a worker's rows there is one of least year. */
  lemma {:induction false} LeastExists<T>(rows: map<(nat, int), T>, k0: (nat, int))
    requires k0 in rows
    ensures exists k :: k in rows && k.0 == k0.0 && forall k' :: k' in rows && k'.0 == k0.0 ==> k.1 <= k'.1
    decreases |rows|
  {
    var rest := rows - {k0};
    if exists k1 :: k1 in rest && k1.0 == k0.0 {
      var k1 :| k1 in rest && k1.0 == k0.0;
      LeastExists(rest, k1);
      var k :| k in rest && k.0 == k0.0 && forall k' :: k' in rest && k'.0 == k0.0 ==> k.1 <= k'.1;
      if k0.1 < k.1 {
        assert forall k' :: k' in rows && k'.0 == k0.0 ==> k0.1 <= k'.1;
      } else {
        assert forall k' :: k' in rows && k'.0 == k0.0 ==> k.1 <= k'.1;
      }
    } else {
      assert forall k' :: k' in rows && k'.0 == k0.0 ==> k' == k0;
    }
  }

  /** A looked-up section: skipped when there is no row, raising when there
      is more than one. */
  function Looked<T>(l: Lookup<T>, cells: T -> Plan): Plan
  {
    match l
    case NoRow => []
    case One(row) => cells(row)
    case Many => [Raise]
  }

  /** Columns 10-15 as the action writes them: a zero or missing salary is
      written as 0. */
  function ViewContractCells(c: Contract): Plan
  {
    [Write(10, TextCell(ContractLabel(c.tipo))), Write(11, TextCell(c.cargo)),
     Write(12, Some(AmountOrZero(c.salario))), Write(13, TextCell(c.municipioBase)),
     Write(14, DateCell(c.inicio)), Write(15, DateCell(c.fin))]
  }

  /** The corrected block for worker `id`. */
  function CorrectedBody(t: Tables, id: nat): Plan
    requires 1 <= id <= |t.workers|
  {
    ViewIdentity(t.workers[id - 1])
    + Looked(Find(t.contracts, id), ViewContractCells)
    + Looked(Find(t.onboardings, id), OnboardingCells)
    + Looked(Find(t.offboardings, id), OffboardingCells)
    + Looked(Find(t.socials, id), SocialCells)
    + Looked(Find(t.projects, id), ProjectCells)
    + MonthsCells(t.schedules, id, ScheduleYear, 1)
  }

  /** The corrected blocks of every worker, by id. */
  function CorrectedBodies(t: Tables): (bodies: seq<Plan>)
    ensures |bodies| == |t.workers|
    ensures forall i :: 0 <= i < |bodies| ==> bodies[i] == CorrectedBody(t, i + 1)
  {
    CorrectedUpTo(t, |t.workers|)
  }

  /** The corrected blocks of workers 1 to `n`, by id. */
  function CorrectedUpTo(t: Tables, n: nat): (bodies: seq<Plan>)
    requires n <= |t.workers|
    ensures |bodies| == n
    ensures forall i :: 0 <= i < n ==> bodies[i] == CorrectedBody(t, i + 1)
  {
    if n == 0 then [] else CorrectedUpTo(t, n - 1) + [CorrectedBody(t, n)]
  }

  /** A block of joined parts runs through when each part does. */
  lemma SucceedsJoin(a: Plan, b: Plan)
    ensures Succeeds(a + b) <==> Succeeds(a) && Succeeds(b)
  {
    if Succeeds(a + b) {
      forall i | 0 <= i < |b| ensures !Fails(b[i]) {
        assert b[i] == (a + b)[|a| + i];
      }
      forall i | 0 <= i < |a| ensures !Fails(a[i]) {
        assert a[i] == (a + b)[i];
      }
    }
  }

  /** A corrected block fails exactly when a lookup finds more than one
      row or a text it writes is refused. */
  lemma CorrectedSucceeds(t: Tables, id: nat)
    requires 1 <= id <= |t.workers|
    ensures Succeeds(CorrectedBody(t, id)) <==>
      Succeeds(ViewIdentity(t.workers[id - 1]))
      && Succeeds(Looked(Find(t.contracts, id), ViewContractCells))
      && Succeeds(Looked(Find(t.onboardings, id), OnboardingCells))
      && Succeeds(Looked(Find(t.offboardings, id), OffboardingCells))
      && Succeeds(Looked(Find(t.socials, id), SocialCells))
      && Succeeds(Looked(Find(t.projects, id), ProjectCells))
      && Succeeds(MonthsCells(t.schedules, id, ScheduleYear, 1))
  {
    var p1 := ViewIdentity(t.workers[id - 1]);
    var s2 := Looked(Find(t.contracts, id), ViewContractCells);
    var s3 := Looked(Find(t.onboardings, id), OnboardingCells);
    var s4 := Looked(Find(t.offboardings, id), OffboardingCells);
    var s5 := Looked(Find(t.socials, id), SocialCells);
    var s6 := Looked(Find(t.projects, id), ProjectCells);
    var s7 := MonthsCells(t.schedules, id, ScheduleYear, 1);
    SucceedsJoin(p1, s2);
    SucceedsJoin(p1 + s2, s3);
    SucceedsJoin(p1 + s2 + s3, s4);
    SucceedsJoin(p1 + s2 + s3 + s4, s5);
    SucceedsJoin(p1 + s2 + s3 + s4 + s5, s6);
    SucceedsJoin(p1 + s2 + s3 + s4 + s5 + s6, s7);
  }

  /** A lookup that finds two rows makes the worker's block fail. */
  lemma ManyFails<T>(cells: T -> Plan)
    ensures !Succeeds(Looked(Many, cells))
  {
    assert Looked(Many, cells)[0] == Raise;
  }

  /** With the corrected block, row 5 + i holds exactly the i-th exported
      worker's cells, numbered i + 1, and nothing lies below the last. */
  lemma CorrectedRows(g: Grid, t: Tables)
    requires RowsBefore(g, FirstDataRow) == g
    requires forall id :: 1 <= id <= |t.workers| ==> Succeeds(CorrectedBody(t, id))
    ensures Successes(CorrectedBodies(t)) == |t.workers|
    ensures forall i :: 0 <= i < |t.workers| ==>
      RowCells(Exported(g, CorrectedBodies(t)), FirstDataRow + i) == RowOf(CorrectedBodies(t), i)
  {
    var bodies := CorrectedBodies(t);
    forall i | 0 <= i < |bodies| ensures Succeeds(bodies[i]) {
      assert bodies[i] == CorrectedBody(t, i + 1);
    }
    ExportedRows(g, bodies);
  }

  // ------------------------------------------------------- the download

  /** `datetime.now()`. */
  datatype Moment = Moment(year: int, month: int, day: int, hour: int, minute: int, second: int)

  /** The ranges `datetime` keeps its fields in. */
  predicate ValidMoment(m: Moment)
  {
    Dates.Valid(Date(m.year, m.month, m.day))
    && 0 <= m.hour < 24 && 0 <= m.minute < 60 && 0 <= m.second < 60
  }

  const FilePrefix := "RELACION_PERSONAL_EXPORT_"
  const FileSuffix := ".xlsx"

  /** `f'RELACION_PERSONAL_EXPORT_{now.strftime("%Y%m%d_%H%M%S")}.xlsx'`. */
  function FileName(m: Moment): (s: string)
    requires ValidMoment(m)
    ensures |s| == 45
  {
    FilePrefix + IsoField(m.year, 4) + IsoField(m.month, 2) + IsoField(m.day, 2)
    + "_" + IsoField(m.hour, 2) + IsoField(m.minute, 2) + IsoField(m.second, 2) + FileSuffix
  }

  /** The number the digits `s[i..j]` spell, if they are digits. */
  function FieldAt(s: string, i: nat, j: nat): (r: Option<nat>)
    requires i <= j <= |s|
    ensures r.Some? <==> Text.IsDigits(s[i..j])
    ensures r.Some? ==> r.value == Text.DigitsValue(s[i..j])
  {
    if Text.IsDigits(s[i..j]) then Some(Text.DigitsValue(s[i..j])) else None
  }

  /** Reads the moment back from a download's name. */
  function ParseFileName(s: string): Option<Moment>
  {
    if |s| == 45 && s[..25] == FilePrefix && s[40..] == FileSuffix && s[33] == '_' then
      var y, mo, d := FieldAt(s, 25, 29), FieldAt(s, 29, 31), FieldAt(s, 31, 33);
      var h, mi, se := FieldAt(s, 34, 36), FieldAt(s, 36, 38), FieldAt(s, 38, 40);
      if y.Some? && mo.Some? && d.Some? && h.Some? && mi.Some? && se.Some? then
        Some(Moment(y.value, mo.value, d.value, h.value, mi.value, se.value))
      else None
    else None
  }

  /** Reading back a name assembled from its digit fields gives the
      fields' values. */
  lemma {:induction false} ParseAssembled(y: string, mo: string, d: string, h: string, mi: string, se: string)
    requires |y| == 4 && |mo| == 2 && |d| == 2 && |h| == 2 && |mi| == 2 && |se| == 2
    requires Text.IsDigits(y) && Text.IsDigits(mo) && Text.IsDigits(d)
    requires Text.IsDigits(h) && Text.IsDigits(mi) && Text.IsDigits(se)
    ensures ParseFileName(FilePrefix + y + mo + d + "_" + h + mi + se + FileSuffix)
      == Some(Moment(Text.DigitsValue(y), Text.DigitsValue(mo), Text.DigitsValue(d),
                     Text.DigitsValue(h), Text.DigitsValue(mi), Text.DigitsValue(se)))
  {
    AssembledSlices(y, mo, d, h, mi, se);
    ParseSlices(FilePrefix + y + mo + d + "_" + h + mi + se + FileSuffix, y, mo, d, h, mi, se);
  }

  /** A name of the right shape whose fields hold the given digits reads
      as their values. */
  lemma {:induction false} ParseSlices(s: string, y: string, mo: string, d: string, h: string, mi: string, se: string)
    requires |s| == 45 && s[..25] == FilePrefix && s[40..] == FileSuffix && s[33] == '_'
    requires s[25..29] == y && s[29..31] == mo && s[31..33] == d
    requires s[34..36] == h && s[36..38] == mi && s[38..40] == se
    requires Text.IsDigits(y) && Text.IsDigits(mo) && Text.IsDigits(d)
    requires Text.IsDigits(h) && Text.IsDigits(mi) && Text.IsDigits(se)
    ensures ParseFileName(s)
      == Some(Moment(Text.DigitsValue(y), Text.DigitsValue(mo), Text.DigitsValue(d),
                     Text.DigitsValue(h), Text.DigitsValue(mi), Text.DigitsValue(se)))
  {
    DateFields(s, y, mo, d);
    TimeFields(s, h, mi, se);
    ParseFields(s, Moment(Text.DigitsValue(y), Text.DigitsValue(mo), Text.DigitsValue(d),
                          Text.DigitsValue(h), Text.DigitsValue(mi), Text.DigitsValue(se)));
  }

  /** The date digits of a name read as their values. */
  lemma DateFields(s: string, y: string, mo: string, d: string)
    requires |s| == 45 && s[25..29] == y && s[29..31] == mo && s[31..33] == d
    requires Text.IsDigits(y) && Text.IsDigits(mo) && Text.IsDigits(d)
    ensures FieldAt(s, 25, 29) == Some(Text.DigitsValue(y))
    ensures FieldAt(s, 29, 31) == Some(Text.DigitsValue(mo))
    ensures FieldAt(s, 31, 33) == Some(Text.DigitsValue(d))
  {
  }

  /** The time digits of a name read as their values. */
  lemma TimeFields(s: string, h: string, mi: string, se: string)
    requires |s| == 45 && s[34..36] == h && s[36..38] == mi && s[38..40] == se
    requires Text.IsDigits(h) && Text.IsDigits(mi) && Text.IsDigits(se)
    ensures FieldAt(s, 34, 36) == Some(Text.DigitsValue(h))
    ensures FieldAt(s, 36, 38) == Some(Text.DigitsValue(mi))
    ensures FieldAt(s, 38, 40) == Some(Text.DigitsValue(se))
  {
  }

  /** Where each field sits in an assembled name. */
  lemma AssembledSlices(y: string, mo: string, d: string, h: string, mi: string, se: string)
    requires |y| == 4 && |mo| == 2 && |d| == 2 && |h| == 2 && |mi| == 2 && |se| == 2
    ensures var s := FilePrefix + y + mo + d + "_" + h + mi + se + FileSuffix;
      |s| == 45 && s[..25] == FilePrefix && s[40..] == FileSuffix && s[33] == '_'
      && s[25..29] == y && s[29..31] == mo && s[31..33] == d
      && s[34..36] == h && s[36..38] == mi && s[38..40] == se
  {
    var p1 := FilePrefix + y;
    var p2 := p1 + mo;
    var p3 := p2 + d;
    var p4 := p3 + "_";
    var p5 := p4 + h;
    var p6 := p5 + mi;
    var p7 := p6 + se;
    var s := p7 + FileSuffix;
    Prefixed(p7, FileSuffix);
    Prefixed(p6, se);
    Prefixed(p5, mi);
    Prefixed(p4, h);
    Prefixed(p3, "_");
    Prefixed(p2, d);
    Prefixed(p1, mo);
    Prefixed(FilePrefix, y);
    assert s[..40] == p7 && s[40..] == FileSuffix;
    assert s[38..40] == se && s[..38] == p6;
    assert s[36..38] == mi && s[..36] == p5;
    assert s[34..36] == h && s[..34] == p4;
    assert s[33] == '_' && s[..33] == p3;
    assert s[31..33] == d && s[..31] == p2;
    assert s[29..31] == mo && s[..29] == p1;
    assert s[25..29] == y && s[..25] == FilePrefix;
  }

  /** A name of the right shape whose fields read as `m`'s reads as `m`. */
  lemma ParseFields(s: string, m: Moment)
    requires |s| == 45 && s[..25] == FilePrefix && s[40..] == FileSuffix && s[33] == '_'
    requires FieldAt(s, 25, 29) == Some(m.year) && FieldAt(s, 29, 31) == Some(m.month)
    requires FieldAt(s, 31, 33) == Some(m.day) && FieldAt(s, 34, 36) == Some(m.hour)
    requires FieldAt(s, 36, 38) == Some(m.minute) && FieldAt(s, 38, 40) == Some(m.second)
    ensures ParseFileName(s) == Some(m)
  {
  }

  /** The parts of a joined string. */
  lemma Prefixed(a: string, b: string)
    ensures (a + b)[..|a|] == a && (a + b)[|a|..] == b
    ensures forall i, j :: 0 <= i <= j <= |a| ==> (a + b)[i..j] == a[i..j]
  {
  }

  /** The name records the moment it was made at. */
  lemma FileNameRoundTrip(m: Moment)
    requires ValidMoment(m)
    ensures ParseFileName(FileName(m)) == Some(m)
  {
    ParseAssembled(IsoField(m.year, 4), IsoField(m.month, 2), IsoField(m.day, 2),
                   IsoField(m.hour, 2), IsoField(m.minute, 2), IsoField(m.second, 2));
  }

  /** Downloads made at different moments have different names. */
  lemma FileNameInjective(a: Moment, b: Moment)
    requires ValidMoment(a) && ValidMoment(b) && FileName(a) == FileName(b)
    ensures a == b
  {
    FileNameRoundTrip(a);
    FileNameRoundTrip(b);
  }

  /** The action's answer. */
  datatype Response =
    | NotFound
    | ServerError
    | Download(name: string, book: Book)

  /** The action's answer for the blocks `bodies`: a missing template
      answers 404; a template whose active sheet is gone answers 500;
      otherwise the active sheet keeps its four header rows and gets the
      blocks' rows, and the workbook goes back under the request's
      time-stamped name. */
  method Respond(templateExists: bool, template: Book, bodies: seq<Plan>, now: Moment) returns (r: Response)
    requires ValidMoment(now)
    ensures r.NotFound? <==> !templateExists
    ensures r.ServerError? <==> templateExists && template.active >= |template.sheets|
    ensures r.Download? ==> (template.active < |template.sheets|
      && r.name == FileName(now)
      && r.book == template.(sheets := template.sheets[template.active :=
           template.sheets[template.active].(cells :=
             Exported(RowsBefore(template.sheets[template.active].cells, FirstDataRow), bodies))]))
  {
    if !templateExists {
      return NotFound;
    }
    if template.active >= |template.sheets| {
      return ServerError;
    }
    var active := template.sheets[template.active];
    var ws := new Sheet(active.cells);
    ws.ClearData();
    var count := ExportRows(ws, bodies);
    var sheets := template.sheets[template.active := active.(cells := ws.cells)];
    r := Download(FileName(now), template.(sheets := sheets));
  }

  /** The as-written sheet: with at least one worker whose identification
      is accepted, only the last worker's identification remains, in row 5. */
  lemma AsWrittenSheet(g: Grid, workers: seq<Worker>)
    ensures workers != [] && (forall i :: 0 <= i < |workers| ==> Succeeds(ViewIdentity(workers[i]))) ==>
      Exported(g, AsWrittenBodies(workers))
        == Overlay(g, FirstDataRow, Written(Numbered(1, ViewIdentity(workers[|workers| - 1]))))
  {
    if workers != [] && (forall i :: 0 <= i < |workers| ==> Succeeds(ViewIdentity(workers[i]))) {
      AsWrittenExportsLastOnly(g, workers);
    }
  }

  /** `GET /api/trabajadores/exportar-excel/` as written: every worker's
      block is the as-written one, so the download holds the headers and,
      in row 5, the last worker's identification numbered 1. */
  method ExportView(templateExists: bool, template: Book, t: Tables, now: Moment) returns (r: Response)
    requires ValidMoment(now)
    ensures r.NotFound? <==> !templateExists
    ensures r.ServerError? <==> templateExists && template.active >= |template.sheets|
    ensures r.Download? ==> (template.active < |template.sheets|
      && r.name == FileName(now)
      && r.book == template.(sheets := template.sheets[template.active :=
           template.sheets[template.active].(cells :=
             Exported(RowsBefore(template.sheets[template.active].cells, FirstDataRow), AsWrittenBodies(t.workers)))]))
    ensures (r.Download? && t.workers != []
             && forall i :: 0 <= i < |t.workers| ==> Succeeds(ViewIdentity(t.workers[i]))) ==>
      r.book.sheets[template.active].cells
        == Overlay(RowsBefore(template.sheets[template.active].cells, FirstDataRow), FirstDataRow,
                   Written(Numbered(1, ViewIdentity(t.workers[|t.workers| - 1]))))
  {
    r := Respond(templateExists, template, AsWrittenBodies(t.workers), now);
    if r.Download? {
      AsWrittenSheet(RowsBefore(template.sheets[template.active].cells, FirstDataRow), t.workers);
    }
  }

  /** The action with the corrected blocks: every worker's row is written
      in id order. */
  method CorrectedExportView(templateExists: bool, template: Book, t: Tables, now: Moment) returns (r: Response)
    requires ValidMoment(now)
    ensures r.NotFound? <==> !templateExists
    ensures r.ServerError? <==> templateExists && template.active >= |template.sheets|
    ensures r.Download? ==> (template.active < |template.sheets|
      && r.name == FileName(now)
      && r.book == template.(sheets := template.sheets[template.active :=
           template.sheets[template.active].(cells :=
             Exported(RowsBefore(template.sheets[template.active].cells, FirstDataRow), CorrectedBodies(t)))]))
  {
    r := Respond(templateExists, template, CorrectedBodies(t), now);
  }
}
