/** The contract list endpoints (contratacion/views.py): the active-contracts
    query, the per-worker query, and the order they come out in. */
module ContratacionViews {
  import opened Wrappers
  import opened Dates
  import opened Contratacion

  /** A stored contract with the worker it belongs to. */
  datatype ContractRow = ContractRow(trabajador: nat, anio: int, contract: Contract)

  /** The filter of `contratos_activos`: a start date on or before today, and
      either no end date or one on or after today (SQL comparisons with NULL
      are false, so a contract without a start date is never kept). */
  predicate ActiveQuery(c: Contract, today: CalendarDate)
  {
    c.inicio.Some? && LessEq(c.inicio.value, today) && (c.fin.None? || LessEq(today, c.fin.value))
  }

  /** The rows satisfying `p`, in their original order. */
  function Keep(rows: seq<ContractRow>, p: ContractRow -> bool): (r: seq<ContractRow>)
    ensures |r| <= |rows|
    ensures forall x :: x in r <==> x in rows && p(x)
  {
    if rows == [] then [] else (if p(rows[0]) then [rows[0]] else []) + Keep(rows[1..], p)
  }

  /** `contratos_activos`. */
  function ContratosActivos(rows: seq<ContractRow>, today: CalendarDate): (r: seq<ContractRow>)
  {
    Keep(rows, (x: ContractRow) => ActiveQuery(x.contract, today))
  }

  /** `por_trabajador`. */
  function PorTrabajador(rows: seq<ContractRow>, pk: nat): (r: seq<ContractRow>)
  {
    Keep(rows, (x: ContractRow) => x.trabajador == pk)
  }

  /** A contract is listed as active exactly when the query accepts it. */
  lemma ContratosActivosMembers(rows: seq<ContractRow>, today: CalendarDate, x: ContractRow)
    ensures x in ContratosActivos(rows, today) <==> x in rows && ActiveQuery(x.contract, today)
  {
  }

  /** `por_trabajador` returns exactly the contracts of that worker. */
  lemma PorTrabajadorMembers(rows: seq<ContractRow>, pk: nat, x: ContractRow)
    ensures x in PorTrabajador(rows, pk) <==> x in rows && x.trabajador == pk
  {
  }

  /** For a contract with a start date, the query and `contrato_activo` agree;
      a contract without one is not listed, and its `contrato_activo` raises. */
  lemma ActiveQueryAgrees(c: Contract, today: CalendarDate)
    ensures c.inicio.Some? ==> (ActiveQuery(c, today) <==> ContratoActivo(c, today) == Some(true))
    ensures c.inicio.None? ==> !ActiveQuery(c, today) && ContratoActivo(c, today).None?
  {
  }

  /** `a` may come before `b` under `-fecha_inicio_contrato`. Where a
      missing start date sorts depends on the database: first under a
      descending order when `nullsFirst` (PostgreSQL), last otherwise
      (SQLite, MySQL). */
  predicate StartsNoEarlier(a: ContractRow, b: ContractRow, nullsFirst: bool)
  {
    if nullsFirst then
      a.contract.inicio.None? || (b.contract.inicio.Some? && LessEq(b.contract.inicio.value, a.contract.inicio.value))
    else
      b.contract.inicio.None? || (a.contract.inicio.Some? && LessEq(b.contract.inicio.value, a.contract.inicio.value))
  }

  /** `a` may come before `b` under the model's ordering
      `['-anio', '-fecha_inicio_contrato']`: later year first, then later
      start first. */
  predicate NewerFirst(a: ContractRow, b: ContractRow, nullsFirst: bool)
  {
    a.anio > b.anio || (a.anio == b.anio && StartsNoEarlier(a, b, nullsFirst))
  }

  /** The rows are in the model's default order, the order of
      `Contratacion.objects.all()`. */
  predicate MetaOrdered(rows: seq<ContractRow>, nullsFirst: bool)
  {
    forall i, j :: 0 <= i < j < |rows| ==> NewerFirst(rows[i], rows[j], nullsFirst)
  }

  /** Filtering keeps the default order. */
  lemma {:induction false} KeepOrdered(rows: seq<ContractRow>, p: ContractRow -> bool, nullsFirst: bool)
    requires MetaOrdered(rows, nullsFirst)
    ensures MetaOrdered(Keep(rows, p), nullsFirst)
  {
    if rows != [] {
      var rest := rows[1..];
      assert MetaOrdered(rest, nullsFirst) by {
        forall i, j | 0 <= i < j < |rest| ensures NewerFirst(rest[i], rest[j], nullsFirst) {
          assert rest[i] == rows[i + 1] && rest[j] == rows[j + 1];
        }
      }
      KeepOrdered(rest, p, nullsFirst);
      var kept := Keep(rest, p);
      assert forall x :: x in kept ==> NewerFirst(rows[0], x, nullsFirst) by {
        forall x | x in kept ensures NewerFirst(rows[0], x, nullsFirst) {
          var j :| 0 <= j < |rest| && rest[j] == x;
          assert rows[j + 1] == x;
        }
      }
      var head := if p(rows[0]) then [rows[0]] else [];
      var r := head + kept;
      forall i, j | 0 <= i < j < |r| ensures NewerFirst(r[i], r[j], nullsFirst) {
        if i < |head| {
          assert r[j] == kept[j - |head|] && r[j] in kept;
        } else {
          assert r[i] == kept[i - |head|] && r[j] == kept[j - |head|];
        }
      }
    }
  }

  /** The two actions filter `self.queryset`, which keeps the model's
      default order (the view's `ordering` applies to the list action
      only): both come out latest year first, then latest start first. */
  lemma QueriesOrdered(rows: seq<ContractRow>, today: CalendarDate, pk: nat, nullsFirst: bool)
    requires MetaOrdered(rows, nullsFirst)
    ensures MetaOrdered(ContratosActivos(rows, today), nullsFirst)
    ensures MetaOrdered(PorTrabajador(rows, pk), nullsFirst)
  {
    KeepOrdered(rows, (x: ContractRow) => ActiveQuery(x.contract, today), nullsFirst);
    KeepOrdered(rows, (x: ContractRow) => x.trabajador == pk, nullsFirst);
  }
}
