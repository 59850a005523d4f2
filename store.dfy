/** The database tables the spreadsheet commands read and write: workers,
    and per worker the yearly contract, onboarding, offboarding, social
    security and project rows (one per worker and year, the
    `unique_together` of each model) and the monthly schedule rows (one per
    worker and month). A key holds at most one row by construction. A
    worker's id is its position in creation order, counted from 1. */
module Store {
  import opened Wrappers
  import opened Dates
  import opened Money
  import opened Trabajadores
  import opened Contratacion
  import opened Registros
  import opened Proyectos
  import opened Cronograma

  /** The contents of all tables. */
  datatype Tables = Tables(
    workers: seq<Worker>,
    contracts: map<(nat, int), Contract>,
    onboardings: map<(nat, int), Onboarding>,
    offboardings: map<(nat, int), Offboarding>,
    socials: map<(nat, int), SocialSecurity>,
    projects: map<(nat, int), ProjectFlags>,
    schedules: map<(nat, CalendarDate), ScheduleRow>)

  /** No table at all holds a row. */
  const NoTables := Tables([], map[], map[], map[], map[], map[], map[])

  /** `id` names a stored worker. */
  predicate Known(t: Tables, id: nat)
  {
    1 <= id <= |t.workers|
  }

  /** Every related row points at a stored worker (the foreign keys). */
  predicate Valid(t: Tables)
  {
    (forall k :: k in t.contracts ==> Known(t, k.0))
    && (forall k :: k in t.onboardings ==> Known(t, k.0))
    && (forall k :: k in t.offboardings ==> Known(t, k.0))
    && (forall k :: k in t.socials ==> Known(t, k.0))
    && (forall k :: k in t.projects ==> Known(t, k.0))
    && (forall k :: k in t.schedules ==> Known(t, k.0))
  }

  /** The social security row `update_or_create` leaves: the given fields
      replace the stored ones, while the ARL risk class and date, which the
      import does not set, are kept from an existing row. */
  function MergedSocial(old_: Option<SocialSecurity>, s: SocialSecurity): (r: SocialSecurity)
    ensures r.eps == s.eps && r.fechaEps == s.fechaEps && r.caja == s.caja && r.fechaCaja == s.fechaCaja
    ensures r.fondo == s.fondo && r.fechaPension == s.fechaPension && r.arl == s.arl
    ensures old_.None? ==> r == s
    ensures old_.Some? ==> r.riesgo == old_.value.riesgo && r.fechaArl == old_.value.fechaArl
  {
    match old_
    case None => s
    case Some(o) => s.(riesgo := o.riesgo, fechaArl := o.fechaArl)
  }

  /** The database, changed in place by the commands. */
  class Database {
    var workers: seq<Worker>
    var contracts: map<(nat, int), Contract>
    var onboardings: map<(nat, int), Onboarding>
    var offboardings: map<(nat, int), Offboarding>
    var socials: map<(nat, int), SocialSecurity>
    var projects: map<(nat, int), ProjectFlags>
    var schedules: map<(nat, CalendarDate), ScheduleRow>

    constructor (t: Tables)
      ensures State() == t
    {
      workers := t.workers;
      contracts := t.contracts;
      onboardings := t.onboardings;
      offboardings := t.offboardings;
      socials := t.socials;
      projects := t.projects;
      schedules := t.schedules;
    }

    /** The contents of all tables. */
    function State(): Tables
      reads this
    {
      Tables(workers, contracts, onboardings, offboardings, socials, projects, schedules)
    }

    /** `Trabajador.objects.create(...)`: the new worker gets the next id. */
    method CreateWorker(w: Worker) returns (id: nat)
      modifies this
      ensures id == |old(workers)| + 1
      ensures State() == old(State()).(workers := old(workers) + [w])
    {
      workers := workers + [w];
      id := |workers|;
    }

    /** `Contratacion.objects.update_or_create(trabajador, anio, defaults)`:
        every field is among the defaults. */
    method PutContract(id: nat, anio: int, c: Contract)
      modifies this
      ensures State() == old(State()).(contracts := old(contracts)[(id, anio) := c])
    {
      contracts := contracts[(id, anio) := c];
    }

    /** `Ingreso.objects.update_or_create(...)`. */
    method PutOnboarding(id: nat, anio: int, o: Onboarding)
      modifies this
      ensures State() == old(State()).(onboardings := old(onboardings)[(id, anio) := o])
    {
      onboardings := onboardings[(id, anio) := o];
    }

    /** `Retiro.objects.update_or_create(...)`. */
    method PutOffboarding(id: nat, anio: int, o: Offboarding)
      modifies this
      ensures State() == old(State()).(offboardings := old(offboardings)[(id, anio) := o])
    {
      offboardings := offboardings[(id, anio) := o];
    }

    /** `SeguridadSocial.objects.update_or_create(...)`: the fields outside
        the defaults survive an update. */
    method PutSocial(id: nat, anio: int, s: SocialSecurity)
      modifies this
      ensures State() == old(State()).(socials := old(socials)[(id, anio) :=
        MergedSocial(if (id, anio) in old(socials) then Some(old(socials)[(id, anio)]) else None, s)])
    {
      var prior := if (id, anio) in socials then Some(socials[(id, anio)]) else None;
      socials := socials[(id, anio) := MergedSocial(prior, s)];
    }

    /** `Proyecto.objects.update_or_create(...)`. */
    method PutProject(id: nat, anio: int, f: ProjectFlags)
      modifies this
      ensures State() == old(State()).(projects := old(projects)[(id, anio) := f])
    {
      projects := projects[(id, anio) := f];
    }

    /** `Cronograma.objects.update_or_create(trabajador, mes, defaults)`:
        the row is saved through `Cronograma.save`, which sets its year. */
    method PutSchedule(id: nat, mes: CalendarDate, municipio: string, salario: Decimal, dias: int, sueldo: Decimal)
      modifies this
      ensures State() == old(State()).(schedules := old(schedules)[(id, mes) := StoredRow(mes, municipio, salario, dias, sueldo)])
    {
      var row := CreateRow(id, mes, municipio, salario, dias, sueldo);
      schedules := schedules[(id, mes) := row];
    }
  }
}
