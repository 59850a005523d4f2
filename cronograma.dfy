/** The monthly schedule row (cronograma/models.py): one row per worker and
    month, whose year is derived from the month each time it is saved. */
module Cronograma {
  import opened Wrappers
  import opened Dates
  import opened Money

  /** The year a row gets when none is given. */
  const DefaultYear := 2025

  /** The stored contents of a `Cronograma` row, keyed elsewhere by (worker, month). */
  datatype ScheduleRow = ScheduleRow(municipio: string, salario: Decimal, dias: int, sueldo: Decimal, anio: int)

  /** A `Cronograma` instance. `mes` is required by the schema, but an unsaved
      instance may not have it yet. */
  class Cronograma {
    var trabajador: nat
    var mes: Option<CalendarDate>
    var anio: int
    var municipio: string
    var salario: Decimal
    var dias: int
    var sueldo: Decimal

    constructor (trabajador: nat, mes: Option<CalendarDate>, municipio: string, salario: Decimal, dias: int, sueldo: Decimal)
      ensures this.trabajador == trabajador && this.mes == mes && this.municipio == municipio
      ensures this.salario == salario && this.dias == dias && this.sueldo == sueldo
      ensures anio == DefaultYear
    {
      this.trabajador := trabajador;
      this.mes := mes;
      this.municipio := municipio;
      this.salario := salario;
      this.dias := dias;
      this.sueldo := sueldo;
      anio := DefaultYear;
    }

    /** `save`: the year becomes the year of the month when the month is set,
        and stays as it was otherwise; no other field changes. */
    method Save()
      modifies this`anio
      ensures anio == if mes.Some? then mes.value.year else old(anio)
    {
      if mes.Some? {
        anio := mes.value.year;
      }
    }

    /** The stored contents. */
    function Row(): ScheduleRow
      reads this
    {
      ScheduleRow(municipio, salario, dias, sueldo, anio)
    }
  }

  /** `update_or_create` for a new (worker, month) pair: the instance is built
      from the defaults and saved, so the stored year is the month's year
      whatever year the instance started with. */
  method CreateRow(trabajador: nat, mes: CalendarDate, municipio: string, salario: Decimal, dias: int, sueldo: Decimal)
    returns (row: ScheduleRow)
    ensures row.anio == mes.year
    ensures row.municipio == municipio && row.salario == salario && row.dias == dias && row.sueldo == sueldo
  {
    var c := new Cronograma(trabajador, Some(mes), municipio, salario, dias, sueldo);
    c.Save();
    row := c.Row();
  }

  /** The row the import stores for a month: the saved year is the month's. */
  function StoredRow(mes: CalendarDate, municipio: string, salario: Decimal, dias: int, sueldo: Decimal): ScheduleRow
  {
    ScheduleRow(municipio, salario, dias, sueldo, mes.year)
  }
}
