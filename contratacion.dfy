/** The contract record (contratacion/models.py): its choice lists and the
    two derived values, whether the contract is active today and how many
    days it has left. */
module Contratacion {
  import opened Text
  import opened Wrappers
  import opened Dates
  import opened Money

  /** `TIPO_CONTRATO_CHOICES`: the only contract types. */
  datatype ContractType = PrestacionServicios | TerminoIndefinido | TerminoFijo | ObraLabor | Aprendizaje

  /** The code stored in the database. */
  function ContractCode(t: ContractType): string
  {
    match t
    case PrestacionServicios => "PRESTACION_SERVICIOS"
    case TerminoIndefinido => "TERMINO_INDEFINIDO"
    case TerminoFijo => "TERMINO_FIJO"
    case ObraLabor => "OBRA_LABOR"
    case Aprendizaje => "APRENDIZAJE"
  }

  /** `get_tipo_contrato_display()`: the label of the choice. */
  function ContractLabel(t: ContractType): string
  {
    match t
    case PrestacionServicios => "Prestación de Servicios"
    case TerminoIndefinido => "Término Indefinido"
    case TerminoFijo => "Término Fijo"
    case ObraLabor => "Obra o Labor"
    case Aprendizaje => "Aprendizaje"
  }

  /** Different types have different codes and different labels. */
  lemma ContractChoicesDistinct(a: ContractType, b: ContractType)
    requires a != b
    ensures ContractCode(a) != ContractCode(b) && ContractLabel(a) != ContractLabel(b)
  {
  }

  /** `MUNICIPIOS_NARINO`: the municipality codes offered for the base
      municipality of a contract and for the municipality of a monthly
      schedule row (the two lists in the source are the same). */
  const Municipios: seq<string> := [
    "ALBAN", "ALDANA", "ANCUYA", "ARBOLEDA", "BARBACOAS", "BELEN", "BUESACO", "COLON", "CONSACA",
    "CONTADERO", "CORDOBA", "CUASPUD", "CUMBAL", "CUMBITARA", "CHACHAGUI", "EL_CHARCO", "EL_PENOL",
    "EL_ROSARIO", "EL_TABLON", "EL_TAMBO", "FRANCISCO_PIZARRO", "FUNES", "GUACHUCAL", "GUAITARILLA",
    "GUALMATN", "ILES", "IMUES", "IPIALES", "LA_CRUZ", "LA_FLORIDA", "LA_LLANADA", "LA_TOLA",
    "LA_UNION", "LEIVA", "LINARES", "LOS_ANDES", "MAGUI_PAYAN", "MALLAMA", "MOSQUERA", "NARINO",
    "OLAYA_HERRERA", "OSPINA", "PASTO", "POLICARPA", "POTOSI", "PROVIDENCIA", "PUERRES", "PUPIALES",
    "RICAURTE", "ROBERTO_PAYAN", "SAMANIEGO", "SAN_BERNARDO", "SAN_LORENZO", "SAN_PABLO",
    "SAN_PEDRO_CARTAGO", "SANDONA", "SANTA_BARBARA", "SANTACRUZ", "SAPUYES", "TAMINANGO", "TANGUA",
    "TUMACO", "TUQUERRES", "YACUANQUER"]

  /** A value among the municipality choices. The choices are checked by
      forms only: rows written by the spreadsheet import are not checked. */
  predicate IsMunicipio(s: string)
  {
    s in Municipios
  }

  /** A `Contratacion` row (one per worker and year). */
  datatype Contract = Contract(
    tipo: ContractType,
    cargo: string,
    salario: Decimal,
    municipioBase: string,
    inicio: Option<CalendarDate>,
    fin: Option<CalendarDate>)

  /** `contrato_activo`: started by today and, with an end date, not ended
      before today. Without a start date the comparison `None <= today`
      raises TypeError, modelled as None. */
  function ContratoActivo(c: Contract, today: CalendarDate): (r: Option<bool>)
    ensures r.None? <==> c.inicio.None?
    ensures c.inicio.Some? && c.fin.Some? ==> (r == Some(true) <==> LessEq(c.inicio.value, today) && LessEq(today, c.fin.value))
    ensures c.inicio.Some? && c.fin.None? ==> (r == Some(true) <==> LessEq(c.inicio.value, today))
  {
    match c.inicio
    case None => None
    case Some(start) =>
      if c.fin.Some? then Some(LessEq(start, today) && LessEq(today, c.fin.value)) else Some(LessEq(start, today))
  }

  /** `dias_restantes`: None without an end date, 0 once the end date has
      been reached or passed, otherwise the number of days from today to it. */
  function DiasRestantes(c: Contract, today: CalendarDate): (r: Option<int>)
    ensures r.None? <==> c.fin.None?
    ensures r.Some? ==> r.value >= 0
    ensures r.Some? ==> (r.value == 0 <==> LessEq(c.fin.value, today))
    ensures r.Some? && LessEq(today, c.fin.value) ==> Ordinal(today) + r.value == Ordinal(c.fin.value)
  {
    match c.fin
    case None => None
    case Some(end) =>
      LessEqTotal(end, today);
      if Before(end, today) then
        Some(0)
      else
        assert Before(today, end) ==> Ordinal(today) < Ordinal(end) by {
          if Before(today, end) {
            OrdinalMonotone(today, end);
          }
        }
        Some(Ordinal(end) - Ordinal(today))
  }

  /** The day after a date is not after any later date. */
  lemma NextDayNoLater(a: CalendarDate, b: CalendarDate)
    requires Before(a, b) && Valid(NextDay(a))
    ensures LessEq(NextDay(a), b)
  {
    LessEqTotal(NextDay(a), b);
    if Before(b, NextDay(a)) {
      OrdinalMonotone(a, b);
      OrdinalMonotone(b, NextDay(a));
      NextDayOrdinal(a);
    }
  }

  /** Each day before the end date, one day fewer remains. */
  lemma DiasRestantesCountdown(c: Contract, today: CalendarDate)
    requires c.fin.Some? && Before(today, c.fin.value) && Valid(NextDay(today))
    ensures DiasRestantes(c, NextDay(today)).value == DiasRestantes(c, today).value - 1
  {
    NextDayNoLater(today, c.fin.value);
    NextDayOrdinal(today);
  }
}
