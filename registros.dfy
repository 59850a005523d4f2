/** The yearly fact records kept beside a worker: onboarding
    (ingreso/models.py), offboarding (retiro/models.py) and social security
    (seguridad_social/models.py). Each is one row per worker and year; every
    field is nullable. */
module Registros {
  import opened Wrappers
  import opened Dates
  import opened Money

  /** An `Ingreso` row. */
  datatype Onboarding = Onboarding(
    fechaIngreso: Option<CalendarDate>,
    examenIngreso: Option<CalendarDate>,
    fechaEntregaEpp: Option<CalendarDate>,
    fechaEntregaDotacion: Option<CalendarDate>)

  /** A `Retiro` row. */
  datatype Offboarding = Offboarding(
    fechaRetiro: Option<CalendarDate>,
    fechaLiquidacion: Option<CalendarDate>,
    valorLiquidacion: Option<Decimal>,
    fechaExamenRetiro: Option<CalendarDate>)

  /** A `SeguridadSocial` row. */
  datatype SocialSecurity = SocialSecurity(
    eps: Option<string>,
    fechaEps: Option<CalendarDate>,
    caja: Option<string>,
    fechaCaja: Option<CalendarDate>,
    fondo: Option<string>,
    fechaPension: Option<CalendarDate>,
    arl: Option<string>,
    riesgo: Option<string>,
    fechaArl: Option<CalendarDate>)
}
