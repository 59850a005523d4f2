/** The worker record (trabajadores/models.py) and what it derives: the full
    name, the list label and the age. */
module Trabajadores {
  import opened Text
  import opened Wrappers
  import opened Dates

  /** `TIPO_IDENTIFICACION_CHOICES`: the only identification types. */
  datatype IdType = CC | CE | PA | TI

  /** The code stored in the database. */
  function IdCode(t: IdType): string
  {
    match t
    case CC => "CC"
    case CE => "CE"
    case PA => "PA"
    case TI => "TI"
  }

  /** The display label of the choice. */
  function IdLabel(t: IdType): string
  {
    match t
    case CC => "Cédula de Ciudadanía"
    case CE => "Cédula de Extranjería"
    case PA => "Pasaporte"
    case TI => "Tarjeta de Identidad"
  }

  /** Different types have different codes and different labels. */
  lemma IdChoicesDistinct(a: IdType, b: IdType)
    requires a != b
    ensures IdCode(a) != IdCode(b) && IdLabel(a) != IdLabel(b)
  {
  }

  /** The year a worker row belongs to when none is given. */
  const DefaultYear := 2025

  /** A `Trabajador` row. The second surname and second name are nullable. */
  datatype Worker = Worker(
    tipo: IdType,
    numero: string,
    fechaExpedicion: CalendarDate,
    fechaNacimiento: CalendarDate,
    primerApellido: string,
    segundoApellido: Option<string>,
    primerNombre: string,
    segundoNombre: Option<string>,
    anio: int)

  /** Python truthiness of a nullable text field: set and not empty. */
  predicate Present(o: Option<string>)
  {
    o.Some? && o.value != ""
  }

  /** The optional part " x" of a name, present only when `x` is. */
  function Optional(o: Option<string>): string
  {
    if Present(o) then " " + o.value else ""
  }

  /** `nombre_completo`: first name, second name, first surname, second surname. */
  function NombreCompleto(w: Worker): string
  {
    w.primerNombre + Optional(w.segundoNombre) + " " + w.primerApellido + Optional(w.segundoApellido)
  }

  /** The parts of the full name that are shown, in order. */
  function NameParts(w: Worker): (parts: seq<string>)
    ensures 2 <= |parts| <= 4
    ensures parts[0] == w.primerNombre
  {
    [w.primerNombre] + (if Present(w.segundoNombre) then [w.segundoNombre.value] else [])
    + [w.primerApellido] + (if Present(w.segundoApellido) then [w.segundoApellido.value] else [])
  }

  /** The full name is the present parts joined by single spaces: a missing
      or empty second name leaves no gap. */
  lemma NombreCompletoJoin(w: Worker)
    ensures NombreCompleto(w) == Join(NameParts(w), " ")
  {
    var n1, n2, a1, a2 := w.primerNombre, w.segundoNombre, w.primerApellido, w.segundoApellido;
    var tail := [a1] + (if Present(a2) then [a2.value] else []);
    assert Join(tail, " ") == a1 + Optional(a2);
    if Present(n2) {
      assert NameParts(w) == [n1] + ([n2.value] + tail);
      assert Join([n2.value] + tail, " ") == n2.value + " " + Join(tail, " ");
    } else {
      assert NameParts(w) == [n1] + tail;
    }
  }

  /** A second name stored as "" and one stored as null show the same. */
  lemma NombreCompletoEmptyIsNull(w: Worker)
    ensures NombreCompleto(w.(segundoNombre := Some(""), segundoApellido := Some("")))
         == NombreCompleto(w.(segundoNombre := None, segundoApellido := None))
  {
  }

  /** `__str__`: "surnames, names (numero)". */
  function WorkerStr(w: Worker): string
  {
    w.primerApellido + Optional(w.segundoApellido) + ", " + w.primerNombre + Optional(w.segundoNombre) + " (" + w.numero + ")"
  }

  /** The label is the surnames joined by a space, a comma, the names joined
      by a space, and the identification number in brackets. */
  lemma WorkerStrShape(w: Worker)
    ensures WorkerStr(w) == Join([w.primerApellido] + (if Present(w.segundoApellido) then [w.segundoApellido.value] else []), " ")
      + ", " + Join([w.primerNombre] + (if Present(w.segundoNombre) then [w.segundoNombre.value] else []), " ")
      + " (" + w.numero + ")"
  {
  }

  /** Python's `(a.month, a.day) < (b.month, b.day)`. */
  predicate EarlierInYear(a: Date, b: Date)
  {
    a.month < b.month || (a.month == b.month && a.day < b.day)
  }

  /** `edad`: completed years between the birth date and `today`. The result
      is the one number of years whose anniversary has been reached while the
      next one has not (anniversaries compared as (year, month, day) triples). */
  function Edad(birth: CalendarDate, today: CalendarDate): (r: int)
    ensures LessEq(Date(birth.year + r, birth.month, birth.day), today)
    ensures Before(today, Date(birth.year + r + 1, birth.month, birth.day))
    ensures LessEq(birth, today) ==> r >= 0
  {
    today.year - birth.year - (if EarlierInYear(today, birth) then 1 else 0)
  }

  /** Two numbers of years cannot both have their anniversary reached and the
      next one not: the age is determined by the anniversaries. */
  lemma EdadUnique(birth: CalendarDate, today: CalendarDate, k: int)
    requires LessEq(Date(birth.year + k, birth.month, birth.day), today)
    requires Before(today, Date(birth.year + k + 1, birth.month, birth.day))
    ensures Edad(birth, today) == k
  {
  }

  /** On the k-th birthday the age is k, and on any earlier day after the
      previous birthday it is k - 1: the age rises by exactly one on each
      birthday. */
  lemma EdadBirthday(birth: CalendarDate, k: int, day: CalendarDate, before: CalendarDate)
    requires day == Date(birth.year + k, birth.month, birth.day)
    requires LessEq(Date(birth.year + k - 1, birth.month, birth.day), before) && Before(before, day)
    ensures Edad(birth, day) == k
    ensures Edad(birth, before) == k - 1
  {
    EdadUnique(birth, day, k);
    EdadUnique(birth, before, k - 1);
  }
}
