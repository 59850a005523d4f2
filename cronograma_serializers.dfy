/** The readable month of a schedule row (cronograma/serializers.py,
    `get_mes_display`). */
module CronogramaSerializers {
  import opened Text
  import opened Dates

  /** The Spanish name of a month. */
  function MonthName(m: int): (name: string)
    requires 1 <= m <= 12
    ensures |name| > 0 && forall i :: 0 <= i < |name| ==> name[i] != ' '
  {
    if m == 1 then "Enero" else if m == 2 then "Febrero" else if m == 3 then "Marzo"
    else if m == 4 then "Abril" else if m == 5 then "Mayo" else if m == 6 then "Junio"
    else if m == 7 then "Julio" else if m == 8 then "Agosto" else if m == 9 then "Septiembre"
    else if m == 10 then "Octubre" else if m == 11 then "Noviembre" else "Diciembre"
  }

  /** The twelve names are pairwise different. */
  lemma MonthNamesDistinct(a: int, b: int)
    requires 1 <= a <= 12 && 1 <= b <= 12 && a != b
    ensures MonthName(a) != MonthName(b)
  {
  }

  /** `get_mes_display`: the month's name, a space, and the year. */
  function MesDisplay(mes: CalendarDate): string
  {
    MonthName(mes.month) + " " + IntToString(mes.year)
  }

  /** January and December read "Enero <year>" and "Diciembre <year>". */
  lemma MesDisplayEnds(y: int)
    requires 1 <= y <= 9999
    ensures MesDisplay(Date(y, 1, 1)) == "Enero " + IntToString(y)
    ensures MesDisplay(Date(y, 12, 1)) == "Diciembre " + IntToString(y)
  {
  }

  /** The label determines the month and the year. */
  lemma MesDisplayInjective(a: CalendarDate, b: CalendarDate)
    requires MesDisplay(a) == MesDisplay(b)
    ensures a.month == b.month && a.year == b.year
  {
    SpaceSplit(MonthName(a.month), IntToString(a.year), MonthName(b.month), IntToString(b.year));
    if a.month != b.month {
      MonthNamesDistinct(a.month, b.month);
    }
    NatToStringInjective(a.year, b.year);
  }

  /** A word without spaces, a space and a tail: the first space splits the
      text back into the word and the tail. */
  lemma SpaceSplit(x: string, y: string, x2: string, y2: string)
    requires forall i :: 0 <= i < |x| ==> x[i] != ' '
    requires forall i :: 0 <= i < |x2| ==> x2[i] != ' '
    requires x + " " + y == x2 + " " + y2
    ensures x == x2 && y == y2
  {
    var s := x + " " + y;
    assert s[|x|] == ' ' && s[|x2|] == ' ';
    assert x == s[..|x|] == x2;
    assert y == s[|x| + 1..] == y2;
  }
}
