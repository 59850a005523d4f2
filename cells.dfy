/** Worksheet cells as openpyxl loads them, and the import's `_get_cell_value`
    (trabajadores/management/commands/importar_excel.py), which turns a cell
    of a row tuple into what the coercion helpers receive. */
module Cells {
  import opened Text
  import opened Dates
  import opened Money

  /** The value of a loaded cell: nothing, a string, an integer, a float (held
      as an exact amount), a boolean, or a date, which openpyxl hands back as
      a `datetime` at midnight. */
  datatype Cell = Empty | Str(s: string) | Int(i: int) | Amount(d: Decimal) | Flag(b: bool) | When(date: CalendarDate)

  /** What `_get_cell_value` returns: a stripped string, or the datetime itself. */
  datatype Value = Plain(s: string) | Stamp(date: CalendarDate)

  /** Python truthiness of a loaded cell value. */
  predicate Truthy(c: Cell)
  {
    match c
    case Empty => false
    case Str(s) => s != ""
    case Int(i) => i != 0
    case Amount(d) => !IsZero(d)
    case Flag(b) => b
    case When(_) => true
  }

  /** Python's `str(value)` for a cell value. */
  function CellText(c: Cell): string
  {
    match c
    case Empty => "None"
    case Str(s) => s
    case Int(i) => IntToString(i)
    case Amount(d) => DecimalText(d)
    case Flag(b) => if b then "True" else "False"
    case When(d) => DateTimeText(d)
  }

  /** `str(datetime)` for a datetime at midnight. */
  function DateTimeText(d: CalendarDate): (s: string)
    ensures |s| == 19
  {
    IsoText(d) + " 00:00:00"
  }

  /** Python's `str(value)` for what `_get_cell_value` returned. */
  function PyStr(v: Value): string
  {
    match v
    case Plain(s) => s
    case Stamp(d) => DateTimeText(d)
  }

  /** Python's `not value` for what `_get_cell_value` returned: only the
      empty string is falsy (a datetime is always truthy). */
  predicate Falsy(v: Value)
  {
    v == Plain("")
  }

  /** `_get_cell_value` for a cell inside the row: None becomes "", a datetime
      is passed through, any other value becomes its stripped text, and a
      falsy value (0, 0.0, False, "") becomes "". */
  function ReadCell(c: Cell): (v: Value)
    ensures v.Stamp? <==> c.When?
    ensures c.When? ==> v == Stamp(c.date)
    ensures !Truthy(c) ==> v == Plain("")
  {
    match c
    case Empty => Plain("")
    case When(d) => Stamp(d)
    case _ => if Truthy(c) then Plain(Strip(CellText(c))) else Plain("")
  }

  /** The text a cell reads as is already stripped. */
  lemma ReadCellStripped(c: Cell)
    ensures ReadCell(c).Plain? ==> Strip(ReadCell(c).s) == ReadCell(c).s
  {
    if !c.Empty? && !c.When? {
      StripIdempotent(CellText(c));
    }
  }

  /** `_get_cell_value(row, index)`: an index past the end of the row tuple
      reads as "", like an empty cell. */
  function GetCellValue(row: seq<Cell>, index: nat): (v: Value)
    ensures index >= |row| ==> v == Plain("")
    ensures index < |row| ==> v == ReadCell(row[index])
  {
    if index < |row| then ReadCell(row[index]) else Plain("")
  }

  /** A non-empty digit string with an optional leading minus has no
      whitespace at either end. */
  lemma SignedDigitsStripped(s: string, digits: string)
    requires |digits| > 0 && IsDigits(digits)
    requires s == digits || s == "-" + digits
    ensures Strip(s) == s
  {
    assert s[|s| - 1] == digits[|digits| - 1];
    StripNoop(s);
  }

  /** An integer cell reads back as its decimal text, and zero as "". */
  lemma ReadInt(i: int)
    ensures ReadCell(Int(i)) == Plain(if i == 0 then "" else IntToString(i))
  {
    var s := IntToString(i);
    var a: nat := if i < 0 then -i else i;
    var digits := NatToString(a);
    assert s == digits || s == "-" + digits;
    SignedDigitsStripped(s, digits);
    assert Strip(s) == s;
    assert CellText(Int(i)) == s;
    if i == 0 {
      assert !Truthy(Int(i));
    } else {
      assert Truthy(Int(i));
      assert ReadCell(Int(i)) == Plain(Strip(CellText(Int(i))));
    }
  }

  /** A float cell reads back as the `str(float)` rendering, and zero as "". */
  lemma ReadAmount(d: Decimal)
    ensures ReadCell(Amount(d)) == Plain(if IsZero(d) then "" else DecimalText(d))
  {
    if IsZero(d) {
      assert !Truthy(Amount(d));
    } else {
      DecimalTextStripped(d);
      assert CellText(Amount(d)) == DecimalText(d);
    }
  }

  /** A text cell without surrounding whitespace reads as its text. */
  lemma ReadStr(s: string)
    requires s == [] || (!IsPySpace(s[0]) && !IsPySpace(s[|s| - 1]))
    ensures ReadCell(Str(s)) == Plain(s)
  {
    StripNoop(s);
    assert CellText(Str(s)) == s;
  }

  /** A boolean cell reads as "True", and False as "". */
  lemma ReadFlag(b: bool)
    ensures ReadCell(Flag(b)) == Plain(if b then "True" else "")
  {
    if b {
      ReadFlagTrue();
    } else {
      ReadFlagFalse();
    }
  }

  lemma ReadFlagTrue()
    ensures ReadCell(Flag(true)) == Plain("True")
  {
    var t := "True";
    assert t[0] == 'T' && t[|t| - 1] == 'e';
    ReadBareText(Flag(true), t);
  }

  lemma ReadFlagFalse()
    ensures ReadCell(Flag(false)) == Plain("")
  {
    assert !Truthy(Flag(false));
  }

  /** A truthy cell other than a date whose text has no whitespace at either
      end reads as that text. */
  lemma ReadBareText(c: Cell, t: string)
    requires Truthy(c) && !c.When? && CellText(c) == t
    requires t == [] || (!IsPySpace(t[0]) && !IsPySpace(t[|t| - 1]))
    ensures ReadCell(c) == Plain(t)
  {
    StripNoop(t);
  }
}