/** The worksheet and workbook operations both spreadsheet commands rely on,
    with the behaviour of openpyxl that matters to them: assigning a cell
    (`ws.cell(row, column, value)`), deleting rows, finding the last used
    row, and picking the first sheet name present from a list of
    candidates. */
module Sheets {
  import opened Wrappers
  import opened Cells

  /** openpyxl cuts a string cell to this many characters. */
  const MaxCellText := 32767

  /** The control characters openpyxl refuses in a string cell
      (`ILLEGAL_CHARACTERS_RE`: 0-8, 11-12 and 14-31). */
  predicate IllegalChar(ch: char)
  {
    ch <= '\U{8}' || '\U{B}' <= ch <= '\U{C}' || '\U{E}' <= ch <= '\U{1F}'
  }

  /** What assigning a value actually stores: strings are cut to the limit. */
  function Stored(c: Cell): (r: Cell)
    ensures r.Str? <==> c.Str?
    ensures r.Str? ==> |r.s| <= MaxCellText && |r.s| <= |c.s| && r.s == c.s[..|r.s|]
    ensures !c.Str? || |c.s| <= MaxCellText ==> r == c
  {
    if c.Str? && |c.s| > MaxCellText then Str(c.s[..MaxCellText]) else c
  }

  /** Assigning `c` raises `IllegalCharacterError` when the stored string
      holds a refused character. */
  predicate Refused(c: Cell)
  {
    var r := Stored(c);
    r.Str? && exists i :: 0 <= i < |r.s| && IllegalChar(r.s[i])
  }

  /** The cells of a sheet, keyed by (row, column), both counted from 1. */
  type Grid = map<(int, int), Cell>

  /** The grid after `ws.cell(row=r, column=k, value=v)`: a `None` value
      (here `None`) leaves the cell as it was, as does a refused string. */
  function Assigned(g: Grid, r: int, k: int, v: Option<Cell>): (h: Grid)
    ensures v.None? || Refused(v.value) ==> h == g
    ensures v.Some? && !Refused(v.value) ==> h == g[(r, k) := Stored(v.value)]
  {
    if v.Some? && !Refused(v.value) then g[(r, k) := Stored(v.value)] else g
  }

  /** The rows above `k` of a grid. */
  function RowsBefore(g: Grid, k: int): (h: Grid)
    ensures forall p :: p in h <==> p in g && p.0 < k
    ensures forall p :: p in h ==> h[p] == g[p]
  {
    map p | p in g && p.0 < k :: g[p]
  }

  /** The rows from `idx + amount` on, moved up by `amount`. */
  function MovedUp(g: Grid, idx: int, amount: nat): Grid
  {
    map p | p in g && p.0 >= idx + amount :: (p.0 - amount, p.1) := g[p]
  }

  /** The grid after `delete_rows(idx, amount)`: the rows idx..idx+amount-1
      disappear and the rows below move up by `amount`. */
  function Deleted(g: Grid, idx: int, amount: nat): Grid
  {
    RowsBefore(g, idx) + MovedUp(g, idx, amount)
  }

  /** What `delete_rows` keeps, moves and drops. */
  lemma {:induction false} DeletedCells(g: Grid, idx: int, amount: nat)
    ensures forall p :: p in g && p.0 < idx ==> p in Deleted(g, idx, amount) && Deleted(g, idx, amount)[p] == g[p]
    ensures forall p :: p in g && p.0 >= idx + amount ==>
      (p.0 - amount, p.1) in Deleted(g, idx, amount) && Deleted(g, idx, amount)[(p.0 - amount, p.1)] == g[p]
    ensures forall q :: q in Deleted(g, idx, amount) ==> q.0 < idx || (q.0 + amount, q.1) in g
  {
    MovedUpCells(g, idx, amount);
  }

  /** Where the rows moved up land, and where each came from. */
  lemma MovedUpCells(g: Grid, idx: int, amount: nat)
    ensures forall p :: p in g && p.0 >= idx + amount ==>
      (p.0 - amount, p.1) in MovedUp(g, idx, amount) && MovedUp(g, idx, amount)[(p.0 - amount, p.1)] == g[p]
    ensures forall q :: q in MovedUp(g, idx, amount) ==> q.0 >= idx && (q.0 + amount, q.1) in g
  {
    var b := MovedUp(g, idx, amount);
    forall p | p in g && p.0 >= idx + amount
      ensures (p.0 - amount, p.1) in b && b[(p.0 - amount, p.1)] == g[p]
    {
    }
    forall q | q in b
      ensures q.0 >= idx && (q.0 + amount, q.1) in g
    {
      var p :| p in g && p.0 >= idx + amount && q == (p.0 - amount, p.1);
    }
  }

  /** Every used cell of the grid lies in row `m` or above. */
  predicate RowsAtMost(g: Grid, m: int)
  {
    forall p :: p in g ==> p.0 <= m
  }

  /** A worksheet: its cells change in place. */
  class Sheet {
    var cells: Grid

    constructor (cells: Grid)
      ensures this.cells == cells
    {
      this.cells := cells;
    }

    /** The cell at (r, k); a cell never assigned is empty. */
    function At(r: int, k: int): Cell
      reads this
    {
      if (r, k) in cells then cells[(r, k)] else Empty
    }

    /** `ws.cell(row=r, column=k, value=v)`; `ok` is false when openpyxl raises. */
    method Put(r: int, k: int, v: Option<Cell>) returns (ok: bool)
      modifies this
      ensures ok <==> v.None? || !Refused(v.value)
      ensures cells == Assigned(old(cells), r, k, v)
    {
      if v.None? {
        return true;
      }
      if Refused(v.value) {
        return false;
      }
      cells := cells[(r, k) := Stored(v.value)];
      return true;
    }

    /** `ws.max_row`: the last row holding a cell, 1 for an empty sheet. */
    method MaxRow() returns (m: int)
      ensures m >= 1 && RowsAtMost(cells, m)
      ensures m > 1 ==> exists p :: p in cells && p.0 == m
    {
      m := 1;
      var todo := cells.Keys;
      while todo != {}
        invariant todo <= cells.Keys
        invariant m >= 1
        invariant forall p :: p in cells && p !in todo ==> p.0 <= m
        invariant m > 1 ==> exists p :: p in cells && p.0 == m
        decreases |todo|
      {
        var p :| p in todo;
        if p.0 > m {
          m := p.0;
        }
        todo := todo - {p};
      }
    }

    /** `ws.delete_rows(idx, amount)`. */
    method DeleteRows(idx: int, amount: nat)
      modifies this
      ensures cells == Deleted(old(cells), idx, amount)
    {
      cells := Deleted(cells, idx, amount);
    }

    /** `if ws.max_row > 4: ws.delete_rows(5, ws.max_row - 4)`: only the
        four header rows are kept. */
    method ClearData()
      modifies this
      ensures cells == RowsBefore(old(cells), 5)
    {
      var m := MaxRow();
      if m > 4 {
        DeleteRows(5, m - 4);
        DeletedTail(old(cells), 5, m - 4, m);
      } else {
        assert RowsBefore(old(cells), 5) == old(cells);
      }
    }
  }

  /** Deleting every row from `idx` to the last used row leaves exactly the
      rows above `idx`. */
  lemma DeletedTail(g: Grid, idx: int, amount: nat, m: int)
    requires RowsAtMost(g, m) && idx + amount == m + 1
    ensures Deleted(g, idx, amount) == RowsBefore(g, idx)
  {
    var h := Deleted(g, idx, amount);
    DeletedCells(g, idx, amount);
    forall q | q in h
      ensures q in RowsBefore(g, idx)
    {
      assert q.0 < idx || (q.0 + amount, q.1) in g;
    }
  }

  /** The first candidate that is one of `names`, as the commands' loops
      with `break` find it. */
  method FirstPresent(candidates: seq<string>, names: seq<string>) returns (r: Option<nat>)
    ensures r.Some? ==> r.value < |candidates| && candidates[r.value] in names
    ensures r.Some? ==> forall j :: 0 <= j < r.value ==> candidates[j] !in names
    ensures r.None? ==> forall j :: 0 <= j < |candidates| ==> candidates[j] !in names
  {
    var i := 0;
    while i < |candidates|
      invariant 0 <= i <= |candidates|
      invariant forall j :: 0 <= j < i ==> candidates[j] !in names
    {
      if candidates[i] in names {
        return Some(i);
      }
      i := i + 1;
    }
    return None;
  }

  /** The position of the first sheet titled `name`. */
  function IndexOf(names: seq<string>, name: string): (i: nat)
    requires name in names
    ensures i < |names| && names[i] == name
    ensures forall j :: 0 <= j < i ==> names[j] != name
  {
    if names[0] == name then 0 else 1 + IndexOf(names[1..], name)
  }
}
