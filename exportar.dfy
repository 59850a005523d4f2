/** Writing worker rows into a worksheet, as both exports do
    (trabajadores/management/commands/exportar_excel.py and the
    `exportar_excel` action of trabajadores/views.py), and the command
    `exportar_excel` itself.

    A worker's row is a plan: the cell assignments the export makes, in
    order, with the points where it raises. Both exports start at row 5,
    put the running number in column 1, and move to the next row only when
    the worker's whole block ran without raising; a worker that raises is
    skipped, and whatever it had already written stays in the sheet. */
module Exportar {
  import opened Wrappers
  import opened Dates
  import opened Money
  import opened Cells
  import opened Sheets
  import opened Trabajadores
  import opened Contratacion
  import opened Registros
  import opened Proyectos
  import opened Cronograma
  import opened Store
  import Text

  // -------------------------------------------------------------- plans

  /** One step of a worker's block: assign a value to a column of the
      current row (None assigns nothing), or raise. */
  datatype Action = Write(col: int, v: Option<Cell>) | Raise

  /** The steps of a worker's block, in order. */
  type Plan = seq<Action>

  /** The step fails: it raises, or it assigns a string openpyxl refuses. */
  predicate Fails(a: Action)
  {
    a.Raise? || (a.v.Some? && Refused(a.v.value))
  }

  /** The whole block runs without raising. */
  predicate Succeeds(p: Plan)
  {
    forall i :: 0 <= i < |p| ==> !Fails(p[i])
  }

  /** The cells a block leaves in its row, by column: the last value
      assigned to each column, as stored. */
  function Written(p: Plan): map<int, Cell>
    decreases |p|
  {
    if p == [] then map[]
    else
      var w := Written(p[..|p| - 1]);
      var a := p[|p| - 1];
      if a.Write? && a.v.Some? then w[a.col := Stored(a.v.value)] else w
  }

  /** The keys of row `r` for the columns of `w`. */
  function RowKeys(r: int, w: map<int, Cell>): (ks: set<(int, int)>)
    ensures forall p :: p in ks <==> p.0 == r && p.1 in w
  {
    var ks := set c | c in w :: (r, c);
    forall p: (int, int) | p.0 == r && p.1 in w
      ensures p in ks
    {
      var c := p.1;
      assert c in w;
      assert (r, c) in ks;
      assert p == (r, c);
    }
    ks
  }

  /** The grid with row `r` overlaid by the cells `w`. */
  function Overlay(g: Grid, r: int, w: map<int, Cell>): (h: Grid)
    ensures forall p :: p in h <==> p in g || (p.0 == r && p.1 in w)
    ensures forall p :: p in h ==> h[p] == if p.0 == r && p.1 in w then w[p.1] else g[p]
  {
    map p | p in g.Keys + RowKeys(r, w) :: if p.0 == r && p.1 in w then w[p.1] else g[p]
  }

  /** The cells of row `r`, by column. */
  function RowCells(g: Grid, r: int): (m: map<int, Cell>)
    ensures forall c :: c in m <==> (r, c) in g
    ensures forall c :: c in m ==> m[c] == g[(r, c)]
  {
    map c | c in (set p | p in g && p.0 == r :: p.1) :: g[(r, c)]
  }

  /** The position of the first failing step, or the length of the block
      when none fails. */
  function FirstFailure(p: Plan): (i: nat)
    ensures i <= |p|
    ensures forall j :: 0 <= j < i ==> !Fails(p[j])
    ensures i < |p| ==> Fails(p[i])
    ensures i == |p| <==> Succeeds(p)
  {
    FailureFrom(p, 0)
  }

  /** The position of the first failing step from position `k` on. */
  function FailureFrom(p: Plan, k: nat): (i: nat)
    requires k <= |p|
    ensures k <= i <= |p|
    ensures forall j :: k <= j < i ==> !Fails(p[j])
    ensures i < |p| ==> Fails(p[i])
    decreases |p| - k
  {
    if k == |p| then k
    else if Fails(p[k]) then k
    else FailureFrom(p, k + 1)
  }

  /** The cells a block leaves when it runs until its first failing step. */
  function Partial(p: Plan): map<int, Cell>
  {
    Written(p[..FirstFailure(p)])
  }

  /** The grid after carrying out every step of `p` on row `r`. */
  function Run(g: Grid, r: int, p: Plan): Grid
    decreases |p|
  {
    if p == [] then g
    else
      var a := p[|p| - 1];
      var h := Run(g, r, p[..|p| - 1]);
      if a.Write? then Assigned(h, r, a.col, a.v) else h
  }

  /** The grid after running block `p` on row `r`: the steps run in order
      until one fails, which changes nothing and ends the block. */
  function RowAfter(g: Grid, r: int, p: Plan): Grid
  {
    Run(g, r, p[..FirstFailure(p)])
  }

  /** A block that succeeds leaves all its cells. */
  lemma SucceedsPartial(p: Plan)
    requires Succeeds(p)
    ensures Partial(p) == Written(p)
  {
    assert p[..|p|] == p;
  }

  /** One more successful step on top of an overlay. */
  lemma OverlayStep(g: Grid, r: int, w: map<int, Cell>, a: Action)
    requires a.Write? && !Fails(a)
    ensures Assigned(Overlay(g, r, w), r, a.col, a.v) ==
      Overlay(g, r, if a.v.Some? then w[a.col := Stored(a.v.value)] else w)
  {
  }

  /** Steps that do not fail overlay their row with the cells they write. */
  lemma {:induction false} RunOverlay(g: Grid, r: int, p: Plan)
    requires forall j :: 0 <= j < |p| ==> !Fails(p[j])
    ensures Run(g, r, p) == Overlay(g, r, Written(p))
    decreases |p|
  {
    if p == [] {
      assert Overlay(g, r, map[]) == g;
    } else {
      var init := p[..|p| - 1];
      assert forall j :: 0 <= j < |init| ==> init[j] == p[j];
      RunOverlay(g, r, init);
      var a := p[|p| - 1];
      if a.Write? {
        OverlayStep(g, r, Written(init), a);
      }
    }
  }

  /** Running a block overlays its row with the cells it wrote before its
      first failing step. */
  lemma RowAfterOverlay(g: Grid, r: int, p: Plan)
    ensures RowAfter(g, r, p) == Overlay(g, r, Partial(p))
  {
    var q := p[..FirstFailure(p)];
    assert forall j :: 0 <= j < |q| ==> q[j] == p[j];
    RunOverlay(g, r, q);
  }

  /** Runs a worker's block on row `r` of the sheet, stopping at the first
      step that raises. */
  method WriteRow(ws: Sheet, r: int, p: Plan) returns (ok: bool)
    modifies ws
    ensures ok == Succeeds(p)
    ensures ws.cells == RowAfter(old(ws.cells), r, p)
  {
    var i := 0;
    while i < |p|
      invariant 0 <= i <= FirstFailure(p)
      invariant ws.cells == Run(old(ws.cells), r, p[..i])
    {
      var a := p[i];
      if a.Raise? {
        return false;
      }
      var written := ws.Put(r, a.col, a.v);
      if !written {
        return false;
      }
      assert p[..i + 1][..i] == p[..i];
      i := i + 1;
    }
    assert p[..i] == p;
    return true;
  }

  // ----------------------------------------------------------- the loop

  /** The first row written: rows 1 to 4 hold the template's headers. */
  const FirstDataRow := 5

  /** A body writes past the number column. */
  predicate AfterNumber(body: Plan)
  {
    forall i :: 0 <= i < |body| && body[i].Write? ==> body[i].col >= 2
  }

  /** Worker `n`'s block: its running number in column 1, then its body. */
  function Numbered(n: int, body: Plan): Plan
  {
    [Write(1, Some(Int(n)))] + body
  }

  /** The running number is never refused, so a numbered block succeeds
      exactly when its body does. */
  lemma NumberedSucceeds(n: int, body: Plan)
    ensures Succeeds(Numbered(n, body)) <==> Succeeds(body)
  {
    var p := Numbered(n, body);
    assert !Fails(p[0]) by {
      assert !Refused(Int(n));
    }
    assert forall i :: 0 <= i < |body| ==> p[i + 1] == body[i];
    if Succeeds(body) {
      forall i | 0 <= i < |p|
        ensures !Fails(p[i])
      {
        if i > 0 {
          assert p[i] == body[i - 1];
        }
      }
    }
  }

  /** The number of workers whose block succeeds. */
  function Successes(bodies: seq<Plan>): (n: nat)
    ensures n <= |bodies|
    decreases |bodies|
  {
    if bodies == [] then 0
    else Successes(bodies[..|bodies| - 1]) + (if Succeeds(bodies[|bodies| - 1]) then 1 else 0)
  }

  /** The grid after the export loop over the workers' bodies: each runs on
      row 5 + count, where count is the number that succeeded before it. */
  function Exported(g: Grid, bodies: seq<Plan>): Grid
    decreases |bodies|
  {
    if bodies == [] then g
    else
      var init := bodies[..|bodies| - 1];
      var count := Successes(init);
      RowAfter(Exported(g, init), FirstDataRow + count, Numbered(count + 1, bodies[|bodies| - 1]))
  }

  /** One more worker of the loop. */
  lemma ExportedStep(g: Grid, bodies: seq<Plan>)
    requires bodies != []
    ensures var init, last := bodies[..|bodies| - 1], bodies[|bodies| - 1];
      Exported(g, bodies) == RowAfter(Exported(g, init), FirstDataRow + Successes(init), Numbered(Successes(init) + 1, last))
      && Successes(bodies) == Successes(init) + (if Succeeds(last) then 1 else 0)
  {
  }

  /** Worker `i` of the loop, run on the grid the workers before it left. */
  lemma ExportedNext(g: Grid, bodies: seq<Plan>, i: int, before: Grid, count: nat, after: Grid)
    requires 0 <= i < |bodies|
    requires before == Exported(g, bodies[..i]) && count == Successes(bodies[..i])
    requires after == RowAfter(before, FirstDataRow + count, Numbered(count + 1, bodies[i]))
    ensures after == Exported(g, bodies[..i + 1])
  {
    PrefixNext(bodies, i);
    ExportedAppend(g, bodies[..i], bodies[i]);
  }

  /** The count after worker `i` of the loop. */
  lemma SuccessesNext(bodies: seq<Plan>, i: int, count: nat, ok: bool)
    requires 0 <= i < |bodies|
    requires count == Successes(bodies[..i])
    requires ok == Succeeds(Numbered(count + 1, bodies[i]))
    ensures (if ok then count + 1 else count) == Successes(bodies[..i + 1])
  {
    PrefixNext(bodies, i);
    SuccessesAppend(bodies[..i], bodies[i]);
    NumberedSucceeds(count + 1, bodies[i]);
  }

  /** One more worker is counted when its block succeeds. */
  lemma SuccessesAppend(init: seq<Plan>, last: Plan)
    ensures Successes(init + [last]) == Successes(init) + (if Succeeds(last) then 1 else 0)
  {
    var b := init + [last];
    assert b[..|b| - 1] == init;
    assert b[|b| - 1] == last;
  }

  /** One more worker after the workers `init`. */
  lemma ExportedAppend(g: Grid, init: seq<Plan>, last: Plan)
    ensures Exported(g, init + [last])
      == RowAfter(Exported(g, init), FirstDataRow + Successes(init), Numbered(Successes(init) + 1, last))
  {
    var b := init + [last];
    assert b[..|b| - 1] == init;
    assert b[|b| - 1] == last;
  }

  /** The export loop: `count` is the number of workers exported. */
  method ExportRows(ws: Sheet, bodies: seq<Plan>) returns (count: nat)
    modifies ws
    ensures ws.cells == Exported(old(ws.cells), bodies)
    ensures count == Successes(bodies)
  {
    count := 0;
    var i := 0;
    while i < |bodies|
      invariant 0 <= i <= |bodies|
      invariant ws.cells == Exported(old(ws.cells), bodies[..i])
      invariant count == Successes(bodies[..i])
    {
      ghost var before := ws.cells;
      var ok := WriteRow(ws, FirstDataRow + count, Numbered(count + 1, bodies[i]));
      ExportedNext(old(ws.cells), bodies, i, before, count, ws.cells);
      SuccessesNext(bodies, i, count, ok);
      if ok {
        count := count + 1;
      }
      i := i + 1;
    }
    assert bodies[..i] == bodies;
  }

  /** The header rows are never touched, and every cell the loop adds lies
      in rows 5 to 5 + count: the exported rows and the row after them,
      where a failing worker leaves what it wrote. */
  lemma {:induction false} ExportedShape(g: Grid, bodies: seq<Plan>)
    ensures forall q: (int, int) :: q.0 < FirstDataRow ==> (q in Exported(g, bodies) <==> q in g)
    ensures forall q: (int, int) :: q.0 < FirstDataRow && q in g ==> Exported(g, bodies)[q] == g[q]
    ensures forall q :: q in Exported(g, bodies) && q !in g ==> FirstDataRow <= q.0 <= FirstDataRow + Successes(bodies)
    decreases |bodies|
  {
    if bodies != [] {
      var init := bodies[..|bodies| - 1];
      ExportedShape(g, init);
      var count := Successes(init);
      RowAfterOverlay(Exported(g, init), FirstDataRow + count, Numbered(count + 1, bodies[|bodies| - 1]));
    }
  }

  /** The cells worker `i`'s numbered block writes. */
  function RowOf(bodies: seq<Plan>, i: nat): map<int, Cell>
    requires i < |bodies|
  {
    Written(Numbered(i + 1, bodies[i]))
  }

  /** Overlaying an empty row gives that row exactly the overlaid cells;
      other rows are unchanged. */
  lemma RowCellsOverlay(g: Grid, r: int, w: map<int, Cell>)
    ensures forall r' :: r' != r ==> RowCells(Overlay(g, r, w), r') == RowCells(g, r')
    ensures (forall q :: q in g ==> q.0 != r) ==> RowCells(Overlay(g, r, w), r) == w
  {
  }

  /** A last worker that succeeds overlays its numbered row on the rows
      before it, at the row after the ones counted so far. */
  lemma ExportedSucceeding(g: Grid, init: seq<Plan>, last: Plan)
    requires Succeeds(last)
    ensures Exported(g, init + [last])
      == Overlay(Exported(g, init), FirstDataRow + Successes(init), Written(Numbered(Successes(init) + 1, last)))
  {
    ExportedAppend(g, init, last);
    NumberedRowAfter(Exported(g, init), FirstDataRow + Successes(init), Successes(init) + 1, last);
  }

  /** A numbered block whose body succeeds overlays all its cells on its
      row. */
  lemma NumberedRowAfter(g: Grid, r: int, n: int, body: Plan)
    requires Succeeds(body)
    ensures RowAfter(g, r, Numbered(n, body)) == Overlay(g, r, Written(Numbered(n, body)))
  {
    NumberedSucceeds(n, body);
    SucceedsPartial(Numbered(n, body));
    RowAfterOverlay(g, r, Numbered(n, body));
  }

  /** The prefix one longer is the prefix followed by the next element. */
  lemma PrefixNext<T>(s: seq<T>, i: int)
    requires 0 <= i < |s|
    ensures s[..i + 1] == s[..i] + [s[i]]
  {
  }

  /** A non-empty sequence is its front followed by its last element. */
  lemma InitLast<T>(s: seq<T>)
    requires s != []
    ensures s[..|s| - 1] + [s[|s| - 1]] == s
  {
  }

  /** When every worker succeeds and the data rows start out empty, row
      5 + i holds exactly the cells of worker i's numbered block, and there
      is no other data row. */
  lemma {:induction false} ExportedRows(g: Grid, bodies: seq<Plan>)
    requires RowsBefore(g, FirstDataRow) == g
    requires forall i :: 0 <= i < |bodies| ==> Succeeds(bodies[i])
    ensures Successes(bodies) == |bodies|
    ensures forall i :: 0 <= i < |bodies| ==> RowCells(Exported(g, bodies), FirstDataRow + i) == RowOf(bodies, i)
    ensures forall q :: q in Exported(g, bodies) ==> q.0 < FirstDataRow + |bodies|
    decreases |bodies|
  {
    if bodies != [] {
      var n := |bodies| - 1;
      var init := bodies[..n];
      assert forall i :: 0 <= i < n ==> init[i] == bodies[i];
      ExportedRows(g, init);
      RowOfPrefix(bodies, n);
      InitLast(bodies);
      SuccessesAppend(init, bodies[n]);
      ExportedSucceeding(g, init, bodies[n]);
      OverlayRows(Exported(g, init), bodies, n);
    }
  }

  /** The numbered rows of a prefix are those of the whole sequence. */
  lemma RowOfPrefix(bodies: seq<Plan>, n: nat)
    requires n <= |bodies|
    ensures forall i :: 0 <= i < n ==> RowOf(bodies[..n], i) == RowOf(bodies, i)
  {
  }

  /** Overlaying worker `n`'s row on a grid holding exactly workers
      `0 .. n - 1`'s rows gives a grid holding exactly workers `0 .. n`'s. */
  lemma OverlayRows(h: Grid, bodies: seq<Plan>, n: nat)
    requires n < |bodies|
    requires forall i :: 0 <= i < n ==> RowCells(h, FirstDataRow + i) == RowOf(bodies, i)
    requires forall q :: q in h ==> q.0 < FirstDataRow + n
    ensures var e := Overlay(h, FirstDataRow + n, RowOf(bodies, n));
      (forall i :: 0 <= i <= n ==> RowCells(e, FirstDataRow + i) == RowOf(bodies, i)) &&
      (forall q :: q in e ==> q.0 < FirstDataRow + n + 1)
  {
    RowCellsOverlay(h, FirstDataRow + n, RowOf(bodies, n));
  }

  // ---------------------------------------------- the corrected loop

  /** The loop as it is evidently meant to work: a worker that raises
      leaves no cell behind (its row is staged and written only when the
      whole block succeeds). */
  function ExportedStaged(g: Grid, bodies: seq<Plan>): Grid
    decreases |bodies|
  {
    if bodies == [] then g
    else
      var init := bodies[..|bodies| - 1];
      var count := Successes(init);
      var last := bodies[|bodies| - 1];
      if Succeeds(last) then Overlay(ExportedStaged(g, init), FirstDataRow + count, Written(Numbered(count + 1, last)))
      else ExportedStaged(g, init)
  }

  /** The bodies that succeed, in order. */
  function Kept(bodies: seq<Plan>): (r: seq<Plan>)
    ensures |r| == Successes(bodies)
    ensures forall i :: 0 <= i < |r| ==> Succeeds(r[i])
    decreases |bodies|
  {
    if bodies == [] then []
    else Kept(bodies[..|bodies| - 1]) + (if Succeeds(bodies[|bodies| - 1]) then [bodies[|bodies| - 1]] else [])
  }

  /** The staged loop is the plain loop over the workers that succeed. */
  lemma {:induction false} StagedIsKept(g: Grid, bodies: seq<Plan>)
    ensures ExportedStaged(g, bodies) == Exported(g, Kept(bodies))
    decreases |bodies|
  {
    if bodies != [] {
      var init := bodies[..|bodies| - 1];
      var last := bodies[|bodies| - 1];
      StagedIsKept(g, init);
      if Succeeds(last) {
        var k := Kept(bodies);
        assert k[..|k| - 1] == Kept(init);
        ExportedRowsCount(Kept(init));
        var p := Numbered(Successes(init) + 1, last);
        NumberedSucceeds(Successes(init) + 1, last);
        SucceedsPartial(p);
        RowAfterOverlay(Exported(g, Kept(init)), FirstDataRow + Successes(init), p);
      } else {
        assert Kept(bodies) == Kept(init);
      }
    }
  }

  /** When every body succeeds, all of them are counted. */
  lemma {:induction false} ExportedRowsCount(bodies: seq<Plan>)
    requires forall i :: 0 <= i < |bodies| ==> Succeeds(bodies[i])
    ensures Successes(bodies) == |bodies|
    decreases |bodies|
  {
    if bodies != [] {
      var init := bodies[..|bodies| - 1];
      assert forall i :: 0 <= i < |init| ==> init[i] == bodies[i];
      ExportedRowsCount(init);
    }
  }

  /** With the staged loop, whatever fails: row 5 + i holds exactly the
      cells of the i-th worker that succeeds, numbered i + 1, and there is
      no other data row. */
  lemma StagedRows(g: Grid, bodies: seq<Plan>)
    requires RowsBefore(g, FirstDataRow) == g
    ensures forall i :: 0 <= i < |Kept(bodies)| ==>
      RowCells(ExportedStaged(g, bodies), FirstDataRow + i) == RowOf(Kept(bodies), i)
    ensures forall q :: q in ExportedStaged(g, bodies) ==> q.0 < FirstDataRow + Successes(bodies)
  {
    StagedIsKept(g, bodies);
    ExportedRows(g, Kept(bodies));
  }

  /** The loop over a single worker. */
  lemma ExportedOne(g: Grid, a: Plan)
    ensures Exported(g, [a]) == RowAfter(g, FirstDataRow, Numbered(1, a))
    ensures Successes([a]) == if Succeeds(a) then 1 else 0
  {
    var one: seq<Plan> := [a];
    assert one[..0] == [];
  }

  /** A worker that fails after writing column `k` leaves that cell in the
      row the next worker then takes; when the next worker succeeds without
      writing that column, its row shows the failed worker's value. The
      staged loop gives that row only the next worker's cells. */
  lemma StaleCellKept(g: Grid, a: Plan, b: Plan, k: int, v: Cell)
    requires RowsBefore(g, FirstDataRow) == g
    requires !Succeeds(a) && Succeeds(b)
    requires k in Partial(Numbered(1, a)) && Partial(Numbered(1, a))[k] == v
    requires k !in Written(Numbered(1, b))
    ensures Successes([a, b]) == 1
    ensures k in RowCells(Exported(g, [a, b]), FirstDataRow) && RowCells(Exported(g, [a, b]), FirstDataRow)[k] == v
    ensures RowCells(ExportedStaged(g, [a, b]), FirstDataRow) == Written(Numbered(1, b))
  {
    AfterFailure(g, a, b);
    var h := Exported(g, [a]);
    RowAfterOverlay(g, FirstDataRow, Numbered(1, a));
    assert (FirstDataRow, k) in h && h[(FirstDataRow, k)] == v;
    RowAfterOverlay(h, FirstDataRow, Numbered(1, b));
    SucceedsPartial(Numbered(1, b));
    NumberedSucceeds(1, b);
    StagedTwo(g, a, b);
  }

  /** The loop over a failing worker and then another one: both run on
      row 5. */
  lemma AfterFailure(g: Grid, a: Plan, b: Plan)
    requires !Succeeds(a)
    ensures Exported(g, [a]) == RowAfter(g, FirstDataRow, Numbered(1, a))
    ensures Exported(g, [a, b]) == RowAfter(Exported(g, [a]), FirstDataRow, Numbered(1, b))
    ensures Successes([a, b]) == if Succeeds(b) then 1 else 0
  {
    ExportedOne(g, a);
    var two: seq<Plan> := [a, b];
    assert two[..1] == [a];
  }

  /** The staged loop over a failing worker and then a succeeding one gives
      row 5 the second worker's cells only. */
  lemma StagedTwo(g: Grid, a: Plan, b: Plan)
    requires RowsBefore(g, FirstDataRow) == g
    requires !Succeeds(a) && Succeeds(b)
    ensures RowCells(ExportedStaged(g, [a, b]), FirstDataRow) == Written(Numbered(1, b))
  {
    var two: seq<Plan> := [a, b];
    var one: seq<Plan> := [a];
    assert two[..1] == one && one[..0] == [];
    assert Kept(two) == [b];
    StagedRows(g, two);
    assert RowOf([b], 0) == Written(Numbered(1, b));
  }

  /** A numbered prefix that runs past its first step holds the number in
      column 1, since a body never writes there. */
  lemma {:induction false} WrittenNumber(n: int, body: Plan, i: nat)
    requires AfterNumber(body) && 1 <= i <= |body| + 1
    ensures 1 in Written(Numbered(n, body)[..i]) && Written(Numbered(n, body)[..i])[1] == Int(n)
    decreases i
  {
    var p := Numbered(n, body)[..i];
    if i > 1 {
      assert p[..i - 1] == Numbered(n, body)[..i - 1];
      WrittenNumber(n, body, i - 1);
      assert p[i - 1] == body[i - 2];
    } else {
      assert p == [Write(1, Some(Int(n)))];
      assert p[..0] == [];
    }
  }

  /** When the last worker fails, the sheet still shows a numbered row for
      it after the exported ones. */
  lemma PhantomRow(g: Grid, bodies: seq<Plan>)
    requires bodies != [] && !Succeeds(bodies[|bodies| - 1]) && AfterNumber(bodies[|bodies| - 1])
    ensures var count := Successes(bodies);
      (FirstDataRow + count, 1) in Exported(g, bodies) && Exported(g, bodies)[(FirstDataRow + count, 1)] == Int(count + 1)
  {
    var last := bodies[|bodies| - 1];
    var count := Successes(bodies[..|bodies| - 1]);
    var p := Numbered(count + 1, last);
    NumberedSucceeds(count + 1, last);
    assert !Fails(p[0]) by {
      assert !Refused(Int(count + 1));
    }
    WrittenNumber(count + 1, last, FirstFailure(p));
    RowAfterOverlay(Exported(g, bodies[..|bodies| - 1]), FirstDataRow + count, p);
  }

  // -------------------------------------------------- cell values written

  /** A text field: always assigned. */
  function TextCell(s: string): Option<Cell>
  {
    Some(Str(s))
  }

  /** A nullable text field: None assigns nothing. */
  function OptTextCell(o: Option<string>): Option<Cell>
  {
    if o.Some? then Some(Str(o.value)) else None
  }

  /** A nullable date field. */
  function DateCell(d: Option<CalendarDate>): Option<Cell>
  {
    if d.Some? then Some(When(d.value)) else None
  }

  /** `float(x) if x else 0`: a zero amount is written as the integer 0. */
  function AmountOrZero(d: Decimal): Cell
  {
    if IsZero(d) then Int(0) else Amount(d)
  }

  /** `'X' if flag else ''`. */
  function FlagCell(b: bool): Option<Cell>
  {
    Some(Str(if b then "X" else ""))
  }

  /** The export column (counted from 1) of month `m`'s municipality: one
      to the right of the column the import reads it from. */
  function ExportMonthColumn(m: int): (c: int)
    requires 1 <= m <= 12
    ensures 38 <= c && c + 3 <= 85
  {
    38 + 4 * (m - 1)
  }

  // ------------------------------------------------------ sections

  /** Columns 2-9: the worker's identification, as the command writes it. */
  function IdentityCells(w: Worker): Plan
  {
    [Write(2, TextCell(IdCode(w.tipo))), Write(3, TextCell(w.numero)),
     Write(4, Some(When(w.fechaExpedicion))), Write(5, Some(When(w.fechaNacimiento))),
     Write(6, TextCell(w.primerApellido)), Write(7, OptTextCell(w.segundoApellido)),
     Write(8, TextCell(w.primerNombre)), Write(9, OptTextCell(w.segundoNombre))]
  }

  /** Columns 10-15: the contract; the salary as `float`. */
  function ContractCells(c: Contract): Plan
  {
    [Write(10, TextCell(ContractLabel(c.tipo))), Write(11, TextCell(c.cargo)),
     Write(12, Some(Amount(c.salario))), Write(13, TextCell(c.municipioBase)),
     Write(14, DateCell(c.inicio)), Write(15, DateCell(c.fin))]
  }

  /** Columns 16-19: the onboarding dates. */
  function OnboardingCells(o: Onboarding): Plan
  {
    [Write(16, DateCell(o.fechaIngreso)), Write(17, DateCell(o.examenIngreso)),
     Write(18, DateCell(o.fechaEntregaEpp)), Write(19, DateCell(o.fechaEntregaDotacion))]
  }

  /** Columns 20-23: the offboarding; a zero or missing settlement assigns
      nothing. */
  function OffboardingCells(o: Offboarding): Plan
  {
    [Write(20, DateCell(o.fechaRetiro)), Write(21, DateCell(o.fechaLiquidacion)),
     Write(22, if o.valorLiquidacion.Some? && !IsZero(o.valorLiquidacion.value) then Some(Amount(o.valorLiquidacion.value)) else None),
     Write(23, DateCell(o.fechaExamenRetiro))]
  }

  /** Columns 24-30: social security; the risk class is not exported. */
  function SocialCells(s: SocialSecurity): Plan
  {
    [Write(24, OptTextCell(s.eps)), Write(25, DateCell(s.fechaEps)),
     Write(26, OptTextCell(s.caja)), Write(27, DateCell(s.fechaCaja)),
     Write(28, OptTextCell(s.fondo)), Write(29, DateCell(s.fechaPension)),
     Write(30, OptTextCell(s.arl))]
  }

  /** Columns 33-37: the project flags. */
  function ProjectCells(f: ProjectFlags): Plan
  {
    [Write(33, FlagCell(f.administrativo)), Write(34, FlagCell(f.construccionInstalaciones)),
     Write(35, FlagCell(f.construccionRedes)), Write(36, FlagCell(f.servicios)),
     Write(37, FlagCell(f.mantenimientoRedes))]
  }

  /** The four cells of a month's schedule row. */
  function MonthCells(m: int, row: ScheduleRow): Plan
    requires 1 <= m <= 12
  {
    var c := ExportMonthColumn(m);
    [Write(c, TextCell(row.municipio)), Write(c + 1, Some(AmountOrZero(row.salario))),
     Write(c + 2, Some(Int(row.dias))), Write(c + 3, Some(AmountOrZero(row.sueldo)))]
  }

  /** Months `m` to 12 of `anio` for worker `id`: a month without a
      schedule row assigns nothing. */
  function MonthsCells(s: map<(nat, CalendarDate), ScheduleRow>, id: nat, anio: int, m: int): Plan
    requires 1 <= anio <= 9999 && 1 <= m <= 13
    decreases 13 - m
  {
    if m == 13 then []
    else
      var key := (id, Date(anio, m, 1));
      (if key in s then MonthCells(m, s[key]) else []) + MonthsCells(s, id, anio, m + 1)
  }

  /** A yearly section: written when the worker has that year's row. */
  function Section<T>(rows: map<(nat, int), T>, id: nat, anio: int, cells: T -> Plan): Plan
  {
    if (id, anio) in rows then cells(rows[(id, anio)]) else []
  }

  /** The block the command runs for worker `id` after its number: building
      the list of months raises for a year without a calendar, after the
      other sections were written. */
  function CommandBody(t: Tables, id: nat, anio: int): Plan
    requires 1 <= id <= |t.workers|
  {
    IdentityCells(t.workers[id - 1])
    + Section(t.contracts, id, anio, ContractCells)
    + Section(t.onboardings, id, anio, OnboardingCells)
    + Section(t.offboardings, id, anio, OffboardingCells)
    + Section(t.socials, id, anio, SocialCells)
    + Section(t.projects, id, anio, ProjectCells)
    + (if 1 <= anio <= 9999 then MonthsCells(t.schedules, id, anio, 1) else [Raise])
  }

  /** The workers the command exports: those with a contract for `anio`,
      by id. */
  function ExportIds(t: Tables, anio: int, n: nat): (ids: seq<nat>)
    requires n <= |t.workers|
    ensures forall i :: 0 <= i < |ids| ==> 1 <= ids[i] <= n && (ids[i], anio) in t.contracts
    ensures forall id :: 1 <= id <= n && (id, anio) in t.contracts ==> id in ids
    ensures forall i, j :: 0 <= i < j < |ids| ==> ids[i] < ids[j]
  {
    if n == 0 then []
    else ExportIds(t, anio, n - 1) + (if (n, anio) in t.contracts then [n] else [])
  }

  /** The command's blocks for a list of workers. */
  function CommandBodies(t: Tables, anio: int, ids: seq<nat>): (bodies: seq<Plan>)
    requires forall i :: 0 <= i < |ids| ==> 1 <= ids[i] <= |t.workers|
    ensures |bodies| == |ids|
    ensures forall i :: 0 <= i < |ids| ==> bodies[i] == CommandBody(t, ids[i], anio)
  {
    seq(|ids|, i requires 0 <= i < |ids| => CommandBody(t, ids[i], anio))
  }

  /** Joining two plans that leave column 1 alone. */
  lemma AfterNumberJoin(a: Plan, b: Plan)
    requires AfterNumber(a) && AfterNumber(b)
    ensures AfterNumber(a + b)
  {
    forall i | 0 <= i < |a + b| && (a + b)[i].Write?
      ensures (a + b)[i].col >= 2
    {
      if i >= |a| {
        assert (a + b)[i] == b[i - |a|];
      }
    }
  }

  /** The fixed sections leave column 1 alone. */
  lemma SectionsAfterNumber(t: Tables, id: nat, anio: int)
    requires 1 <= id <= |t.workers|
    ensures AfterNumber(IdentityCells(t.workers[id - 1]))
    ensures AfterNumber(Section(t.contracts, id, anio, ContractCells))
    ensures AfterNumber(Section(t.onboardings, id, anio, OnboardingCells))
    ensures AfterNumber(Section(t.offboardings, id, anio, OffboardingCells))
    ensures AfterNumber(Section(t.socials, id, anio, SocialCells))
    ensures AfterNumber(Section(t.projects, id, anio, ProjectCells))
  {
  }

  /** Every block of the command leaves column 1 to the running number. */
  lemma CommandBodyAfterNumber(t: Tables, id: nat, anio: int)
    requires 1 <= id <= |t.workers|
    ensures AfterNumber(CommandBody(t, id, anio))
  {
    SectionsAfterNumber(t, id, anio);
    var months: Plan := if 1 <= anio <= 9999 then MonthsCells(t.schedules, id, anio, 1) else [Raise];
    if 1 <= anio <= 9999 {
      MonthsAfterNumber(t.schedules, id, anio, 1);
    }
    var p1 := IdentityCells(t.workers[id - 1]);
    var p2 := p1 + Section(t.contracts, id, anio, ContractCells);
    AfterNumberJoin(p1, Section(t.contracts, id, anio, ContractCells));
    var p3 := p2 + Section(t.onboardings, id, anio, OnboardingCells);
    AfterNumberJoin(p2, Section(t.onboardings, id, anio, OnboardingCells));
    var p4 := p3 + Section(t.offboardings, id, anio, OffboardingCells);
    AfterNumberJoin(p3, Section(t.offboardings, id, anio, OffboardingCells));
    var p5 := p4 + Section(t.socials, id, anio, SocialCells);
    AfterNumberJoin(p4, Section(t.socials, id, anio, SocialCells));
    var p6 := p5 + Section(t.projects, id, anio, ProjectCells);
    AfterNumberJoin(p5, Section(t.projects, id, anio, ProjectCells));
    AfterNumberJoin(p6, months);
    assert CommandBody(t, id, anio) == p6 + months;
  }

  /** The month columns lie right of the number column. */
  lemma {:induction false} MonthsAfterNumber(s: map<(nat, CalendarDate), ScheduleRow>, id: nat, anio: int, m: int)
    requires 1 <= anio <= 9999 && 1 <= m <= 13
    ensures AfterNumber(MonthsCells(s, id, anio, m))
    decreases 13 - m
  {
    if m < 13 {
      MonthsAfterNumber(s, id, anio, m + 1);
      var key := (id, Date(anio, m, 1));
      var here: Plan := if key in s then MonthCells(m, s[key]) else [];
      AfterNumberJoin(here, MonthsCells(s, id, anio, m + 1));
    }
  }

  /** For a year outside 1..9999 a block ends by raising. */
  lemma BadYearBody(t: Tables, id: nat, anio: int)
    requires 1 <= id <= |t.workers| && !(1 <= anio <= 9999)
    ensures !Succeeds(CommandBody(t, id, anio))
  {
    var b := CommandBody(t, id, anio);
    assert b[|b| - 1] == Raise;
  }

  /** For a year outside 1..9999 every block raises, so no worker counts. */
  lemma BadYearExportsNone(t: Tables, anio: int, ids: seq<nat>)
    requires !(1 <= anio <= 9999)
    requires forall i :: 0 <= i < |ids| ==> 1 <= ids[i] <= |t.workers|
    ensures Successes(CommandBodies(t, anio, ids)) == 0
  {
    var bodies := CommandBodies(t, anio, ids);
    forall i | 0 <= i < |bodies|
      ensures !Succeeds(bodies[i])
    {
      BadYearBody(t, ids[i], anio);
    }
    NoneSucceeds(bodies);
  }

  /** When no block succeeds, none is counted. */
  lemma {:induction false} NoneSucceeds(bodies: seq<Plan>)
    requires forall i :: 0 <= i < |bodies| ==> !Succeeds(bodies[i])
    ensures Successes(bodies) == 0
    decreases |bodies|
  {
    if bodies != [] {
      var init := bodies[..|bodies| - 1];
      assert forall i :: 0 <= i < |init| ==> init[i] == bodies[i];
      NoneSucceeds(init);
    }
  }

  /** For a year outside 1..9999 the sheet still shows row 5 numbered 1,
      holding the last worker's cells. */
  lemma BadYearRow(g: Grid, t: Tables, anio: int, ids: seq<nat>)
    requires !(1 <= anio <= 9999) && ids != []
    requires forall i :: 0 <= i < |ids| ==> 1 <= ids[i] <= |t.workers|
    ensures var e := Exported(g, CommandBodies(t, anio, ids));
      (FirstDataRow, 1) in e && e[(FirstDataRow, 1)] == Int(1)
  {
    var bodies := CommandBodies(t, anio, ids);
    BadYearExportsNone(t, anio, ids);
    var id := ids[|ids| - 1];
    assert bodies[|bodies| - 1] == CommandBody(t, id, anio);
    CommandBodyAfterNumber(t, id, anio);
    BadYearBody(t, id, anio);
    FirstRowNumbered(g, bodies);
  }

  /** When no worker counts and the last one fails after its number, row 5
      is numbered 1. */
  lemma FirstRowNumbered(g: Grid, bodies: seq<Plan>)
    requires bodies != [] && !Succeeds(bodies[|bodies| - 1]) && AfterNumber(bodies[|bodies| - 1])
    requires Successes(bodies) == 0
    ensures (FirstDataRow, 1) in Exported(g, bodies) && Exported(g, bodies)[(FirstDataRow, 1)] == Int(1)
  {
    PhantomRow(g, bodies);
  }

  // ------------------------------------------------------- the workbook

  /** A worksheet of a workbook, by title. */
  datatype NamedGrid = NamedGrid(title: string, cells: Grid)

  /** A workbook: its sheets in order and `wb.active`'s index, which
      removing a sheet leaves where it was. */
  datatype Book = Book(sheets: seq<NamedGrid>, active: nat)

  /** `wb.sheetnames`. */
  function SheetNames(b: Book): (r: seq<string>)
    ensures |r| == |b.sheets|
    ensures forall i :: 0 <= i < |r| ==> r[i] == b.sheets[i].title
  {
    seq(|b.sheets|, i requires 0 <= i < |b.sheets| => b.sheets[i].title)
  }

  /** The sheet the command writes: the one given, or `NOVEDADES <anio>`
      when none (or an empty name) is given. */
  function TargetName(anio: int, sheet: Option<string>): (name: string)
    ensures sheet.Some? && sheet.value != "" ==> name == sheet.value
    ensures sheet.None? || sheet.value == "" ==> name == "NOVEDADES " + Text.IntToString(anio)
  {
    if sheet.Some? && sheet.value != "" then sheet.value else "NOVEDADES " + Text.IntToString(anio)
  }

  /** The sheets from which the new one has its format, in order of
      preference. */
  const TemplateNames: seq<string> := ["NOVEDADES 2025 (2)", "NOVEDADES 2025", "NOVEDADES 2024"]

  /** `del wb[name]`: the first sheet titled `name` goes. */
  function Without(b: Book, name: string): (r: Book)
    requires name in SheetNames(b)
    ensures r.active == b.active && |r.sheets| == |b.sheets| - 1
    ensures var i := IndexOf(SheetNames(b), name);
      r.sheets == b.sheets[..i] + b.sheets[i + 1..]
  {
    var i := IndexOf(SheetNames(b), name);
    Book(b.sheets[..i] + b.sheets[i + 1..], b.active)
  }

  /** The workbook the command starts from: the existing output without the
      target sheet, else the template; None when neither file exists. */
  function Opened(outputExists: bool, output: Book, templateExists: bool, template: Book, name: string): (r: Option<Book>)
    ensures r.None? <==> !outputExists && !templateExists
    ensures outputExists && name !in SheetNames(output) ==> r == Some(output)
    ensures outputExists && name in SheetNames(output) ==> r == Some(Without(output, name))
    ensures !outputExists && templateExists ==> r == Some(template)
  {
    if outputExists then
      Some(if name in SheetNames(output) then Without(output, name) else output)
    else if templateExists then Some(template)
    else None
  }

  /** The sheet whose format is copied: the first template name present,
      else the active sheet, which is None when its index is past the end. */
  function FormatSheet(b: Book): (r: Option<NamedGrid>)
    ensures (exists j :: 0 <= j < |TemplateNames| && TemplateNames[j] in SheetNames(b)) ==>
      r.Some? && exists j :: (0 <= j < |TemplateNames| && TemplateNames[j] in SheetNames(b)
        && r.value == b.sheets[IndexOf(SheetNames(b), TemplateNames[j])]
        && forall k :: 0 <= k < j ==> TemplateNames[k] !in SheetNames(b))
    ensures (forall j :: 0 <= j < |TemplateNames| ==> TemplateNames[j] !in SheetNames(b)) ==>
      r == if b.active < |b.sheets| then Some(b.sheets[b.active]) else None
  {
    var names := SheetNames(b);
    if TemplateNames[0] in names then Some(b.sheets[IndexOf(names, TemplateNames[0])])
    else if TemplateNames[1] in names then Some(b.sheets[IndexOf(names, TemplateNames[1])])
    else if TemplateNames[2] in names then Some(b.sheets[IndexOf(names, TemplateNames[2])])
    else if b.active < |b.sheets| then Some(b.sheets[b.active])
    else None
  }

  // ------------------------------------------------------ sheet titles

  /** The characters openpyxl refuses in a sheet title. */
  const TitleForbidden: set<char> := {'\\', '*', '?', ':', '/', '[', ']'}

  /** A title the `title` setter accepts: not empty, no forbidden character. */
  predicate ValidTitle(value: string)
  {
    value != "" && forall i :: 0 <= i < |value| ==> value[i] !in TitleForbidden
  }

  /** The length of the run of digits `s` starts with. */
  function DigitRun(s: string): (n: nat)
    ensures n <= |s| && Text.IsDigits(s[..n])
    ensures n < |s| ==> !Text.IsDigit(s[n])
    decreases |s|
  {
    if s != [] && Text.IsDigit(s[0]) then
      var k := DigitRun(s[1..]);
      assert s[..k + 1] == [s[0]] + s[1..][..k];
      1 + k
    else 0
  }

  /** The numbers `re.findall("(title)(\\d*),?", s, re.I)` finds: the scan
      goes left to right, each match is the title in any case, the digits
      right after it and an optional comma, and the scan goes on after the
      match; a match without digits gives no number. */
  function TitleCounts(s: string, title: string): seq<nat>
    requires title != ""
    decreases |s|
  {
    if |s| < |title| then []
    else if Text.Lower(s[..|title|]) == Text.Lower(title) then
      var rest := s[|title|..];
      var n := DigitRun(rest);
      var after := rest[n..];
      var next := if after != [] && after[0] == ',' then after[1..] else after;
      (if n > 0 then [Text.DigitsValue(rest[..n])] else []) + TitleCounts(next, title)
    else TitleCounts(s[1..], title)
  }

  /** The largest number of a list, 0 for none. */
  function Highest(counts: seq<nat>): (h: nat)
    ensures forall i :: 0 <= i < |counts| ==> counts[i] <= h
    ensures counts != [] ==> exists i :: 0 <= i < |counts| && counts[i] == h
    decreases |counts|
  {
    if counts == [] then 0
    else
      var h := Highest(counts[1..]);
      assert forall i :: 1 <= i < |counts| ==> counts[i] == counts[1..][i - 1];
      if counts[0] >= h then counts[0] else h
  }

  /** Some title equals `value`, ignoring case. */
  predicate Clashes(names: seq<string>, value: string)
  {
    exists i :: 0 <= i < |names| && Text.Lower(names[i]) == Text.Lower(value)
  }

  /** openpyxl's `avoid_duplicate_name(names, value)`: a title that some
      title already has, ignoring case, gets the number after the highest
      the scan of the comma-joined titles finds. */
  function AvoidDuplicate(names: seq<string>, value: string): (r: string)
    requires value != ""
    ensures !Clashes(names, value) ==> r == value
    ensures Clashes(names, value) ==> exists k: nat :: k >= 1 && r == value + Text.NatToString(k)
  {
    if Clashes(names, value) then
      var k := Highest(TitleCounts(Text.Join(names, ","), value)) + 1;
      value + Text.NatToString(k)
    else value
  }

  /** The `title` setter of a sheet titled `current` in a workbook titled
      `names`: an empty title or a forbidden character raises ValueError
      (None); a title other than the current one avoids the others. */
  function SetTitle(names: seq<string>, current: string, value: string): (r: Option<string>)
    ensures r.None? <==> !ValidTitle(value)
    ensures r.Some? && current == value ==> r.value == value
    ensures r.Some? && current != value ==> r.value == AvoidDuplicate(names, value)
  {
    if !ValidTitle(value) then None
    else if current != value then Some(AvoidDuplicate(names, value))
    else Some(value)
  }

  /** The title `wb.copy_worksheet` gives the copy: the format sheet's title
      and " Copy", set on a sheet that has no title yet. */
  function CopyTitle(b: Book, f: NamedGrid): Option<string>
  {
    SetTitle(SheetNames(b), "", f.title + " Copy")
  }

  /** The title the new sheet ends with after `ws.title = sheet_name`; None
      when there is no sheet to copy or a title setter raises. */
  function NewTitle(b: Book, name: string): (r: Option<string>)
    ensures r.Some? ==> FormatSheet(b).Some? && CopyTitle(b, FormatSheet(b).value).Some?
  {
    match FormatSheet(b)
    case None => None
    case Some(f) =>
      match CopyTitle(b, f)
      case None => None
      case Some(copy) => SetTitle(SheetNames(b) + [copy], copy, name)
  }

  /** A valid name that no title of the workbook, and not the copy's, has
      in any case is the new sheet's title. */
  lemma TitleKept(b: Book, name: string)
    requires FormatSheet(b).Some? && CopyTitle(b, FormatSheet(b).value).Some?
    requires ValidTitle(name) && !Clashes(SheetNames(b) + [CopyTitle(b, FormatSheet(b).value).value], name)
    ensures NewTitle(b, name) == Some(name)
  {
  }

  /** A name that a title of the workbook already has, in any case, is not
      the new sheet's title: the sheet is saved under the name followed by
      a number. */
  lemma TitleClash(b: Book, name: string)
    requires FormatSheet(b).Some? && CopyTitle(b, FormatSheet(b).value).Some?
    requires ValidTitle(name) && CopyTitle(b, FormatSheet(b).value).value != name
    requires Clashes(SheetNames(b), name)
    ensures NewTitle(b, name).Some?
    ensures exists k: nat :: k >= 1 && NewTitle(b, name).value == name + Text.NatToString(k)
  {
    var copy := CopyTitle(b, FormatSheet(b).value).value;
    var i :| 0 <= i < |SheetNames(b)| && Text.Lower(SheetNames(b)[i]) == Text.Lower(name);
    assert (SheetNames(b) + [copy])[i] == SheetNames(b)[i];
  }

  /** A name with a forbidden character makes the command raise once a
      sheet has been copied. */
  lemma ForbiddenTitle(b: Book, name: string)
    requires !ValidTitle(name)
    ensures NewTitle(b, name).None?
  {
  }

  /** What the command ends with. */
  datatype Report =
    | TemplateMissing
    | Crashed
    | Saved(book: Book, count: nat)

  /** The command's blocks: one per worker with a contract for `anio`. */
  function YearBodies(t: Tables, anio: int): seq<Plan>
  {
    CommandBodies(t, anio, ExportIds(t, anio, |t.workers|))
  }

  /** The loop over the template names that picks the sheet to copy. */
  method PickFormat(b: Book) returns (f: Option<NamedGrid>)
    ensures f == FormatSheet(b)
  {
    var names := SheetNames(b);
    var found := FirstPresent(TemplateNames, names);
    if found.Some? {
      return Some(b.sheets[IndexOf(names, TemplateNames[found.value])]);
    } else if b.active < |b.sheets| {
      return Some(b.sheets[b.active]);
    }
    return None;
  }

  /** The copied sheet after its data rows are cleared and the workers are
      written from row 5 on. */
  method FillCopy(format: Grid, bodies: seq<Plan>) returns (cells: Grid, count: nat)
    ensures cells == Exported(RowsBefore(format, FirstDataRow), bodies)
    ensures count == Successes(bodies)
  {
    var ws := new Sheet(format);
    ws.ClearData();
    count := ExportRows(ws, bodies);
    cells := ws.cells;
  }

  /** `exportar_excel --anio anio [--sheet sheet]`: open the output (or the
      template), copy the format sheet and give the copy the target name,
      keep its four header rows, write the year's workers from row 5 on,
      and report the workbook saved and how many workers were exported. A
      missing template stops with a message; a workbook without a sheet to
      copy, or a title the setter refuses, raises into the command's outer
      handler and nothing is saved. */
  method Handle(outputExists: bool, output: Book, templateExists: bool, template: Book,
                t: Tables, anio: int, sheet: Option<string>) returns (r: Report)
    ensures r.TemplateMissing? <==> !outputExists && !templateExists
    ensures var b := Opened(outputExists, output, templateExists, template, TargetName(anio, sheet));
      r.Crashed? <==> b.Some? && NewTitle(b.value, TargetName(anio, sheet)).None?
    ensures var b := Opened(outputExists, output, templateExists, template, TargetName(anio, sheet));
      r.Saved? ==> (b.Some? && NewTitle(b.value, TargetName(anio, sheet)).Some?
        && r.count == Successes(YearBodies(t, anio))
        && r.book == b.value.(sheets := b.value.sheets
             + [NamedGrid(NewTitle(b.value, TargetName(anio, sheet)).value,
                 Exported(RowsBefore(FormatSheet(b.value).value.cells, FirstDataRow), YearBodies(t, anio)))]))
  {
    var name := TargetName(anio, sheet);
    var b: Book;
    if outputExists {
      b := output;
      if name in SheetNames(b) {
        b := Without(b, name);
      }
    } else if templateExists {
      b := template;
    } else {
      return TemplateMissing;
    }
    var format := PickFormat(b);
    if format.None? {
      return Crashed;
    }
    var copy := SetTitle(SheetNames(b), "", format.value.title + " Copy");
    if copy.None? {
      return Crashed;
    }
    var title := SetTitle(SheetNames(b) + [copy.value], copy.value, name);
    if title.None? {
      return Crashed;
    }
    var cells, count := FillCopy(format.value.cells, YearBodies(t, anio));
    r := Saved(b.(sheets := b.sheets + [NamedGrid(title.value, cells)]), count);
  }

  /** What the saved workbook holds: every sheet it was opened with, then
      the new sheet under the target name, whose rows 1-4 are the format
      sheet's and whose other cells lie in the rows of the exported
      workers. */
  lemma SavedBook(outputExists: bool, output: Book, templateExists: bool, template: Book,
                  t: Tables, anio: int, sheet: Option<string>, g: Grid)
    requires outputExists || templateExists
    requires var b := Opened(outputExists, output, templateExists, template, TargetName(anio, sheet)).value;
      FormatSheet(b).Some? && FormatSheet(b).value.cells == g
    ensures var b := Opened(outputExists, output, templateExists, template, TargetName(anio, sheet)).value;
      var e := Exported(RowsBefore(g, FirstDataRow), YearBodies(t, anio));
      RowsBefore(e, FirstDataRow) == RowsBefore(g, FirstDataRow)
      && (forall q :: q in e && q.0 >= FirstDataRow ==> q.0 <= FirstDataRow + Successes(YearBodies(t, anio)))
  {
    ExportedShape(RowsBefore(g, FirstDataRow), YearBodies(t, anio));
  }
}
