/** The employees page of the client (gestion-empleados/app/empleados/page.tsx):
    the labels it shows for identification and contract codes, the search
    box, the list that shows one entry per full name, and what a click on
    an entry opens. */
module Empleados {
  import opened Wrappers
  import opened Text
  import opened Trabajadores
  import opened Contratacion

  /** An employee as the API lists it; `creado` is `fecha_creacion` in
      milliseconds. */
  datatype Employee = Employee(id: int, numero: string, nombreCompleto: string, creado: int)

  /** `getTipoDocumento`: the label of a known identification code; any
      other text is shown as it is. */
  function TipoDocumento(tipo: string): (r: string)
    ensures forall t: IdType :: tipo == IdCode(t) ==> r == IdLabel(t)
    ensures tipo != IdCode(CC) && tipo != IdCode(CE) && tipo != IdCode(PA) && tipo != IdCode(TI) ==> r == tipo
  {
    if tipo == "CC" then "Cédula de Ciudadanía"
    else if tipo == "CE" then "Cédula de Extranjería"
    else if tipo == "PA" then "Pasaporte"
    else if tipo == "TI" then "Tarjeta de Identidad"
    else tipo
  }


  /** `getTipoContrato`: the label of a known contract code; any other text
      is shown as it is. */
  function TipoContrato(tipo: string): (r: string)
    ensures forall t: ContractType :: tipo == ContractCode(t) ==> r == ContractLabel(t)
    ensures (tipo != ContractCode(PrestacionServicios) && tipo != ContractCode(TerminoIndefinido)
             && tipo != ContractCode(TerminoFijo) && tipo != ContractCode(ObraLabor)
             && tipo != ContractCode(Aprendizaje)) ==> r == tipo
  {
    if tipo == "PRESTACION_SERVICIOS" then "Prestación de Servicios"
    else if tipo == "TERMINO_INDEFINIDO" then "Término Indefinido"
    else if tipo == "TERMINO_FIJO" then "Término Fijo"
    else if tipo == "OBRA_LABOR" then "Obra o Labor"
    else if tipo == "APRENDIZAJE" then "Aprendizaje"
    else tipo
  }


  // ------------------------------------------------------------- search

  /** An employee answers a query: the lower-cased name holds the
      lower-cased query, or the document number holds the query as typed. */
  predicate Matches(e: Employee, query: string)
  {
    Contains(Lower(e.nombreCompleto), Lower(query)) || Contains(e.numero, query)
  }

  /** The employees answering a query, in their order. */
  function Matching(es: seq<Employee>, query: string): (r: seq<Employee>)
    ensures |r| <= |es|
    ensures forall e :: e in r <==> e in es && Matches(e, query)
    decreases |es|
  {
    if es == [] then []
    else
      var init := Matching(es[..|es| - 1], query);
      var e := es[|es| - 1];
      assert forall x :: x in es <==> x in es[..|es| - 1] || x == e;
      if Matches(e, query) then init + [e] else init
  }

  /** The search filter: a query that is blank once trimmed keeps every
      employee. */
  function Search(es: seq<Employee>, query: string): (r: seq<Employee>)
    ensures Trim(query) == "" ==> r == es
    ensures Trim(query) != "" ==> forall e :: e in r <==> e in es && Matches(e, query)
  {
    if Trim(query) == "" then es else Matching(es, query)
  }

  // ---------------------------------------------------- one entry per name

  /** The names of a list of employees. */
  function Names(es: seq<Employee>): (ns: set<string>)
    ensures forall n :: n in ns <==> exists e :: e in es && e.nombreCompleto == n
  {
    set e | e in es :: e.nombreCompleto
  }

  /** The list with only the first employee of each name, in order. */
  function FirstPerName(es: seq<Employee>): seq<Employee>
    decreases |es|
  {
    if es == [] then []
    else
      var d := FirstPerName(es[..|es| - 1]);
      var e := es[|es| - 1];
      if e.nombreCompleto in Names(d) then d else d + [e]
  }

  /** The de-duplication effect: walks the filtered list once, remembering
      the names seen, and keeps an employee whose name is new. */
  method Deduplicate(filtered: seq<Employee>) returns (unique: seq<Employee>)
    ensures unique == FirstPerName(filtered)
  {
    unique := [];
    var seenNames: set<string> := {};
    var i := 0;
    while i < |filtered|
      invariant 0 <= i <= |filtered|
      invariant unique == FirstPerName(filtered[..i])
      invariant seenNames == Names(unique)
    {
      var emp := filtered[i];
      assert filtered[..i + 1][..i] == filtered[..i];
      if emp.nombreCompleto !in seenNames {
        seenNames := seenNames + {emp.nombreCompleto};
        unique := unique + [emp];
      }
      i := i + 1;
    }
    assert filtered[..i] == filtered;
  }

  /** The position of the first employee named `n`. */
  function FirstIndex(es: seq<Employee>, n: string): (i: nat)
    requires n in Names(es)
    ensures i < |es| && es[i].nombreCompleto == n
    ensures forall k :: 0 <= k < i ==> es[k].nombreCompleto != n
  {
    if es[0].nombreCompleto == n then 0
    else
      assert n in Names(es[1..]) by {
        var e :| e in es && e.nombreCompleto == n;
        var k :| 0 <= k < |es| && es[k] == e;
        assert es[1..][k - 1] == e;
      }
      1 + FirstIndex(es[1..], n)
  }

  /** Appending an employee keeps the positions of the list and adds its
      name. */
  lemma AppendFacts(init: seq<Employee>, e: Employee)
    ensures forall k :: 0 <= k < |init| ==> (init + [e])[k] == init[k]
    ensures (init + [e])[|init|] == e
    ensures Names(init + [e]) == Names(init) + {e.nombreCompleto}
  {
    var es := init + [e];
    assert forall x :: x in es <==> x in init || x == e;
  }

  /** After de-duplication no two entries share a name. */
  lemma {:induction false} FirstPerNameDistinct(es: seq<Employee>)
    ensures DistinctNames(FirstPerName(es))
    decreases |es|
  {
    if es != [] {
      var init := es[..|es| - 1];
      var e := es[|es| - 1];
      assert es == init + [e];
      FirstPerNameDistinct(init);
      var di := FirstPerName(init);
      if e.nombreCompleto !in Names(di) {
        AppendFacts(di, e);
        assert forall i :: 0 <= i < |di| ==> di[i] in di;
      }
    }
  }

  /** De-duplication loses no name. */
  lemma {:induction false} FirstPerNameNames(es: seq<Employee>)
    ensures Names(FirstPerName(es)) == Names(es)
    decreases |es|
  {
    if es != [] {
      var init := es[..|es| - 1];
      var e := es[|es| - 1];
      assert es == init + [e];
      FirstPerNameNames(init);
      AppendFacts(init, e);
      var di := FirstPerName(init);
      if e.nombreCompleto !in Names(di) {
        AppendFacts(di, e);
      }
    }
  }

  /** Each entry kept is the first employee of its name, and the entries
      keep the order of those first positions. */
  lemma FirstPerNameFirsts(es: seq<Employee>)
    ensures var d := FirstPerName(es);
      (forall j :: 0 <= j < |d| ==>
         d[j].nombreCompleto in Names(es) && es[FirstIndex(es, d[j].nombreCompleto)] == d[j])
      && (forall i, j :: 0 <= i < j < |d| ==>
            d[i].nombreCompleto in Names(es) && d[j].nombreCompleto in Names(es)
            && FirstIndex(es, d[i].nombreCompleto) < FirstIndex(es, d[j].nombreCompleto))
  {
    FirstPerNameAt(es);
    FirstPerNameOrder(es);
    var d := FirstPerName(es);
    assert forall j :: 0 <= j < |d| ==> d[j] in d;
  }

  /** `x` is the first employee of its name in `es`. */
  predicate FirstOfName(es: seq<Employee>, x: Employee)
  {
    x.nombreCompleto in Names(es) && es[FirstIndex(es, x.nombreCompleto)] == x
  }

  /** The first employee named like `a` comes before the first named like `b`. */
  predicate IndexBefore(es: seq<Employee>, a: Employee, b: Employee)
  {
    a.nombreCompleto in Names(es) && b.nombreCompleto in Names(es)
    && FirstIndex(es, a.nombreCompleto) < FirstIndex(es, b.nombreCompleto)
  }

  /** Each entry is the first employee of its name. */
  lemma {:induction false} FirstPerNameAt(es: seq<Employee>)
    ensures forall x :: x in FirstPerName(es) ==> FirstOfName(es, x)
    decreases |es|
  {
    if es != [] {
      var init := es[..|es| - 1];
      var e := es[|es| - 1];
      assert es == init + [e];
      FirstPerNameAt(init);
      var di := FirstPerName(init);
      var d := FirstPerName(es);
      var isNew := e.nombreCompleto !in Names(di);
      assert d == if isNew then di + [e] else di;
      forall x | x in d
        ensures FirstOfName(es, x)
      {
        if x in di {
          var n := x.nombreCompleto;
          assert FirstOfName(init, x);
          FirstIndexPrefix(init, e, n);
          assert es[FirstIndex(init, n)] == init[FirstIndex(init, n)];
        } else {
          assert isNew && x == e;
          FirstPerNameNames(init);
          FirstIndexLast(init, e);
        }
      }
    }
  }

  /** The entries keep the order of their names' first positions. */
  lemma {:induction false} FirstPerNameOrder(es: seq<Employee>)
    ensures var d := FirstPerName(es);
      forall i, j :: 0 <= i < j < |d| ==> IndexBefore(es, d[i], d[j])
    decreases |es|
  {
    if es != [] {
      var init := es[..|es| - 1];
      var e := es[|es| - 1];
      assert es == init + [e];
      FirstPerNameOrder(init);
      FirstPerNameNames(init);
      var di := FirstPerName(init);
      var d := FirstPerName(es);
      var isNew := e.nombreCompleto !in Names(di);
      assert d == if isNew then di + [e] else di;
      forall i, j | 0 <= i < j < |d|
        ensures IndexBefore(es, d[i], d[j])
      {
        assert d[i] == di[i] && di[i] in di;
        var ni := di[i].nombreCompleto;
        assert ni in Names(init);
        FirstIndexPrefix(init, e, ni);
        if j < |di| {
          assert d[j] == di[j] && di[j] in di;
          assert IndexBefore(init, di[i], di[j]);
          FirstIndexPrefix(init, e, di[j].nombreCompleto);
        } else {
          assert isNew && d[j] == e;
          FirstIndexLast(init, e);
        }
      }
    }
  }


  /** Appending an employee leaves the first positions of the names already
      present alone. */
  lemma FirstIndexPrefix(init: seq<Employee>, e: Employee, n: string)
    requires n in Names(init)
    ensures n in Names(init + [e]) && FirstIndex(init + [e], n) == FirstIndex(init, n)
  {
    AppendFacts(init, e);
    var es := init + [e];
    var i := FirstIndex(init, n);
    assert es[i] == init[i];
  }

  /** A name first seen at the end is first found there. */
  lemma FirstIndexLast(init: seq<Employee>, e: Employee)
    requires e.nombreCompleto !in Names(init)
    ensures e.nombreCompleto in Names(init + [e]) && FirstIndex(init + [e], e.nombreCompleto) == |init|
  {
    AppendFacts(init, e);
    assert forall k :: 0 <= k < |init| ==> init[k] in init;
  }

  // --------------------------------------------------------------- the page

  /** What a click on an entry opens. */
  datatype View = Listing | Chooser(duplicates: seq<Employee>) | Detail(employee: Employee)

  /** The employees of the full list that share `e`'s name. */
  function SameName(es: seq<Employee>, e: Employee): (r: seq<Employee>)
    ensures forall x :: x in r <==> x in es && x.nombreCompleto == e.nombreCompleto
    ensures |r| <= |es|
    decreases |es|
  {
    if es == [] then []
    else
      var init := SameName(es[..|es| - 1], e);
      var x := es[|es| - 1];
      assert forall y :: y in es <==> y in es[..|es| - 1] || y == x;
      if x.nombreCompleto == e.nombreCompleto then init + [x] else init
  }

  /** The page's state. */
  class Page {
    var employees: seq<Employee>
    var filteredEmployees: seq<Employee>
    var searchQuery: string
    var view: View

    constructor ()
      ensures employees == [] && filteredEmployees == [] && searchQuery == "" && view == Listing
    {
      employees, filteredEmployees, searchQuery, view := [], [], "", Listing;
    }

    /** The filter effect, run when the query or the list changes: the
        search, then one entry per name. */
    method ApplyFilter()
      modifies this
      ensures filteredEmployees == FirstPerName(Search(employees, searchQuery))
      ensures employees == old(employees) && searchQuery == old(searchQuery) && view == old(view)
    {
      var filtered := employees;
      if Trim(searchQuery) != "" {
        filtered := Matching(employees, searchQuery);
      }
      filteredEmployees := Deduplicate(filtered);
    }

    /** The year's employees arrive; the filter effect follows. */
    method Loaded(data: seq<Employee>)
      modifies this
      ensures employees == data && filteredEmployees == FirstPerName(Search(data, searchQuery))
      ensures searchQuery == old(searchQuery) && view == old(view)
    {
      employees := data;
      filteredEmployees := data;
      ApplyFilter();
    }

    /** The user types in the search box; the filter effect follows. */
    method Typed(q: string)
      modifies this
      ensures searchQuery == q && filteredEmployees == FirstPerName(Search(employees, q))
      ensures employees == old(employees) && view == old(view)
    {
      searchQuery := q;
      ApplyFilter();
    }

    /** `handleEmployeeClick`: with more than one employee of that name in
        the full list the chooser opens with all of them, otherwise the
        employee's details. */
    method EmployeeClicked(e: Employee)
      modifies this
      ensures view == if |SameName(employees, e)| > 1 then Chooser(SameName(employees, e)) else Detail(e)
      ensures employees == old(employees) && filteredEmployees == old(filteredEmployees)
      ensures searchQuery == old(searchQuery)
    {
      var duplicates := SameName(employees, e);
      if |duplicates| > 1 {
        view := Chooser(duplicates);
      } else {
        view := Detail(e);
      }
    }
  }

  /** No two employees of the list share a name. */
  predicate DistinctNames(es: seq<Employee>)
  {
    forall i, j :: 0 <= i < j < |es| ==> es[i].nombreCompleto != es[j].nombreCompleto
  }

  /** A click opens the chooser when some other employee of the full list
      has the clicked name, and the clicked employee alone when names are
      distinct. */
  lemma ClickOutcome(es: seq<Employee>, e: Employee)
    requires e in es
    ensures e in SameName(es, e)
    ensures (exists x :: x in es && x.nombreCompleto == e.nombreCompleto && x != e) ==> |SameName(es, e)| > 1
    ensures DistinctNames(es) ==> SameName(es, e) == [e]
  {
    var r := SameName(es, e);
    if exists x :: x in es && x.nombreCompleto == e.nombreCompleto && x != e {
      var x :| x in es && x.nombreCompleto == e.nombreCompleto && x != e;
      assert x in r && e in r;
      var i :| 0 <= i < |r| && r[i] == x;
      var j :| 0 <= j < |r| && r[j] == e;
      assert i != j;
    }
    if DistinctNames(es) {
      SameNameDistinct(es, e);
    }
  }

  /** Nobody of the list has the name: nobody is found. */
  lemma {:induction false} SameNameNone(es: seq<Employee>, e: Employee)
    requires forall y :: y in es ==> y.nombreCompleto != e.nombreCompleto
    ensures SameName(es, e) == []
    decreases |es|
  {
    if es != [] {
      assert es[|es| - 1] in es;
      assert forall y :: y in es[..|es| - 1] ==> y in es;
      SameNameNone(es[..|es| - 1], e);
    }
  }

  /** With distinct names, the clicked employee is the only one of its name. */
  lemma {:induction false} SameNameDistinct(es: seq<Employee>, e: Employee)
    requires e in es && DistinctNames(es)
    ensures SameName(es, e) == [e]
    decreases |es|
  {
    var init := es[..|es| - 1];
    var x := es[|es| - 1];
    if x == e {
      assert forall y :: y in init ==> y.nombreCompleto != e.nombreCompleto by {
        forall y | y in init ensures y.nombreCompleto != e.nombreCompleto {
          var k :| 0 <= k < |init| && init[k] == y;
          assert es[k] == y;
        }
      }
      SameNameNone(init, e);
    } else {
      assert e in init by {
        var k :| 0 <= k < |es| && es[k] == e;
        assert k < |init|;
        assert init[k] == e;
      }
      assert DistinctNames(init) by {
        forall i, j | 0 <= i < j < |init| ensures init[i].nombreCompleto != init[j].nombreCompleto {
          assert init[i] == es[i] && init[j] == es[j];
        }
      }
      SameNameDistinct(init, e);
      var k :| 0 <= k < |init| && init[k] == e;
      assert es[k] == e;
      assert x.nombreCompleto != e.nombreCompleto;
    }
  }
}
