/** The yearly project assignment of a worker (proyectos/models.py): five
    flags, all false by default, and the summary label `__str__` builds. */
module Proyectos {
  import opened Wrappers
  import opened Text
  import opened Trabajadores

  /** A `Proyecto` row (one per worker and year). */
  datatype ProjectFlags = ProjectFlags(
    administrativo: bool,
    construccionInstalaciones: bool,
    construccionRedes: bool,
    servicios: bool,
    mantenimientoRedes: bool)

  /** Every flag is declared with `default=False`. */
  const DefaultFlags := ProjectFlags(false, false, false, false, false)

  /** The names of the projects, in the order the label lists them. */
  const ProjectNames: seq<string> := ["Administrativo", "Construcción Instalaciones", "Construcción Redes", "Servicios", "Mantenimiento Redes"]

  /** The flags in the order of `ProjectNames`. */
  function FlagList(f: ProjectFlags): (s: seq<bool>)
    ensures |s| == |ProjectNames|
  {
    [f.administrativo, f.construccionInstalaciones, f.construccionRedes, f.servicios, f.mantenimientoRedes]
  }

  /** The names whose flag is set, in their original order. */
  function Selected(flags: seq<bool>, names: seq<string>): (r: seq<string>)
    requires |flags| == |names|
    ensures |r| <= |names|
  {
    if flags == [] then [] else (if flags[0] then [names[0]] else []) + Selected(flags[1..], names[1..])
  }

  /** The names of the projects a row has. */
  function ActiveNames(f: ProjectFlags): seq<string>
  {
    Selected(FlagList(f), ProjectNames)
  }

  function CountTrue(flags: seq<bool>): nat
  {
    if flags == [] then 0 else (if flags[0] then 1 else 0) + CountTrue(flags[1..])
  }

  /** One name is listed per set flag. */
  lemma {:induction false} SelectedCount(flags: seq<bool>, names: seq<string>)
    requires |flags| == |names|
    ensures |Selected(flags, names)| == CountTrue(flags)
  {
    if flags != [] {
      SelectedCount(flags[1..], names[1..]);
    }
  }

  /** The listed names keep the fixed order of the catalogue. */
  lemma {:induction false} SelectedInOrder(flags: seq<bool>, names: seq<string>)
    requires |flags| == |names|
    ensures IsSubsequence(Selected(flags, names), names)
  {
    if flags != [] {
      SelectedInOrder(flags[1..], names[1..]);
      var rest := Selected(flags[1..], names[1..]);
      if !flags[0] {
        assert Selected(flags, names) == rest;
        SubsequenceSkip(rest, names);
      } else {
        assert Selected(flags, names) == [names[0]] + rest;
        assert ([names[0]] + rest)[1..] == rest;
      }
    }
  }

  /** Every name whose flag is set is listed. */
  lemma {:induction false} SelectedHas(flags: seq<bool>, names: seq<string>, i: nat)
    requires |flags| == |names| && i < |names| && flags[i]
    ensures names[i] in Selected(flags, names)
  {
    if i > 0 {
      SelectedHas(flags[1..], names[1..], i - 1);
    }
  }

  /** Only names whose flag is set are listed. */
  lemma {:induction false} SelectedOnly(flags: seq<bool>, names: seq<string>, x: string)
    requires |flags| == |names| && x in Selected(flags, names)
    ensures exists i :: 0 <= i < |names| && flags[i] && names[i] == x
  {
    if !(flags[0] && names[0] == x) {
      SelectedOnly(flags[1..], names[1..], x);
      var i :| 0 <= i < |names| - 1 && flags[1..][i] && names[1..][i] == x;
      assert flags[i + 1] && names[i + 1] == x;
    }
  }

  /** A project is listed exactly when its flag is set. */
  lemma ActiveNamesExact(f: ProjectFlags, k: nat)
    requires k < |ProjectNames|
    ensures ProjectNames[k] in ActiveNames(f) <==> FlagList(f)[k]
  {
    var flags, names := FlagList(f), ProjectNames;
    if flags[k] {
      SelectedHas(flags, names, k);
    }
    if names[k] in Selected(flags, names) {
      SelectedOnly(flags, names, names[k]);
      var i :| 0 <= i < |names| && flags[i] && names[i] == names[k];
      assert forall a, b :: 0 <= a < b < |names| ==> names[a] != names[b];
    }
  }

  /** The number of listed projects is the number of set flags. */
  lemma ActiveNamesCount(f: ProjectFlags)
    ensures |ActiveNames(f)| == CountTrue(FlagList(f))
    ensures IsSubsequence(ActiveNames(f), ProjectNames)
  {
    SelectedCount(FlagList(f), ProjectNames);
    SelectedInOrder(FlagList(f), ProjectNames);
  }

  /** The one-step contribution of a project: its name when its flag is set. */
  function Pick(flag: bool, name: string): seq<string>
  {
    if flag then [name] else []
  }

  /** The five steps of the selection, one per flag, in the order the
      label's list is built. */
  lemma ActiveNamesUnfold(f: ProjectFlags)
    ensures ActiveNames(f) == Pick(f.administrativo, ProjectNames[0]) + Pick(f.construccionInstalaciones, ProjectNames[1])
      + Pick(f.construccionRedes, ProjectNames[2]) + Pick(f.servicios, ProjectNames[3]) + Pick(f.mantenimientoRedes, ProjectNames[4])
  {
    var flags, names := FlagList(f), ProjectNames;
    var p0, p1, p2, p3, p4 := Pick(flags[0], names[0]), Pick(flags[1], names[1]), Pick(flags[2], names[2]),
      Pick(flags[3], names[3]), Pick(flags[4], names[4]);
    assert Selected(flags[5..], names[5..]) == [];
    SelectedStep(flags, names, 4);
    SelectedStep(flags, names, 3);
    SelectedStep(flags, names, 2);
    SelectedStep(flags, names, 1);
    SelectedStep(flags, names, 0);
    assert flags[0..] == flags && names[0..] == names;
    assert p4 + [] == p4;
    assert ActiveNames(f) == p0 + (p1 + (p2 + (p3 + p4)));
    Assoc(p0, p1, p2 + (p3 + p4));
    Assoc(p0 + p1, p2, p3 + p4);
    Assoc(p0 + p1 + p2, p3, p4);
  }

  /** One step of the selection from position `k`. */
  lemma SelectedStep(flags: seq<bool>, names: seq<string>, k: nat)
    requires |flags| == |names| && k < |flags|
    ensures Selected(flags[k..], names[k..]) == Pick(flags[k], names[k]) + Selected(flags[k + 1..], names[k + 1..])
  {
    assert flags[k..][1..] == flags[k + 1..];
    assert names[k..][1..] == names[k + 1..];
  }

  /** Concatenation regroups freely. */
  lemma Assoc(a: seq<string>, b: seq<string>, c: seq<string>)
    ensures a + (b + c) == a + b + c
  {
  }

  /** The middle part of the label: the names joined by ", ", or
      "Sin proyectos" when there are none. */
  function ProjectsText(names: seq<string>): string
  {
    if names == [] then "Sin proyectos" else Join(names, ", ")
  }

  /** `Proyecto.__str__`: collects the set projects by successive appends and
      labels them with the worker's full name and the year. */
  method ProyectoStr(w: Worker, f: ProjectFlags, anio: int) returns (s: string)
    ensures s == NombreCompleto(w) + " - " + ProjectsText(ActiveNames(f)) + " (" + IntToString(anio) + ")"
  {
    var activos: seq<string> := [];
    if f.administrativo {
      activos := activos + ["Administrativo"];
    }
    assert activos == Pick(f.administrativo, ProjectNames[0]);
    if f.construccionInstalaciones {
      activos := activos + ["Construcción Instalaciones"];
    }
    assert activos == Pick(f.administrativo, ProjectNames[0]) + Pick(f.construccionInstalaciones, ProjectNames[1]);
    if f.construccionRedes {
      activos := activos + ["Construcción Redes"];
    }
    assert activos == Pick(f.administrativo, ProjectNames[0]) + Pick(f.construccionInstalaciones, ProjectNames[1])
      + Pick(f.construccionRedes, ProjectNames[2]);
    if f.servicios {
      activos := activos + ["Servicios"];
    }
    assert activos == Pick(f.administrativo, ProjectNames[0]) + Pick(f.construccionInstalaciones, ProjectNames[1])
      + Pick(f.construccionRedes, ProjectNames[2]) + Pick(f.servicios, ProjectNames[3]);
    if f.mantenimientoRedes {
      activos := activos + ["Mantenimiento Redes"];
    }
    ActiveNamesUnfold(f);
    assert activos == ActiveNames(f);
    var proyectos := if activos != [] then Join(activos, ", ") else "Sin proyectos";
    s := NombreCompleto(w) + " - " + proyectos + " (" + IntToString(anio) + ")";
  }

  /** A row with the default flags reads "<name> - Sin proyectos (<year>)". */
  lemma DefaultFlagsLabel(f: ProjectFlags)
    requires f == DefaultFlags
    ensures ActiveNames(f) == [] && ProjectsText(ActiveNames(f)) == "Sin proyectos"
  {
  }
}
