/// Concrete stores on which importSymbol and export, as written, do what the
/// package system's own rules forbid, beside the corrected operations that
/// do not.  Package ids: 0 is P, 1 is U (a user of P), 2 is Q (the home of
/// a symbol P took in).
module Findings {
  import opened Tables
  import opened Invariant
  import opened Conflicts
  import opened Operations

  /* --------------------------------------------------------------- import */

  /// P has the symbol X (id 0, homed in P) in its external table only.
  function ExternalOnly(): Store {
    Store([Pkg(map[], map["X" := 0], map[], [], [], false)], ["X"], [Some(0)])
  }

  /// Importing an external symbol into its own package passes and leaves
  /// X in both tables of P; the corrected import changes nothing there.
  lemma ImportCounterexample()
    ensures Good(ExternalOnly())
    ensures var e := ImportStep(ExternalOnly(), 0, 0);
      e.outcome == Pass && "X" in e.store.pkgs[0].internal && "X" in e.store.pkgs[0].external &&
      !Good(e.store)
    ensures ImportCheckedStep(ExternalOnly(), 0, 0) == Step(Pass, ExternalOnly())
  {
    var st := ExternalOnly();
    assert TablesOk(st.pkgs[0], st.names);
    assert Accessible(st.pkgs, 0, "X") == Some(0);
    assert !TablesOk(ImportStep(st, 0, 0).store.pkgs[0], st.names);
  }

  /* --------------------------------------------------------------- export */

  /// Q interns and exports X (id 0); P uses Q and exports X; U uses P and
  /// then shadows X, which creates U's own internal X (id 1).
  function ReExport(): Store {
    Store([Pkg(map[], map["X" := 0], map[], [2], [1], false),
           Pkg(map["X" := 1], map[], map["X" := 1], [0], [], false),
           Pkg(map[], map["X" := 0], map[], [], [0], false)],
          ["X", "X"], [Some(2), Some(1)])
  }

  /// The store satisfies the invariant: use-lists and used-by lists agree,
  /// and every symbol is in its home's tables.
  lemma ReExportGood()
    ensures Good(ReExport())
  {
    var st := ReExport();
    ReExportLists();
    assert TablesOk(st.pkgs[0], st.names) && TablesOk(st.pkgs[1], st.names) && TablesOk(st.pkgs[2], st.names);
    assert HomesPresent(st.pkgs, st.names, st.homes);
  }

  /// The use-list part of the invariant on this store.
  lemma ReExportLists()
    ensures ListsOk(ReExport().pkgs) && UseConsistent(ReExport().pkgs)
  {
    var pkgs := ReExport().pkgs;
    assert pkgs[0].useList == [2] && pkgs[0].usedBy == [1];
    assert pkgs[1].useList == [0] && pkgs[1].usedBy == [];
    assert pkgs[2].useList == [] && pkgs[2].usedBy == [0];
    forall p, q | 0 <= p < 3 && 0 <= q < 3 ensures q in pkgs[p].useList <==> p in pkgs[q].usedBy {
    }
  }

  /// Exporting X again from P, as written, stages X in P's internal table,
  /// meets U's own X, which P's shadowing table does not excuse, and fails
  /// with X left in both tables of P.  The
  /// all-or-nothing export sees X already external and passes unchanged.
  lemma ExportCounterexample()
    ensures Good(ReExport())
    ensures var e := ExportStep(ReExport(), 0, 0);
      e.outcome == Fail(ExportConflict(1, 1)) &&
      "X" in e.store.pkgs[0].internal && "X" in e.store.pkgs[0].external && !Good(e.store)
    ensures ExportAtomicStep(ReExport(), 0, 0) == Step(Pass, ReExport())
  {
    var st := ReExport();
    ReExportGood();
    assert Accessible(st.pkgs, 0, "X") == Some(0);
    var staged := StoreInternal(st.pkgs, 0, "X", 0);
    assert Accessible(staged, 1, "X") == Some(1);
    assert Blocker(staged, 1, ExporterShadows(map[]), "X", 0) == Some(1);
    assert FirstExportConflict(staged, [1], ExporterShadows(map[]), "X", 0) == Some((1, 1));
    assert !TablesOk(ExportStep(st, 0, 0).store.pkgs[0], st.names);
  }

  /// P has its own internal X (id 0); U uses P and shadows its own X (id 1).
  function ShadowedUser(): Store {
    Store([Pkg(map["X" := 0], map[], map[], [], [1], false),
           Pkg(map["X" := 1], map[], map["X" := 1], [0], [], false)],
          ["X", "X"], [Some(0), Some(1)])
  }

  /// The store satisfies the invariant.
  lemma ShadowedUserGood()
    ensures Good(ShadowedUser())
  {
    var st := ShadowedUser();
    ShadowedUserLists();
    assert TablesOk(st.pkgs[0], st.names) && TablesOk(st.pkgs[1], st.names);
    assert HomesPresent(st.pkgs, st.names, st.homes);
  }

  /// The use-list part of the invariant on this store.
  lemma ShadowedUserLists()
    ensures ListsOk(ShadowedUser().pkgs) && UseConsistent(ShadowedUser().pkgs)
  {
    var pkgs := ShadowedUser().pkgs;
    assert pkgs[0].useList == [] && pkgs[0].usedBy == [1];
    assert pkgs[1].useList == [0] && pkgs[1].usedBy == [];
    forall p, q | 0 <= p < 2 && 0 <= q < 2 ensures q in pkgs[p].useList <==> p in pkgs[q].usedBy {
    }
  }

  /// As written, export consults P's shadowing table, which excuses
  /// nothing, and refuses although U shadows X.  The corrected export takes
  /// U's shadowing into account and moves X to P's external table, with U
  /// still seeing its own X.
  lemma ExcuseCounterexample()
    ensures Good(ShadowedUser())
    ensures ExportStep(ShadowedUser(), 0, 0) == Step(Fail(ExportConflict(1, 1)), ShadowedUser())
    ensures var e := ExportAtomicStep(ShadowedUser(), 0, 0);
      e.outcome == Pass && e.store.pkgs[0].external == map["X" := 0] && e.store.pkgs[0].internal == map[] &&
      InRange(e.store.pkgs, e.store.pkgs[1].useList) && Accessible(e.store.pkgs, 1, "X") == Some(1)
  {
    var st := ShadowedUser();
    ShadowedUserGood();
    assert Accessible(st.pkgs, 0, "X") == Some(0);
    assert Accessible(st.pkgs, 1, "X") == Some(1);
    assert Blocker(st.pkgs, 1, ExporterShadows(map[]), "X", 0) == Some(1);
    assert FirstExportConflict(st.pkgs, [1], ExporterShadows(map[]), "X", 0) == Some((1, 1));
    assert Blocker(st.pkgs, 1, UserShadows, "X", 0) == None;
    assert FirstExportConflict(st.pkgs, [1], UserShadows, "X", 0) == None;
    var after := MoveExternal(st.pkgs, 0, "X", 0);
    assert after[0].internal == map[];
    assert Accessible(after, 1, "X") == Some(1);
  }
}
