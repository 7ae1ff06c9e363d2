/// What the symbol-level operations mean: INTERN, UNEXPORT, IMPORT,
/// SHADOW, UNINTERN, SHADOWING-IMPORT and INTERN-AND-EXPORT.
module SymbolLaws {
  import opened Tables
  import opened Invariant
  import opened Conflicts
  import opened Operations
  import opened ExportLaws

  /* --------------------------------------------------------------- intern */

  /// After INTERN the name resolves to the returned symbol, which has that
  /// name; an accessible symbol is returned with the store unchanged, and
  /// otherwise the fresh symbol is the next one, homed here.
  lemma InternMeaning(st: Store, p: Pid, name: string)
    requires Good(st) && p < |st.pkgs|
    ensures var (s, st') := InternStep(st, p, name);
      && Good(st') && |st'.pkgs| == |st.pkgs| && s < |st'.names| && st'.names[s] == name
      && Accessible(st'.pkgs, p, name) == Some(s)
      && (Accessible(st.pkgs, p, name).Some? ==> st' == st)
      && (Accessible(st.pkgs, p, name).None? ==>
            s == |st.names| && st'.names == st.names + [name] && st'.homes[s] == Some(p) &&
            Find(st'.pkgs, p, name) == Found(s, Internal))
  {
    AccessibleNamed(st.pkgs, st.names, st.homes, p, name);
    if Accessible(st.pkgs, p, name).None? {
      AddFresh(st.pkgs, st.names, st.homes, p, name);
    }
  }

  /// Interning twice is interning once.
  lemma InternIdempotent(st: Store, p: Pid, name: string)
    requires Good(st) && p < |st.pkgs|
    ensures var (s, st') := InternStep(st, p, name);
      Good(st') && p < |st'.pkgs| && InternStep(st', p, name) == (s, st')
  {
    InternMeaning(st, p, name);
  }

  /* ------------------------------------------------------------- unexport */

  /// UNEXPORT keeps the invariant; an external symbol becomes internal, an
  /// otherwise accessible one is left alone, and anything else is refused
  /// with nothing changed.
  lemma UnexportMeaning(st: Store, p: Pid, s: Sid)
    requires Args(st, p, s)
    ensures var e := UnexportStep(st, p, s); var n := st.names[s]; var pk := st.pkgs[p];
      && Good(e.store) && e.store.names == st.names && e.store.homes == st.homes
      && (e.outcome.Fail? <==> !(n in pk.external && pk.external[n] == s) && Accessible(st.pkgs, p, n) != Some(s))
      && (e.outcome.Fail? ==> e.outcome == Fail(NotAccessible) && e.store == st)
      && (n in pk.external && pk.external[n] == s ==> Find(e.store.pkgs, p, n) == Found(s, Internal))
      && (!(n in pk.external && pk.external[n] == s) ==> e.store == st)
  {
    var n := st.names[s];
    if n in st.pkgs[p].external {
      MoveToInternal(st.pkgs, st.names, st.homes, p, n);
    }
  }

  /// Exporting an internal symbol and unexporting it again restores the
  /// store.
  lemma ExportUnexportRoundTrip(st: Store, p: Pid, s: Sid)
    requires Args(st, p, s) && Find(st.pkgs, p, st.names[s]) == Found(s, Internal)
    requires ExportStep(st, p, s).outcome == Pass
    ensures var st' := ExportStep(st, p, s).store;
      Args(st', p, s) && UnexportStep(st', p, s) == Step(Pass, st)
  {
    var n := st.names[s];
    ExportPasses(st, p, s);
    MoveRoundTrip(st.pkgs, p, n, s);
  }

  /// The same round trip through the all-or-nothing export.
  lemma ExportAtomicUnexportRoundTrip(st: Store, p: Pid, s: Sid)
    requires Args(st, p, s) && Find(st.pkgs, p, st.names[s]) == Found(s, Internal)
    requires ExportAtomicStep(st, p, s).outcome == Pass
    ensures var st' := ExportAtomicStep(st, p, s).store;
      Args(st', p, s) && UnexportStep(st', p, s) == Step(Pass, st)
  {
    var n := st.names[s];
    ExportAtomicPasses(st, p, s);
    MoveRoundTrip(st.pkgs, p, n, s);
  }

  /// Moving an internal name to the external table and back restores the
  /// tables.
  lemma MoveRoundTrip(pkgs: seq<Pkg>, p: Pid, n: string, s: Sid)
    requires p < |pkgs| && n in pkgs[p].internal && pkgs[p].internal[n] == s && n !in pkgs[p].external
    ensures var m := MoveExternal(pkgs, p, n, s); n in m[p].external && MoveInternal(m, p, n) == pkgs
  {
    var pk := pkgs[p];
    assert pk.external[n := s] - {n} == pk.external;
    assert (pk.internal - {n})[n := s] == pk.internal;
  }

  /* --------------------------------------------------------------- import */

  /// IMPORT (checked) keeps the invariant.  It is refused exactly when a
  /// different symbol is accessible under the name, and then changes
  /// nothing; otherwise s is stored in p under its name, is what the name
  /// resolves to, and is homed in p if it had no home.
  lemma ImportCheckedMeaning(st: Store, p: Pid, s: Sid)
    requires Args(st, p, s)
    ensures var e := ImportCheckedStep(st, p, s); var n := st.names[s]; var a := Accessible(st.pkgs, p, n);
      && Good(e.store) && e.store.names == st.names
      && (e.outcome == Fail(NameConflict) <==> a.Some? && a.value != s)
      && (e.outcome.Fail? ==> e.store == st)
      && (e.outcome == Pass ==>
            LocalAt(e.store.pkgs[p], n, s) && Accessible(e.store.pkgs, p, n) == Some(s) &&
            e.store.homes == Adopt(st.homes, p, s) && e.store.homes[s].Some?)
      && e.outcome != Fail(NotAccessible)
  {
    var n := st.names[s];
    var pk := st.pkgs[p];
    var a := Accessible(st.pkgs, p, n);
    assert TablesOk(pk, st.names);
    if !(a.Some? && a.value != s) {
      if n in pk.external {
        assert LocalAt(pk, n, s);
        if st.homes[s].None? { ClaimHome(st.pkgs, st.names, st.homes, p, s); }
      } else {
        PutInternal(st.pkgs, st.names, st.homes, p, s);
        var pkgs1 := StoreInternal(st.pkgs, p, n, s);
        assert LocalAt(pkgs1[p], n, s);
        if st.homes[s].None? { ClaimHome(pkgs1, st.names, st.homes, p, s); }
      }
    }
  }

  /// Importing twice is importing once.
  lemma ImportCheckedIdempotent(st: Store, p: Pid, s: Sid)
    requires Args(st, p, s) && ImportCheckedStep(st, p, s).outcome == Pass
    ensures var st' := ImportCheckedStep(st, p, s).store;
      Args(st', p, s) && ImportCheckedStep(st', p, s) == Step(Pass, st')
  {
    ImportCheckedMeaning(st, p, s);
    var n := st.names[s];
    var st' := ImportCheckedStep(st, p, s).store;
    var pk' := st'.pkgs[p];
    if n !in pk'.external {
      StoreAgain(st'.pkgs, p, n, s);
    }
  }

  /// Storing internally the symbol a name already has there changes nothing.
  lemma StoreAgain(pkgs: seq<Pkg>, p: Pid, n: string, s: Sid)
    requires p < |pkgs| && n in pkgs[p].internal && pkgs[p].internal[n] == s
    ensures StoreInternal(pkgs, p, n, s) == pkgs
  {
    assert pkgs[p].internal[n := s] == pkgs[p].internal;
    assert pkgs[p].(internal := pkgs[p].internal[n := s]) == pkgs[p];
  }

  /// The import as written agrees with the checked one unless the symbol is
  /// already external.
  lemma ImportAgreement(st: Store, p: Pid, s: Sid)
    requires Args(st, p, s) && st.names[s] !in st.pkgs[p].external
    ensures ImportStep(st, p, s) == ImportCheckedStep(st, p, s)
  {
  }

  /// The import as written, of a symbol already external in p, succeeds and
  /// leaves its name in both tables of p, breaking the invariant.
  lemma ImportBreaksDisjointness(st: Store, p: Pid, s: Sid)
    requires Args(st, p, s) && Find(st.pkgs, p, st.names[s]) == Found(s, External)
    ensures var e := ImportStep(st, p, s); var n := st.names[s];
      e.outcome == Pass && n in e.store.pkgs[p].internal && n in e.store.pkgs[p].external && !Good(e.store)
  {
    var e := ImportStep(st, p, s);
    var n := st.names[s];
    assert n in e.store.pkgs[p].internal.Keys * e.store.pkgs[p].external.Keys;
    assert !TablesOk(e.store.pkgs[p], e.store.names);
  }

  /* --------------------------------------------------------------- shadow */

  /// SHADOW keeps the invariant and leaves a shadowing symbol under the
  /// name, stored in p and preferred over anything inherited, so that no
  /// used package can clash with it; an existing local symbol is reused
  /// (external first), otherwise the fresh symbol is the next one, homed
  /// here.
  lemma ShadowMeaning(st: Store, p: Pid, n: string)
    requires Good(st) && p < |st.pkgs|
    ensures var st' := ShadowStep(st, p, n); var pk' := st'.pkgs[p];
      && Good(st') && |st'.pkgs| == |st.pkgs| && n in pk'.shadowing
      && LocalAt(pk', n, pk'.shadowing[n])
      && Accessible(st'.pkgs, p, n) == Some(pk'.shadowing[n])
      && Find(st'.pkgs, p, n).locality != Inherited
      && (forall t :: !Clash(st'.pkgs, p, n, t))
      && (Present(st.pkgs[p], n).Some? ==>
            pk'.shadowing[n] == Present(st.pkgs[p], n).value &&
            st'.names == st.names && st'.homes == st.homes && Find(st'.pkgs, p, n) == Find(st.pkgs, p, n))
      && (Present(st.pkgs[p], n).None? ==>
            pk'.shadowing[n] == |st.names| && st'.names == st.names + [n] && st'.homes[|st.names|] == Some(p))
  {
    var pk := st.pkgs[p];
    var st' := ShadowStep(st, p, n);
    if n in pk.external {
      SetShadow(st.pkgs, st.names, st.homes, p, n, pk.external[n]);
    } else if n in pk.internal {
      SetShadow(st.pkgs, st.names, st.homes, p, n, pk.internal[n]);
    } else {
      var s := |st.names|;
      AddFresh(st.pkgs, st.names, st.homes, p, n);
      var pkgs1 := StoreInternal(st.pkgs, p, n, s);
      SetShadow(pkgs1, st.names + [n], st.homes + [Some(p)], p, n, s);
    }
    ShadowPrecedence(st'.pkgs, st'.names, st'.homes, p, n);
  }

  /// Shadowing twice is shadowing once.
  lemma ShadowIdempotent(st: Store, p: Pid, n: string)
    requires Good(st) && p < |st.pkgs|
    ensures var st' := ShadowStep(st, p, n); Good(st') && p < |st'.pkgs| && ShadowStep(st', p, n) == st'
  {
    ShadowMeaning(st, p, n);
    var st' := ShadowStep(st, p, n);
    var pk' := st'.pkgs[p];
    assert TablesOk(pk', st'.names);
    var t := pk'.shadowing[n];
    assert Present(pk', n) == Some(t);
    assert ShadowStep(st', p, n) == st'.(pkgs := Shadowing(st'.pkgs, p, n, t));
    ShadowAgain(st'.pkgs, p, n, t);
  }

  /* ------------------------------------------------------------- unintern */

  /// Ambiguity as the source detects it (two used packages with different
  /// external symbols under the name) is the existence of two distinct
  /// exported symbols.
  lemma AmbiguousMeans(pkgs: seq<Pkg>, uses: seq<Pid>, n: string)
    requires InRange(pkgs, uses)
    ensures Ambiguous(pkgs, uses, n) <==>
            exists t1, t2 :: t1 != t2 && Exports(pkgs, uses, n, t1) && Exports(pkgs, uses, n, t2)
  {
    if Ambiguous(pkgs, uses, n) {
      var i, j :| 0 <= i < |uses| && 0 <= j < |uses| &&
        n in pkgs[uses[i]].external && n in pkgs[uses[j]].external &&
        pkgs[uses[i]].external[n] != pkgs[uses[j]].external[n];
      assert ExportsAt(pkgs, uses, n, i, pkgs[uses[i]].external[n]);
      assert ExportsAt(pkgs, uses, n, j, pkgs[uses[j]].external[n]);
      assert Exports(pkgs, uses, n, pkgs[uses[i]].external[n]) && Exports(pkgs, uses, n, pkgs[uses[j]].external[n]);
    }
    if exists t1, t2 :: t1 != t2 && Exports(pkgs, uses, n, t1) && Exports(pkgs, uses, n, t2) {
      var t1, t2 :| t1 != t2 && Exports(pkgs, uses, n, t1) && Exports(pkgs, uses, n, t2);
      var i :| 0 <= i < |uses| && ExportsAt(pkgs, uses, n, i, t1);
      var j :| 0 <= j < |uses| && ExportsAt(pkgs, uses, n, j, t2);
      assert n in pkgs[uses[i]].external && pkgs[uses[i]].external[n] == t1;
      assert n in pkgs[uses[j]].external && pkgs[uses[j]].external[n] == t2;
    }
  }

  /// CAN-UNINTERN: an error exactly when s is the shadowing symbol of its
  /// name and two different symbols would be inherited without it; true
  /// exactly when s is otherwise stored here under its name.
  lemma CanUninternMeaning(st: Store, p: Pid, s: Sid)
    requires Args(st, p, s)
    ensures var n := st.names[s]; var pk := st.pkgs[p]; var c := CanUnintern(st, p, s);
      && (c == Err(UninternConflict) <==>
            n in pk.shadowing && pk.shadowing[n] == s &&
            exists t1, t2 :: t1 != t2 && Exports(st.pkgs, pk.useList, n, t1) && Exports(st.pkgs, pk.useList, n, t2))
      && (c == Ok(true) <==>
            LocalAt(pk, n, s) &&
            !(n in pk.shadowing && pk.shadowing[n] == s && Ambiguous(st.pkgs, pk.useList, n)))
      && (c.Err? ==> c.error == UninternConflict)
  {
    var n := st.names[s];
    var pk := st.pkgs[p];
    assert TablesOk(pk, st.names);
    AmbiguousMeans(st.pkgs, pk.useList, n);
    if n in pk.shadowing && pk.shadowing[n] == s {
      ShadowPrecedence(st.pkgs, st.names, st.homes, p, n);
    }
  }

  /// UNINTERN keeps the invariant.  When it removes s, the name leaves all
  /// three tables of p, can then only be inherited, s loses p as its home,
  /// and no other package changes; otherwise nothing changes.
  lemma UninternMeaning(st: Store, p: Pid, s: Sid)
    requires Args(st, p, s)
    ensures var st' := UninternStore(st, p, s); var n := st.names[s];
      && Good(st') && |st'.pkgs| == |st.pkgs| && st'.names == st.names
      && (CanUnintern(st, p, s) == Ok(true) ==>
            && n !in st'.pkgs[p].internal && n !in st'.pkgs[p].external && n !in st'.pkgs[p].shadowing
            && (Find(st'.pkgs, p, n).Found? ==> Find(st'.pkgs, p, n).locality == Inherited)
            && st'.homes == Release(st.homes, p, s)
            && forall r | 0 <= r < |st.pkgs| && r != p :: st'.pkgs[r] == st.pkgs[r])
      && (CanUnintern(st, p, s) != Ok(true) ==> st' == st)
  {
    if CanUnintern(st, p, s) == Ok(true) {
      RemoveName(st.pkgs, st.names, st.homes, p, s);
    }
  }

  /// Uninterning the fresh symbol that INTERN just created gives back the
  /// original packages; the symbol survives only as a homeless one.
  lemma UninternUndoesIntern(st: Store, p: Pid, name: string)
    requires Good(st) && p < |st.pkgs| && Accessible(st.pkgs, p, name).None?
    ensures var (s, st1) := InternStep(st, p, name);
      Args(st1, p, s) && UninternStore(st1, p, s) == Store(st.pkgs, st.names + [name], st.homes + [None])
  {
    InternMeaning(st, p, name);
    var (s, st1) := InternStep(st, p, name);
    var pk := st.pkgs[p];
    assert TablesOk(pk, st.names);
    assert name !in pk.internal && name !in pk.external;
    assert name !in pk.shadowing;
    assert CanUnintern(st1, p, s) == Ok(true);
    var pk1 := st1.pkgs[p];
    assert pk1.internal - {name} == pk.internal;
    assert pk1.external - {name} == pk.external;
    assert pk1.shadowing - {name} == pk.shadowing;
    assert pk1.(internal := pk1.internal - {name}, external := pk1.external - {name},
                shadowing := pk1.shadowing - {name}) == pk;
    assert (st.homes + [Some(p)])[s := None] == st.homes + [None];
  }

  /// Against p's internal table, checkExistingSymbol accepts s exactly when
  /// FIND-SYMBOL reports s as internal, and refuses it exactly when a
  /// different symbol of the same name is internal there.
  lemma CheckExistingFind(st: Store, p: Pid, s: Sid)
    requires Args(st, p, s)
    ensures var n := st.names[s]; var c := CheckExisting(st.pkgs[p].internal, s, n);
      InRange(st.pkgs, st.pkgs[p].useList) &&
      (c == Ok(Some(s)) <==> Find(st.pkgs, p, n) == Found(s, Internal)) &&
      (c.Err? <==> exists t :: t != s && Find(st.pkgs, p, n) == Found(t, Internal)) &&
      (c.Err? ==> st.names[st.pkgs[p].internal[n]] == n)
  {
    var n := st.names[s];
    var pk := st.pkgs[p];
    assert TablesOk(pk, st.names);
    assert InRange(st.pkgs, pk.useList);
    if n in pk.internal {
      assert n !in pk.external;
      assert Find(st.pkgs, p, n) == Found(pk.internal[n], Internal);
    }
  }

  /* ---------------------------------------------------- shadowing import */

  /// SHADOWING-IMPORT keeps the invariant and leaves s stored in p under
  /// its name, as its shadowing symbol and what the name resolves to.  A
  /// different symbol previously stored under the name is gone from p and
  /// loses p as its home; no other package changes.
  lemma ShadowingImportMeaning(st: Store, p: Pid, s: Sid)
    requires Args(st, p, s)
    ensures var st' := ShadowingImportStep(st, p, s); var n := st.names[s]; var old_ := Present(st.pkgs[p], n);
      && Good(st') && |st'.pkgs| == |st.pkgs| && st'.names == st.names
      && n in st'.pkgs[p].shadowing && st'.pkgs[p].shadowing[n] == s
      && LocalAt(st'.pkgs[p], n, s) && Accessible(st'.pkgs, p, n) == Some(s)
      && (old_.Some? && old_.value != s ==>
            !LocalAt(st'.pkgs[p], n, old_.value) && st'.homes == Release(st.homes, p, old_.value))
      && (!(old_.Some? && old_.value != s) ==> st'.homes == st.homes)
      && forall r | 0 <= r < |st.pkgs| && r != p :: st'.pkgs[r] == st.pkgs[r]
  {
    var n := st.names[s];
    var pk := st.pkgs[p];
    var sym := Present(pk, n);
    assert TablesOk(pk, st.names);
    ShadowingImportGood(st, p, s);
    var st' := ShadowingImportStep(st, p, s);
    if sym.Some? && sym.value != s {
      assert st' == Store(Shadowing(StoreInternal(Unstore(Unshadowing(st.pkgs, p, n), p, n), p, n, s), p, n, s),
                          st.names, Release(st.homes, p, sym.value));
    } else if sym.None? {
      assert st' == st.(pkgs := Shadowing(StoreInternal(st.pkgs, p, n, s), p, n, s));
    } else {
      assert st' == st.(pkgs := Shadowing(st.pkgs, p, n, s));
    }
    ShadowPrecedence(st'.pkgs, st'.names, st'.homes, p, n);
  }

  /// The invariant part of ShadowingImportMeaning, one table edit at a time.
  lemma ShadowingImportGood(st: Store, p: Pid, s: Sid)
    requires Args(st, p, s)
    ensures Good(ShadowingImportStep(st, p, s))
  {
    var n := st.names[s];
    var pk := st.pkgs[p];
    var sym := Present(pk, n);
    assert TablesOk(pk, st.names);
    if sym.Some? && sym.value != s {
      var t := sym.value;
      assert st.names[t] == n && LocalAt(pk, n, t);
      ReplacePresentGood(st.pkgs, st.names, st.homes, p, t, s);
      assert ShadowingImportStep(st, p, s) ==
        Store(Shadowing(StoreInternal(Unstore(Unshadowing(st.pkgs, p, n), p, n), p, n, s), p, n, s),
              st.names, Release(st.homes, p, t));
    } else if sym.None? {
      PutInternal(st.pkgs, st.names, st.homes, p, s);
      var pkgs3 := StoreInternal(st.pkgs, p, n, s);
      SetShadow(pkgs3, st.names, st.homes, p, n, s);
      assert ShadowingImportStep(st, p, s) == st.(pkgs := Shadowing(pkgs3, p, n, s));
    } else {
      SetShadow(st.pkgs, st.names, st.homes, p, n, s);
      assert ShadowingImportStep(st, p, s) == st.(pkgs := Shadowing(st.pkgs, p, n, s));
    }
  }

  /// The invariant through the replacing path of shadowingImport: t, stored
  /// under the name of s, is unshadowed and uninterned, then s is stored and
  /// made shadowing.
  lemma ReplacePresentGood(pkgs: seq<Pkg>, names: seq<string>, homes: seq<Option<Pid>>, p: Pid, t: Sid, s: Sid)
    requires Inv(pkgs, names, homes) && p < |pkgs| && t < |names| && s < |names|
    requires names[t] == names[s] && LocalAt(pkgs[p], names[s], t)
    ensures var n := names[s];
      Inv(Shadowing(StoreInternal(Unstore(Unshadowing(pkgs, p, n), p, n), p, n, s), p, n, s), names, Release(homes, p, t))
  {
    var n := names[s];
    DropShadow(pkgs, names, homes, p, n);
    var pkgs1 := Unshadowing(pkgs, p, n);
    assert Inv(pkgs1, names, homes);
    assert LocalAt(pkgs1[p], names[t], t);
    RemoveName(pkgs1, names, homes, p, t);
    var pkgs2 := Unstore(pkgs1, p, n);
    var homes2 := Release(homes, p, t);
    assert Inv(pkgs2, names, homes2);
    assert n !in pkgs2[p].external && n !in pkgs2[p].internal;
    PutInternal(pkgs2, names, homes2, p, s);
    var pkgs3 := StoreInternal(pkgs2, p, n, s);
    assert Inv(pkgs3, names, homes2);
    assert LocalAt(pkgs3[p], n, s);
    SetShadow(pkgs3, names, homes2, p, n, s);
  }

  /// Shadowing-importing twice is shadowing-importing once.
  lemma ShadowingImportIdempotent(st: Store, p: Pid, s: Sid)
    requires Args(st, p, s)
    ensures var st' := ShadowingImportStep(st, p, s);
      Args(st', p, s) && ShadowingImportStep(st', p, s) == st'
  {
    ShadowingImportMeaning(st, p, s);
    var st' := ShadowingImportStep(st, p, s);
    var n := st.names[s];
    var pk' := st'.pkgs[p];
    assert TablesOk(pk', st'.names);
    assert Present(pk', n) == Some(s);
    assert ShadowingImportStep(st', p, s) == st'.(pkgs := Shadowing(st'.pkgs, p, n, s));
    ShadowAgain(st'.pkgs, p, n, s);
  }

  /// Recording the shadowing symbol a name already has changes nothing.
  lemma ShadowAgain(pkgs: seq<Pkg>, p: Pid, n: string, s: Sid)
    requires p < |pkgs| && n in pkgs[p].shadowing && pkgs[p].shadowing[n] == s
    ensures Shadowing(pkgs, p, n, s) == pkgs
  {
    assert pkgs[p].shadowing[n := s] == pkgs[p].shadowing;
    assert pkgs[p].(shadowing := pkgs[p].shadowing[n := s]) == pkgs[p];
  }

  /* ----------------------------------------------------- intern-and-export */

  /// INTERN-AND-EXPORT as written keeps the invariant.  On success the name
  /// is external in p with the returned symbol, which has that name.  An
  /// external symbol is returned with nothing changed; another accessible
  /// symbol is the one returned, and a successful export of it only moves
  /// its name to p's external table.  A refused export names a using
  /// package that sees a different symbol under the name, and leaves a
  /// symbol homed elsewhere staged in p's internal table.  A fresh symbol is
  /// the next one, homed here and stored external in p.
  lemma InternAndExportMeaning(st: Store, p: Pid, name: string)
    requires Good(st) && p < |st.pkgs|
    ensures var (r, st') := InternAndExportStep(st, p, name);
      var pk := st.pkgs[p]; var a := Accessible(st.pkgs, p, name);
      && Good(st') && |st'.pkgs| == |st.pkgs|
      && (r.Ok? ==> r.value < |st'.names| && st'.names[r.value] == name &&
                    Find(st'.pkgs, p, name) == Found(r.value, External))
      && (name in pk.external ==> r == Ok(pk.external[name]) && st' == st)
      && (a.Some? ==> st'.names == st.names && st'.homes == st.homes && (r.Ok? ==> r.value == a.value))
      && (a.Some? && name !in pk.external && r.Ok? ==> st'.pkgs == MoveExternal(st.pkgs, p, name, a.value))
      && (r.Err? ==>
            && a.Some? && name !in pk.external && a.value < |st.homes| && r.error.ExportConflict?
            && r.error.user < |st.pkgs| && r.error.user in pk.usedBy && r.error.other != a.value
            && Accessible(st.pkgs, r.error.user, name) == Some(r.error.other)
            && st'.pkgs == (if st.homes[a.value] != Some(p) then StoreInternal(st.pkgs, p, name, a.value) else st.pkgs))
      && (a.None? ==>
            && r == Ok(|st.names|) && st'.names == st.names + [name] && st'.homes == st.homes + [Some(p)]
            && st'.pkgs == st.pkgs[p := pk.(external := pk.external[name := |st.names|])])
  {
    var pk := st.pkgs[p];
    assert TablesOk(pk, st.names);
    AccessibleNamed(st.pkgs, st.names, st.homes, p, name);
    match Accessible(st.pkgs, p, name)
    case Some(t) =>
      if name !in pk.external {
        var e := ExportStep(st, p, t);
        if e.outcome.Pass? {
          ExportPasses(st, p, t);
        } else {
          ExportFails(st, p, t);
        }
      }
    case None =>
      InternFresh(st, p, name);
  }

  /// INTERN-AND-EXPORT over the all-or-nothing export keeps the invariant.
  /// On success the name is external in p with the returned symbol, which
  /// has that name.  An external symbol is returned with nothing changed;
  /// another accessible symbol is the one returned, and a successful export
  /// of it only moves its name to p's external table, while a failed one
  /// changes nothing; a fresh symbol is the next one, homed here and stored
  /// external in p.
  lemma InternAndExportAtomicMeaning(st: Store, p: Pid, name: string)
    requires Good(st) && p < |st.pkgs|
    ensures var (r, st') := InternAndExportAtomicStep(st, p, name);
      var pk := st.pkgs[p]; var a := Accessible(st.pkgs, p, name);
      && Good(st') && |st'.pkgs| == |st.pkgs|
      && (r.Ok? ==> r.value < |st'.names| && st'.names[r.value] == name &&
                    Find(st'.pkgs, p, name) == Found(r.value, External))
      && (r.Err? ==> st' == st && r.error.ExportConflict?)
      && (name in pk.external ==> r == Ok(pk.external[name]) && st' == st)
      && (a.Some? ==> st'.names == st.names && st'.homes == st.homes && (r.Ok? ==> r.value == a.value))
      && (a.Some? && name !in pk.external && r.Ok? ==> st'.pkgs == MoveExternal(st.pkgs, p, name, a.value))
      && (a.None? ==>
            && r == Ok(|st.names|) && st'.names == st.names + [name] && st'.homes == st.homes + [Some(p)]
            && st'.pkgs == st.pkgs[p := pk.(external := pk.external[name := |st.names|])])
  {
    var pk := st.pkgs[p];
    assert TablesOk(pk, st.names);
    AccessibleNamed(st.pkgs, st.names, st.homes, p, name);
    match Accessible(st.pkgs, p, name)
    case Some(t) =>
      if name !in pk.external {
        var e := ExportAtomicStep(st, p, t);
        if e.outcome.Pass? {
          ExportAtomicPasses(st, p, t);
        } else {
          ExportAtomicFailUnchanged(st, p, t);
        }
      }
    case None =>
      InternFresh(st, p, name);
  }

  /// The fresh path of INTERN-AND-EXPORT: a new symbol with the name, homed
  /// in p and stored straight in p's external table, keeps the invariant.
  lemma InternFresh(st: Store, p: Pid, name: string)
    requires Good(st) && p < |st.pkgs| && Accessible(st.pkgs, p, name).None?
    ensures var pk := st.pkgs[p]; var s := |st.names|;
      var st' := Store(st.pkgs[p := pk.(external := pk.external[name := s])], st.names + [name], st.homes + [Some(p)]);
      Good(st') && Find(st'.pkgs, p, name) == Found(s, External)
  {
    var pk := st.pkgs[p];
    var s := |st.names|;
    assert InRange(st.pkgs, pk.useList);
    AddFresh(st.pkgs, st.names, st.homes, p, name);
    var pkgs1 := StoreInternal(st.pkgs, p, name, s);
    MoveToExternal(pkgs1, st.names + [name], st.homes + [Some(p)], p, s);
    FreshMove(st.pkgs, p, name, s);
  }

  /// Staging and moving a name p does not store internally is storing it
  /// external directly.
  lemma FreshMove(pkgs: seq<Pkg>, p: Pid, n: string, s: Sid)
    requires p < |pkgs| && n !in pkgs[p].internal
    ensures MoveExternal(StoreInternal(pkgs, p, n, s), p, n, s) ==
            pkgs[p := pkgs[p].(external := pkgs[p].external[n := s])]
  {
    assert pkgs[p].internal[n := s] - {n} == pkgs[p].internal;
  }
}
