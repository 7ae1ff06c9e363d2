/// What EXPORT means, as written and in its all-or-nothing form: the
/// invariant it keeps, what the name resolves to afterwards in the
/// exporting package and in the packages that use it, and its errors.
module ExportLaws {
  import opened Tables
  import opened Lists
  import opened Invariant
  import opened Conflicts
  import opened Operations

  /* ------------------------------------------------------- export helpers */

  /// Once p's external table maps n to s, a use-list containing p that
  /// inherited nothing or s under n inherits s.
  lemma {:induction false} InheritAfterExport(pkgs: seq<Pkg>, pkgs': seq<Pkg>, uses: seq<Pid>, p: Pid, n: string, s: Sid)
    requires |pkgs'| == |pkgs| && InRange(pkgs, uses) && p in uses
    requires forall r | 0 <= r < |pkgs| && r != p :: pkgs'[r].external == pkgs[r].external
    requires p < |pkgs'| && n in pkgs'[p].external && pkgs'[p].external[n] == s
    requires InheritedFrom(pkgs, uses, n) == None || InheritedFrom(pkgs, uses, n) == Some(s)
    ensures InRange(pkgs', uses) && InheritedFrom(pkgs', uses, n) == Some(s)
    decreases |uses|
  {
    if uses[0] != p {
      var tail := uses[1..];
      assert InRange(pkgs, tail) by {
        forall i | 0 <= i < |tail| ensures tail[i] < |pkgs| { assert tail[i] == uses[i + 1]; }
      }
      var k :| 0 <= k < |uses| && uses[k] == p;
      assert tail[k - 1] == p;
      if n !in pkgs[uses[0]].external {
        InheritAfterExport(pkgs, pkgs', tail, p, n, s);
      }
    }
  }

  /// A package using p that saw nothing or s under the name of s sees s
  /// once p exports it.
  lemma ExportVisibility(pkgs: seq<Pkg>, names: seq<string>, homes: seq<Option<Pid>>, p: Pid, s: Sid, u: Pid)
    requires Inv(pkgs, names, homes) && p < |pkgs| && u < |pkgs| && s < |names|
    requires u in pkgs[p].usedBy
    requires Accessible(pkgs, u, names[s]) == None || Accessible(pkgs, u, names[s]) == Some(s)
    ensures var after := MoveExternal(pkgs, p, names[s], s);
      InRange(after, after[u].useList) && Accessible(after, u, names[s]) == Some(s)
  {
    var n := names[s];
    var after := MoveExternal(pkgs, p, n, s);
    assert InRange(pkgs, pkgs[u].useList);
    if u != p {
      assert after[u] == pkgs[u];
      var pu := pkgs[u];
      if n !in pu.external && n !in pu.internal {
        assert p in pu.useList;
        InheritAfterExport(pkgs, after, pu.useList, p, n, s);
      }
    }
  }

  /// Under the invariant the exporting package's own shadowing table never
  /// excuses a conflict: it can only map the name to the exported symbol.
  lemma ExporterExcuseDead(pkgs: seq<Pkg>, names: seq<string>, homes: seq<Option<Pid>>, p: Pid, s: Sid, u: Pid)
    requires Inv(pkgs, names, homes) && p < |pkgs| && s < |names|
    requires Accessible(pkgs, p, names[s]) == Some(s)
    ensures Blocker(pkgs, u, ExporterShadows(pkgs[p].shadowing), names[s], s) ==
            Blocker(pkgs, u, ExporterShadows(map[]), names[s], s)
  {
    var n := names[s];
    var pk := pkgs[p];
    assert TablesOk(pk, names);
    if n in pk.shadowing {
      assert LocalAt(pk, n, pk.shadowing[n]);
      assert pk.shadowing[n] == s;
    }
  }

  /// Two excuse rules that agree on every user find the same first conflict.
  lemma {:induction false} SameBlockers(pkgs: seq<Pkg>, users: seq<Pid>, e1: Excuse, e2: Excuse, n: string, s: Sid)
    requires forall i | 0 <= i < |users| :: Blocker(pkgs, users[i], e1, n, s) == Blocker(pkgs, users[i], e2, n, s)
    ensures FirstExportConflict(pkgs, users, e1, n, s) == FirstExportConflict(pkgs, users, e2, n, s)
    decreases |users|
  {
    if users != [] {
      var tail := users[1..];
      forall i | 0 <= i < |tail| ensures Blocker(pkgs, tail[i], e1, n, s) == Blocker(pkgs, tail[i], e2, n, s) {
        assert tail[i] == users[i + 1];
      }
      SameBlockers(pkgs, tail, e1, e2, n, s);
    }
  }

  /// With the using package's own shadowing table as excuse, a user that
  /// does not block sees the exported symbol afterwards, or keeps the
  /// shadowing symbol it already had.
  lemma UnblockedUser(pkgs: seq<Pkg>, names: seq<string>, homes: seq<Option<Pid>>, p: Pid, s: Sid, u: Pid)
    requires Inv(pkgs, names, homes) && p < |pkgs| && u < |pkgs| && s < |names|
    requires u in pkgs[p].usedBy && Accessible(pkgs, p, names[s]) == Some(s)
    requires Blocker(pkgs, u, UserShadows, names[s], s).None?
    ensures var after := MoveExternal(pkgs, p, names[s], s);
      InRange(after, after[u].useList) &&
      (Accessible(after, u, names[s]) == Some(s) ||
       (names[s] in pkgs[u].shadowing && Accessible(after, u, names[s]) == Accessible(pkgs, u, names[s])))
  {
    var n := names[s];
    var after := MoveExternal(pkgs, p, n, s);
    assert InRange(pkgs, pkgs[u].useList);
    var a := Accessible(pkgs, u, n);
    if a == None || a == Some(s) {
      ExportVisibility(pkgs, names, homes, p, s, u);
    } else {
      assert n in pkgs[u].shadowing && pkgs[u].shadowing[n] == a.value;
      ShadowPrecedence(pkgs, names, homes, u, n);
      assert u != p;
      assert after[u] == pkgs[u];
    }
  }

  /* ---------------------------------------------------------------- export */

  /// A successful all-or-nothing export moves the name of s to p's external
  /// table and changes nothing else; every package using p then resolves
  /// the name to s, unless it shadows the name and keeps its own symbol.
  lemma ExportAtomicPasses(st: Store, p: Pid, s: Sid)
    requires Args(st, p, s) && ExportAtomicStep(st, p, s).outcome == Pass
    ensures var st' := ExportAtomicStep(st, p, s).store; var n := st.names[s];
      && Good(st') && st'.names == st.names && st'.homes == st.homes
      && st'.pkgs == MoveExternal(st.pkgs, p, n, s)
      && Find(st'.pkgs, p, n) == Found(s, External)
      && (n !in st.pkgs[p].external ==>
            forall u | 0 <= u < |st.pkgs| && u in st.pkgs[p].usedBy ::
              Accessible(st'.pkgs, u, n) == Some(s) ||
              (n in st.pkgs[u].shadowing && Accessible(st'.pkgs, u, n) == Accessible(st.pkgs, u, n)))
  {
    var n := st.names[s];
    var pk := st.pkgs[p];
    assert TablesOk(pk, st.names);
    MoveToExternal(st.pkgs, st.names, st.homes, p, s);
    if n in pk.external {
      assert pk.external[n] == s;
      assert pk.internal - {n} == pk.internal;
      assert pk.external[n := s] == pk.external;
      assert pk.(internal := pk.internal - {n}, external := pk.external[n := s]) == pk;
      assert MoveExternal(st.pkgs, p, n, s) == st.pkgs;
    } else {
      forall u | 0 <= u < |st.pkgs| && u in pk.usedBy
        ensures var after := MoveExternal(st.pkgs, p, n, s);
          Accessible(after, u, n) == Some(s) ||
          (n in st.pkgs[u].shadowing && Accessible(after, u, n) == Accessible(st.pkgs, u, n))
      {
        var i :| 0 <= i < |pk.usedBy| && pk.usedBy[i] == u;
        UnblockedUser(st.pkgs, st.names, st.homes, p, s, u);
      }
    }
  }

  /// A failed all-or-nothing export changes nothing, and the only errors
  /// are NotAccessible and ExportConflict.
  lemma ExportAtomicFailUnchanged(st: Store, p: Pid, s: Sid)
    requires Args(st, p, s) && ExportAtomicStep(st, p, s).outcome.Fail?
    ensures ExportAtomicStep(st, p, s).store == st
    ensures ExportAtomicStep(st, p, s).outcome.error.NotAccessible? ||
            ExportAtomicStep(st, p, s).outcome.error.ExportConflict?
  {
  }

  /// The all-or-nothing export is refused as not accessible exactly when
  /// the name of s does not resolve to s in p.
  lemma ExportAtomicNotAccessible(st: Store, p: Pid, s: Sid)
    requires Args(st, p, s)
    ensures ExportAtomicStep(st, p, s).outcome == Fail(NotAccessible) <==>
            Accessible(st.pkgs, p, st.names[s]) != Some(s)
  {
  }

  /// The all-or-nothing export meets a conflict exactly when s is
  /// accessible, not yet external, and some using package has a different
  /// symbol under the name that is not its shadowing symbol; the error
  /// names the first such package and its symbol.
  lemma ExportAtomicConflict(st: Store, p: Pid, s: Sid)
    requires Args(st, p, s)
    ensures var e := ExportAtomicStep(st, p, s); var n := st.names[s]; var pk := st.pkgs[p];
      (e.outcome.Fail? && e.outcome.error.ExportConflict?) <==>
        (Accessible(st.pkgs, p, n) == Some(s) && n !in pk.external &&
         exists i | 0 <= i < |pk.usedBy| :: Blocker(st.pkgs, pk.usedBy[i], UserShadows, n, s).Some?)
  {
  }

  lemma ExportAtomicConflictWitness(st: Store, p: Pid, s: Sid)
    requires Args(st, p, s)
    requires ExportAtomicStep(st, p, s).outcome.Fail? && ExportAtomicStep(st, p, s).outcome.error.ExportConflict?
    ensures var err := ExportAtomicStep(st, p, s).outcome.error; var n := st.names[s];
      var u := err.user; var t := err.other;
      u < |st.pkgs| && u in st.pkgs[p].usedBy && t != s &&
      Accessible(st.pkgs, u, n) == Some(t) &&
      !(n in st.pkgs[u].shadowing && st.pkgs[u].shadowing[n] == t)
  {
    var n := st.names[s];
    var pk := st.pkgs[p];
    var c := FirstExportConflict(st.pkgs, pk.usedBy, UserShadows, n, s);
    assert c.Some? && ExportAtomicStep(st, p, s).outcome.error == ExportConflict(c.value.0, c.value.1);
    var u := c.value.0;
    assert Blocker(st.pkgs, u, UserShadows, n, s) == Some(c.value.1);
    assert u < |st.pkgs| && InRange(st.pkgs, st.pkgs[u].useList);
  }

  /// The export as written, when it succeeds, yields the same new store as
  /// the all-or-nothing one; the check ran unless s is homed here and
  /// already external.
  lemma ExportPassShape(st: Store, p: Pid, s: Sid)
    requires Args(st, p, s) && ExportStep(st, p, s).outcome == Pass
    ensures var n := st.names[s]; var pk := st.pkgs[p];
      && Accessible(st.pkgs, p, n) == Some(s)
      && ExportStep(st, p, s).store == st.(pkgs := MoveExternal(st.pkgs, p, n, s))
      && (!(st.homes[s] == Some(p) && n in pk.external) ==>
            FirstExportConflict(st.pkgs, pk.usedBy, ExporterShadows(pk.shadowing), n, s).None?)
  {
    var n := st.names[s];
    var pk := st.pkgs[p];
    assert TablesOk(pk, st.names);
    var added := st.homes[s] != Some(p);
    if added {
      StagingKeepsConflicts(st.pkgs, st.names, st.homes, p, s);
      StagedMove(st.pkgs, p, n, s);
    } else if !(n in pk.internal && pk.internal[n] == s) {
      assert HomesPresent(st.pkgs, st.names, st.homes);
      assert LocalAt(pk, n, s);
      SameWhenExternal(st.pkgs, p, n, s);
    }
  }

  /// Staging s internally before moving it to the external table leaves
  /// the same tables as moving it directly.
  lemma StagedMove(pkgs: seq<Pkg>, p: Pid, n: string, s: Sid)
    requires p < |pkgs|
    ensures MoveExternal(StoreInternal(pkgs, p, n, s), p, n, s) == MoveExternal(pkgs, p, n, s)
  {
    assert pkgs[p].internal[n := s] - {n} == pkgs[p].internal - {n};
  }

  /// Moving a name that is already external to s changes nothing.
  lemma SameWhenExternal(pkgs: seq<Pkg>, p: Pid, n: string, s: Sid)
    requires p < |pkgs| && n in pkgs[p].external && pkgs[p].external[n] == s && n !in pkgs[p].internal
    ensures MoveExternal(pkgs, p, n, s) == pkgs
  {
    var pk := pkgs[p];
    assert pk.internal - {n} == pk.internal;
    assert pk.external[n := s] == pk.external;
    assert pk.(internal := pk.internal - {n}, external := pk.external[n := s]) == pk;
  }

  /// The export as written, when it succeeds: the name of s moves to the
  /// external table and the invariant holds; the using packages resolve the
  /// name to s unless the source skipped the check (s homed here and
  /// already external).
  lemma ExportPasses(st: Store, p: Pid, s: Sid)
    requires Args(st, p, s) && ExportStep(st, p, s).outcome == Pass
    ensures var st' := ExportStep(st, p, s).store; var n := st.names[s];
      && Good(st') && st'.names == st.names && st'.homes == st.homes
      && st'.pkgs == MoveExternal(st.pkgs, p, n, s)
      && Find(st'.pkgs, p, n) == Found(s, External)
      && (!(st.homes[s] == Some(p) && n in st.pkgs[p].external) ==>
            forall u | 0 <= u < |st.pkgs| && u in st.pkgs[p].usedBy :: Accessible(st'.pkgs, u, n) == Some(s))
  {
    var n := st.names[s];
    var pk := st.pkgs[p];
    ExportPassShape(st, p, s);
    assert TablesOk(pk, st.names);
    MoveToExternal(st.pkgs, st.names, st.homes, p, s);
    if !(st.homes[s] == Some(p) && n in pk.external) {
      forall u | 0 <= u < |st.pkgs| && u in pk.usedBy
        ensures Accessible(MoveExternal(st.pkgs, p, n, s), u, n) == Some(s)
      {
        var i :| 0 <= i < |pk.usedBy| && pk.usedBy[i] == u;
        assert Blocker(st.pkgs, u, ExporterShadows(pk.shadowing), n, s).None?;
        ExporterExcuseDead(st.pkgs, st.names, st.homes, p, s, u);
        assert InRange(st.pkgs, st.pkgs[u].useList);
        ExportVisibility(st.pkgs, st.names, st.homes, p, s, u);
      }
    }
  }

  /// The export as written, when it fails: not accessible (nothing changes),
  /// or a using package with a different symbol under the name, whether or
  /// not that package shadows it.  A symbol homed elsewhere stays in the
  /// internal table, which keeps the invariant only when the name was not
  /// already external.
  lemma ExportFails(st: Store, p: Pid, s: Sid)
    requires Args(st, p, s)
    ensures var e := ExportStep(st, p, s); var n := st.names[s]; var pk := st.pkgs[p];
      && (e.outcome == Fail(NotAccessible) <==> Accessible(st.pkgs, p, n) != Some(s))
      && (e.outcome == Fail(NotAccessible) ==> e.store == st)
      && (e.outcome.Fail? ==> e.outcome.error.NotAccessible? || e.outcome.error.ExportConflict?)
      && (e.outcome.Fail? && e.outcome.error.ExportConflict? ==>
            var u := e.outcome.error.user; var t := e.outcome.error.other;
            && u < |st.pkgs| && u in pk.usedBy && t != s && Accessible(st.pkgs, u, n) == Some(t)
            && e.store.names == st.names && e.store.homes == st.homes
            && e.store.pkgs == (if st.homes[s] != Some(p) then StoreInternal(st.pkgs, p, n, s) else st.pkgs)
            && (n !in pk.external ==> Good(e.store)))
  {
    var n := st.names[s];
    var pk := st.pkgs[p];
    var e := ExportStep(st, p, s);
    if e.outcome.Fail? && e.outcome.error.ExportConflict? {
      var added := st.homes[s] != Some(p);
      if added {
        StagingKeepsConflicts(st.pkgs, st.names, st.homes, p, s);
      }
      var c := FirstExportConflict(st.pkgs, pk.usedBy, ExporterShadows(pk.shadowing), n, s);
      assert c == Some((e.outcome.error.user, e.outcome.error.other));
      var u := e.outcome.error.user;
      assert Blocker(st.pkgs, u, ExporterShadows(pk.shadowing), n, s) == Some(e.outcome.error.other);
      ExporterExcuseDead(st.pkgs, st.names, st.homes, p, s, u);
      if n !in pk.external && added {
        assert n in pk.internal ==> pk.internal[n] == s;
        PutInternal(st.pkgs, st.names, st.homes, p, s);
      }
    }
  }

  /// Where no using package shadows the name, the two excuse rules find
  /// the same first conflict.
  lemma ConflictRulesAgree(pkgs: seq<Pkg>, names: seq<string>, homes: seq<Option<Pid>>, p: Pid, s: Sid)
    requires Inv(pkgs, names, homes) && p < |pkgs| && s < |names|
    requires Accessible(pkgs, p, names[s]) == Some(s)
    requires forall u | 0 <= u < |pkgs| && u in pkgs[p].usedBy :: names[s] !in pkgs[u].shadowing
    ensures FirstExportConflict(pkgs, pkgs[p].usedBy, ExporterShadows(pkgs[p].shadowing), names[s], s) ==
            FirstExportConflict(pkgs, pkgs[p].usedBy, UserShadows, names[s], s)
  {
    var n := names[s];
    var pk := pkgs[p];
    forall i | 0 <= i < |pk.usedBy|
      ensures Blocker(pkgs, pk.usedBy[i], ExporterShadows(pk.shadowing), n, s) ==
              Blocker(pkgs, pk.usedBy[i], UserShadows, n, s)
    {
      ExporterExcuseDead(pkgs, names, homes, p, s, pk.usedBy[i]);
      assert InRange(pkgs, pk.usedBy);
    }
    SameBlockers(pkgs, pk.usedBy, ExporterShadows(pk.shadowing), UserShadows, n, s);
  }

  /// Where no using package shadows the name and s is not yet external,
  /// the two exports agree on the outcome, and on the new store when they
  /// succeed.
  lemma ExportAgreement(st: Store, p: Pid, s: Sid)
    requires Args(st, p, s) && st.names[s] !in st.pkgs[p].external
    requires forall u | 0 <= u < |st.pkgs| && u in st.pkgs[p].usedBy :: st.names[s] !in st.pkgs[u].shadowing
    ensures ExportStep(st, p, s).outcome == ExportAtomicStep(st, p, s).outcome
    ensures ExportStep(st, p, s).outcome == Pass ==> ExportStep(st, p, s).store == ExportAtomicStep(st, p, s).store
  {
    var n := st.names[s];
    var pk := st.pkgs[p];
    if Accessible(st.pkgs, p, n) == Some(s) {
      ConflictRulesAgree(st.pkgs, st.names, st.homes, p, s);
      if st.homes[s] != Some(p) {
        StagingKeepsConflicts(st.pkgs, st.names, st.homes, p, s);
        StagedMove(st.pkgs, p, n, s);
      } else {
        assert HomesPresent(st.pkgs, st.names, st.homes);
        assert LocalAt(pk, n, s);
      }
    }
  }
}
