/// The three name-conflict checks of the package system: the used-by scan
/// of EXPORT, the external-symbol scan of USE-PACKAGE and the ambiguity
/// check of UNINTERN on a shadowing symbol.
module Conflicts {
  import opened Tables
  import opened Invariant

  /// Whose shadowing table excuses a conflict on export: the exporting
  /// package's table (as the source is written) or each using package's own.
  datatype Excuse = ExporterShadows(table: map<string, Sid>) | UserShadows

  /// The symbol that stops the export of s under `name` because of user
  /// package u: a different symbol accessible in u under that name, unless
  /// the excusing shadowing table maps the name to it.
  function Blocker(pkgs: seq<Pkg>, u: Pid, excuse: Excuse, name: string, s: Sid): (r: Option<Sid>)
  {
    if u < |pkgs| && InRange(pkgs, pkgs[u].useList) then
      var shadow := if excuse.ExporterShadows? then excuse.table else pkgs[u].shadowing;
      var a := Accessible(pkgs, u, name);
      if a.Some? && a.value != s && !(name in shadow && shadow[name] == a.value) then a else None
    else None
  }

  /// The first package of `users` (in list order) that blocks the export,
  /// with the symbol it already has under the name.
  function FirstExportConflict(pkgs: seq<Pkg>, users: seq<Pid>, excuse: Excuse, name: string, s: Sid)
    : (r: Option<(Pid, Sid)>)
    ensures r.Some? ==> r.value.0 in users && Blocker(pkgs, r.value.0, excuse, name, s) == Some(r.value.1)
    ensures r.None? <==> forall i | 0 <= i < |users| :: Blocker(pkgs, users[i], excuse, name, s).None?
    decreases |users|
  {
    if users == [] then None
    else match Blocker(pkgs, users[0], excuse, name, s)
      case Some(t) => Some((users[0], t))
      case None =>
        var r := FirstExportConflict(pkgs, users[1..], excuse, name, s);
        assert forall i | 1 <= i < |users| :: users[i] == users[1..][i - 1];
        r
  }

  /// USE-PACKAGE's conflict: q exports t under n while p already has a
  /// different symbol accessible under n, and n is not shadowed in p.
  predicate Clash(pkgs: seq<Pkg>, p: Pid, n: string, t: Sid)
    requires p < |pkgs| && InRange(pkgs, pkgs[p].useList)
  {
    var a := Accessible(pkgs, p, n);
    a.Some? && a.value != t && n !in pkgs[p].shadowing
  }

  predicate UseConflict(pkgs: seq<Pkg>, p: Pid, q: Pid)
    requires p < |pkgs| && InRange(pkgs, pkgs[p].useList) && q < |pkgs|
  {
    exists n | n in pkgs[q].external :: Clash(pkgs, p, n, pkgs[q].external[n])
  }

  /// Two packages of `uses` export different symbols under `name`.
  predicate Ambiguous(pkgs: seq<Pkg>, uses: seq<Pid>, name: string)
    requires InRange(pkgs, uses)
  {
    exists i, j | 0 <= i < |uses| && 0 <= j < |uses| ::
      name in pkgs[uses[i]].external && name in pkgs[uses[j]].external &&
      pkgs[uses[i]].external[name] != pkgs[uses[j]].external[name]
  }

  /* -------------------------------------------------------------- frames */

  /// Inheritance only reads external tables.
  lemma {:induction false} InheritedFrame(pkgs: seq<Pkg>, pkgs': seq<Pkg>, uses: seq<Pid>, name: string)
    requires |pkgs'| == |pkgs| && InRange(pkgs, uses)
    requires forall r | 0 <= r < |pkgs| :: pkgs'[r].external == pkgs[r].external
    ensures InRange(pkgs', uses)
    ensures InheritedFrom(pkgs', uses, name) == InheritedFrom(pkgs, uses, name)
    decreases |uses|
  {
    if uses != [] {
      var tail := uses[1..];
      assert InRange(pkgs, tail) by {
        forall i | 0 <= i < |tail| ensures tail[i] < |pkgs| { assert tail[i] == uses[i + 1]; }
      }
      InheritedFrame(pkgs, pkgs', tail, name);
    }
  }

  /// Storing s internally in p, where s is what its name already resolves
  /// to, changes no package's view of that name, so the export conflicts
  /// found before and after that step are the same.
  lemma StagingKeepsConflicts(pkgs: seq<Pkg>, names: seq<string>, homes: seq<Option<Pid>>, p: Pid, s: Sid)
    requires Inv(pkgs, names, homes) && p < |pkgs| && s < |names|
    requires Accessible(pkgs, p, names[s]) == Some(s)
    ensures var n := names[s]; var pk := pkgs[p];
      var staged := pkgs[p := pk.(internal := pk.internal[n := s])];
      FirstExportConflict(staged, pk.usedBy, ExporterShadows(pk.shadowing), n, s) ==
      FirstExportConflict(pkgs, pk.usedBy, ExporterShadows(pk.shadowing), n, s)
  {
    var n := names[s];
    var pk := pkgs[p];
    var staged := pkgs[p := pk.(internal := pk.internal[n := s])];
    assert ListsOk(pkgs);
    forall u | 0 <= u < |pkgs|
      ensures Blocker(staged, u, ExporterShadows(pk.shadowing), n, s) == Blocker(pkgs, u, ExporterShadows(pk.shadowing), n, s)
    {
      assert InRange(pkgs, pkgs[u].useList);
      StagedView(pkgs, p, n, s, u);
    }
    assert InRange(pkgs, pk.usedBy);
    UsersFrame(staged, pkgs, pk.usedBy, ExporterShadows(pk.shadowing), n, s);
  }

  /// Storing in p's internal table the symbol its name already resolves to
  /// leaves what that name resolves to in every package u as it was.
  lemma StagedView(pkgs: seq<Pkg>, p: Pid, n: string, s: Sid, u: Pid)
    requires p < |pkgs| && u < |pkgs| && InRange(pkgs, pkgs[p].useList) && InRange(pkgs, pkgs[u].useList)
    requires Accessible(pkgs, p, n) == Some(s)
    ensures var staged := pkgs[p := pkgs[p].(internal := pkgs[p].internal[n := s])];
      InRange(staged, staged[u].useList) && Accessible(staged, u, n) == Accessible(pkgs, u, n)
  {
    var staged := pkgs[p := pkgs[p].(internal := pkgs[p].internal[n := s])];
    assert staged[u].useList == pkgs[u].useList;
    InheritedFrame(pkgs, staged, pkgs[u].useList, n);
  }

  lemma {:induction false} UsersFrame(a: seq<Pkg>, b: seq<Pkg>, users: seq<Pid>, excuse: Excuse, name: string, s: Sid)
    requires InRange(b, users)
    requires forall u | 0 <= u < |b| :: Blocker(a, u, excuse, name, s) == Blocker(b, u, excuse, name, s)
    ensures FirstExportConflict(a, users, excuse, name, s) == FirstExportConflict(b, users, excuse, name, s)
    decreases |users|
  {
    if users != [] {
      var tail := users[1..];
      assert InRange(b, tail) by {
        forall i | 0 <= i < |tail| ensures tail[i] < |b| { assert tail[i] == users[i + 1]; }
      }
      UsersFrame(a, b, tail, excuse, name, s);
    }
  }
}
