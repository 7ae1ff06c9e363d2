/// The consistency invariant of a store of packages and symbols, and the
/// lemmas that each kind of table or list edit preserves it.
module Invariant {
  import opened Tables
  import opened Lists

  /// Every key of the table is the name of the symbol stored under it.
  predicate KeyedByName(m: map<string, Sid>, names: seq<string>) {
    forall n | n in m :: m[n] < |names| && names[m[n]] == n
  }

  /// One package's tables: keyed by symbol name, a name is never both
  /// internal and external, and every shadowing symbol is stored locally
  /// under its name.
  predicate TablesOk(pk: Pkg, names: seq<string>) {
    && KeyedByName(pk.internal, names)
    && KeyedByName(pk.external, names)
    && KeyedByName(pk.shadowing, names)
    && pk.internal.Keys !! pk.external.Keys
    && forall n | n in pk.shadowing :: LocalAt(pk, n, pk.shadowing[n])
  }

  /// Use-lists and used-by lists name existing packages, without repeats.
  predicate ListsOk(pkgs: seq<Pkg>) {
    forall p | 0 <= p < |pkgs| ::
      InRange(pkgs, pkgs[p].useList) && InRange(pkgs, pkgs[p].usedBy) &&
      NoDup(pkgs[p].useList) && NoDup(pkgs[p].usedBy)
  }

  /// q is on p's use-list exactly when p is on q's used-by list.
  predicate UseConsistent(pkgs: seq<Pkg>) {
    forall p, q | 0 <= p < |pkgs| && 0 <= q < |pkgs| ::
      q in pkgs[p].useList <==> p in pkgs[q].usedBy
  }

  /// A symbol's home package, when it has one, stores it under its name.
  predicate HomesPresent(pkgs: seq<Pkg>, names: seq<string>, homes: seq<Option<Pid>>)
    requires |homes| == |names|
  {
    forall t | 0 <= t < |homes| && homes[t].Some? ::
      homes[t].value < |pkgs| && LocalAt(pkgs[homes[t].value], names[t], t)
  }

  predicate Inv(pkgs: seq<Pkg>, names: seq<string>, homes: seq<Option<Pid>>) {
    && |homes| == |names|
    && ListsOk(pkgs)
    && UseConsistent(pkgs)
    && (forall p | 0 <= p < |pkgs| :: TablesOk(pkgs[p], names))
    && HomesPresent(pkgs, names, homes)
  }

  /// Everything stored in a is still stored, under the same name, in b.
  predicate Retains(a: Pkg, b: Pkg) {
    && (forall n | n in a.internal :: LocalAt(b, n, a.internal[n]))
    && (forall n | n in a.external :: LocalAt(b, n, a.external[n]))
  }

  /* ------------------------------------------------------ basic facts */

  /// Under the invariant, the symbol found under a name has that name.
  lemma AccessibleNamed(pkgs: seq<Pkg>, names: seq<string>, homes: seq<Option<Pid>>, p: Pid, name: string)
    requires Inv(pkgs, names, homes) && p < |pkgs|
    ensures var a := Accessible(pkgs, p, name);
      a.Some? ==> a.value < |names| && names[a.value] == name
  {
    var pk := pkgs[p];
    assert TablesOk(pk, names);
    if name !in pk.external && name !in pk.internal {
      var r := InheritedFrom(pkgs, pk.useList, name);
      if r.Some? {
        var k :| 0 <= k < |pk.useList| && ExportsAt(pkgs, pk.useList, name, k, r.value);
        assert TablesOk(pkgs[pk.useList[k]], names);
      }
    }
  }

  /// A shadowing symbol takes precedence: it is what the name resolves to,
  /// and it is never reported as inherited.
  lemma ShadowPrecedence(pkgs: seq<Pkg>, names: seq<string>, homes: seq<Option<Pid>>, p: Pid, name: string)
    requires Inv(pkgs, names, homes) && p < |pkgs| && name in pkgs[p].shadowing
    ensures Accessible(pkgs, p, name) == Some(pkgs[p].shadowing[name])
    ensures Find(pkgs, p, name).Found? && Find(pkgs, p, name).locality != Inherited
  {
    assert TablesOk(pkgs[p], names);
  }

  /// The local names of s in p: [name of s] if s is what that name resolves
  /// to here, otherwise none.
  function LocalNames(pkgs: seq<Pkg>, names: seq<string>, p: Pid, s: Sid): (r: seq<string>)
    requires p < |pkgs| && InRange(pkgs, pkgs[p].useList) && s < |names|
  {
    if Accessible(pkgs, p, names[s]) == Some(s) then [names[s]] else []
  }

  /// Under the invariant the local names are exactly the names under which
  /// s is accessible.
  lemma LocalNamesExact(pkgs: seq<Pkg>, names: seq<string>, homes: seq<Option<Pid>>, p: Pid, s: Sid, n: string)
    requires Inv(pkgs, names, homes) && p < |pkgs| && s < |names|
    ensures n in LocalNames(pkgs, names, p, s) <==> Accessible(pkgs, p, n) == Some(s)
  {
    AccessibleNamed(pkgs, names, homes, p, n);
  }

  /* ------------------------------------------------- package replacement */

  /// Replacing one package's tables keeps the invariant when the new tables
  /// are well formed and still store every symbol homed in that package.
  lemma ReplaceTables(pkgs: seq<Pkg>, names: seq<string>, homes: seq<Option<Pid>>, p: Pid, pk': Pkg)
    requires Inv(pkgs, names, homes) && p < |pkgs|
    requires pk'.useList == pkgs[p].useList && pk'.usedBy == pkgs[p].usedBy
    requires TablesOk(pk', names)
    requires forall t | 0 <= t < |homes| && homes[t] == Some(p) :: LocalAt(pk', names[t], t)
    ensures Inv(pkgs[p := pk'], names, homes)
  {
    var pkgs' := pkgs[p := pk'];
    assert forall r | 0 <= r < |pkgs| ::
      pkgs'[r].useList == pkgs[r].useList && pkgs'[r].usedBy == pkgs[r].usedBy;
    assert ListsOk(pkgs') by {
      forall r | 0 <= r < |pkgs'|
        ensures InRange(pkgs', pkgs'[r].useList) && InRange(pkgs', pkgs'[r].usedBy)
      {
        assert InRange(pkgs, pkgs[r].useList) && InRange(pkgs, pkgs[r].usedBy);
      }
    }
    assert HomesPresent(pkgs', names, homes) by {
      forall t | 0 <= t < |homes| && homes[t].Some?
        ensures homes[t].value < |pkgs'| && LocalAt(pkgs'[homes[t].value], names[t], t)
      {
      }
    }
  }

  /// The same, for tables that retain everything the old tables stored.
  lemma ReplaceRetaining(pkgs: seq<Pkg>, names: seq<string>, homes: seq<Option<Pid>>, p: Pid, pk': Pkg)
    requires Inv(pkgs, names, homes) && p < |pkgs|
    requires pk'.useList == pkgs[p].useList && pk'.usedBy == pkgs[p].usedBy
    requires TablesOk(pk', names) && Retains(pkgs[p], pk')
    ensures Inv(pkgs[p := pk'], names, homes)
  {
    forall t | 0 <= t < |homes| && homes[t] == Some(p) ensures LocalAt(pk', names[t], t) {
      assert LocalAt(pkgs[p], names[t], t);
    }
    ReplaceTables(pkgs, names, homes, p, pk');
  }

  /// Replacing one package's tables keeps the list part of the invariant.
  lemma ListsOkTables(pkgs: seq<Pkg>, p: Pid, pk': Pkg)
    requires ListsOk(pkgs) && p < |pkgs|
    requires pk'.useList == pkgs[p].useList && pk'.usedBy == pkgs[p].usedBy
    ensures ListsOk(pkgs[p := pk'])
  {
    var pkgs' := pkgs[p := pk'];
    forall r | 0 <= r < |pkgs'|
      ensures InRange(pkgs', pkgs'[r].useList) && InRange(pkgs', pkgs'[r].usedBy)
    {
      assert InRange(pkgs, pkgs[r].useList) && InRange(pkgs, pkgs[r].usedBy);
    }
  }

  /* --------------------------------------------------------- table edits */

  /// Storing s under its own name in the internal table (import, and the
  /// first step of exporting a symbol homed elsewhere).
  lemma PutInternal(pkgs: seq<Pkg>, names: seq<string>, homes: seq<Option<Pid>>, p: Pid, s: Sid)
    requires Inv(pkgs, names, homes) && p < |pkgs| && s < |names|
    requires names[s] !in pkgs[p].external
    requires names[s] in pkgs[p].internal ==> pkgs[p].internal[names[s]] == s
    ensures Inv(pkgs[p := pkgs[p].(internal := pkgs[p].internal[names[s] := s])], names, homes)
  {
    var pk := pkgs[p];
    var pk' := pk.(internal := pk.internal[names[s] := s]);
    assert TablesOk(pk, names);
    assert TablesOk(pk', names) by {
      forall n | n in pk'.shadowing ensures LocalAt(pk', n, pk'.shadowing[n]) {
        assert LocalAt(pk, n, pk.shadowing[n]);
      }
    }
    ReplaceRetaining(pkgs, names, homes, p, pk');
  }

  /// Moving the name of s into the external table (a successful export).
  lemma MoveToExternal(pkgs: seq<Pkg>, names: seq<string>, homes: seq<Option<Pid>>, p: Pid, s: Sid)
    requires Inv(pkgs, names, homes) && p < |pkgs| && s < |names|
    requires names[s] in pkgs[p].internal ==> pkgs[p].internal[names[s]] == s
    requires names[s] in pkgs[p].external ==> pkgs[p].external[names[s]] == s
    ensures var pk := pkgs[p]; var n := names[s];
      Inv(pkgs[p := pk.(internal := pk.internal - {n}, external := pk.external[n := s])], names, homes)
  {
    var pk := pkgs[p];
    assert TablesOk(pk, names);
    MovedOutTables(pk, names, s);
    ReplaceRetaining(pkgs, names, homes, p, pk.(internal := pk.internal - {names[s]}, external := pk.external[names[s] := s]));
  }

  /// The table part of MoveToExternal, on the one package.
  lemma MovedOutTables(pk: Pkg, names: seq<string>, s: Sid)
    requires TablesOk(pk, names) && s < |names|
    requires names[s] in pk.internal ==> pk.internal[names[s]] == s
    requires names[s] in pk.external ==> pk.external[names[s]] == s
    ensures var n := names[s]; var pk' := pk.(internal := pk.internal - {n}, external := pk.external[n := s]);
      TablesOk(pk', names) && Retains(pk, pk')
  {
    var n := names[s];
    var pk' := pk.(internal := pk.internal - {n}, external := pk.external[n := s]);
    forall m | m in pk'.shadowing ensures LocalAt(pk', m, pk'.shadowing[m]) {
      assert LocalAt(pk, m, pk.shadowing[m]);
    }
  }

  /// Moving an external name into the internal table (unexport).
  lemma MoveToInternal(pkgs: seq<Pkg>, names: seq<string>, homes: seq<Option<Pid>>, p: Pid, n: string)
    requires Inv(pkgs, names, homes) && p < |pkgs| && n in pkgs[p].external
    ensures var pk := pkgs[p];
      Inv(pkgs[p := pk.(external := pk.external - {n}, internal := pk.internal[n := pk.external[n]])], names, homes)
  {
    var pk := pkgs[p];
    assert TablesOk(pk, names);
    MovedInTables(pk, names, n);
    ReplaceRetaining(pkgs, names, homes, p, pk.(external := pk.external - {n}, internal := pk.internal[n := pk.external[n]]));
  }

  /// The table part of MoveToInternal, on the one package.
  lemma MovedInTables(pk: Pkg, names: seq<string>, n: string)
    requires TablesOk(pk, names) && n in pk.external
    ensures var pk' := pk.(external := pk.external - {n}, internal := pk.internal[n := pk.external[n]]);
      TablesOk(pk', names) && Retains(pk, pk')
  {
    var pk' := pk.(external := pk.external - {n}, internal := pk.internal[n := pk.external[n]]);
    forall m | m in pk'.shadowing ensures LocalAt(pk', m, pk'.shadowing[m]) {
      assert LocalAt(pk, m, pk.shadowing[m]);
    }
  }

  /// Marking a locally stored symbol as shadowing.
  lemma SetShadow(pkgs: seq<Pkg>, names: seq<string>, homes: seq<Option<Pid>>, p: Pid, n: string, s: Sid)
    requires Inv(pkgs, names, homes) && p < |pkgs| && LocalAt(pkgs[p], n, s)
    ensures Inv(pkgs[p := pkgs[p].(shadowing := pkgs[p].shadowing[n := s])], names, homes)
  {
    var pk := pkgs[p];
    assert TablesOk(pk, names);
    ReplaceRetaining(pkgs, names, homes, p, pk.(shadowing := pk.shadowing[n := s]));
  }

  /// Forgetting that a name is shadowing.
  lemma DropShadow(pkgs: seq<Pkg>, names: seq<string>, homes: seq<Option<Pid>>, p: Pid, n: string)
    requires Inv(pkgs, names, homes) && p < |pkgs|
    ensures Inv(pkgs[p := pkgs[p].(shadowing := pkgs[p].shadowing - {n})], names, homes)
  {
    var pk := pkgs[p];
    assert TablesOk(pk, names);
    ReplaceRetaining(pkgs, names, homes, p, pk.(shadowing := pk.shadowing - {n}));
  }

  /// Removing the name of a locally stored symbol from all three tables,
  /// and clearing its home when the home is this package (unintern).
  lemma RemoveName(pkgs: seq<Pkg>, names: seq<string>, homes: seq<Option<Pid>>, p: Pid, s: Sid)
    requires Inv(pkgs, names, homes) && p < |pkgs| && s < |names|
    requires LocalAt(pkgs[p], names[s], s)
    ensures var pk := pkgs[p]; var n := names[s];
      Inv(pkgs[p := pk.(internal := pk.internal - {n}, external := pk.external - {n},
                        shadowing := pk.shadowing - {n})],
          names, if homes[s] == Some(p) then homes[s := None] else homes)
  {
    var pk := pkgs[p];
    var n := names[s];
    var pk' := pk.(internal := pk.internal - {n}, external := pk.external - {n}, shadowing := pk.shadowing - {n});
    var homes' := if homes[s] == Some(p) then homes[s := None] else homes;
    var pkgs' := pkgs[p := pk'];
    assert TablesOk(pk, names);
    RemoveNameTables(pk, names, n);
    ListsOkTables(pkgs, p, pk');
    RemoveNameHomes(pkgs, names, homes, p, s);
    assert UseConsistent(pkgs') by {
      assert forall r | 0 <= r < |pkgs| ::
        pkgs'[r].useList == pkgs[r].useList && pkgs'[r].usedBy == pkgs[r].usedBy;
    }
  }

  /// Removing a name from all three tables of a package keeps its tables
  /// well formed.
  lemma RemoveNameTables(pk: Pkg, names: seq<string>, n: string)
    requires TablesOk(pk, names)
    ensures TablesOk(pk.(internal := pk.internal - {n}, external := pk.external - {n}, shadowing := pk.shadowing - {n}), names)
  {
    var pk' := pk.(internal := pk.internal - {n}, external := pk.external - {n}, shadowing := pk.shadowing - {n});
    forall m | m in pk'.shadowing ensures LocalAt(pk', m, pk'.shadowing[m]) {
      assert LocalAt(pk, m, pk.shadowing[m]);
    }
  }

  /// The homes part of RemoveName: only s can be homed in p under the
  /// removed name, and its home is cleared.
  lemma RemoveNameHomes(pkgs: seq<Pkg>, names: seq<string>, homes: seq<Option<Pid>>, p: Pid, s: Sid)
    requires |homes| == |names| && HomesPresent(pkgs, names, homes) && p < |pkgs| && s < |names|
    requires TablesOk(pkgs[p], names) && LocalAt(pkgs[p], names[s], s)
    ensures var pk := pkgs[p]; var n := names[s];
      HomesPresent(pkgs[p := pk.(internal := pk.internal - {n}, external := pk.external - {n},
                                 shadowing := pk.shadowing - {n})],
                   names, if homes[s] == Some(p) then homes[s := None] else homes)
  {
    var pk := pkgs[p];
    var n := names[s];
    var pk' := pk.(internal := pk.internal - {n}, external := pk.external - {n}, shadowing := pk.shadowing - {n});
    var homes' := if homes[s] == Some(p) then homes[s := None] else homes;
    var pkgs' := pkgs[p := pk'];
    forall t | 0 <= t < |homes'| && homes'[t].Some?
      ensures homes'[t].value < |pkgs'| && LocalAt(pkgs'[homes'[t].value], names[t], t)
    {
      assert homes'[t] == homes[t];
      if homes[t].value == p {
        assert t != s;
        assert LocalAt(pk, names[t], t);
        assert names[t] != n;
      }
    }
  }

  /// Storing a fresh symbol, homed in p, under a name p does not store.
  lemma AddFresh(pkgs: seq<Pkg>, names: seq<string>, homes: seq<Option<Pid>>, p: Pid, n: string)
    requires Inv(pkgs, names, homes) && p < |pkgs|
    requires n !in pkgs[p].internal && n !in pkgs[p].external
    ensures Inv(pkgs[p := pkgs[p].(internal := pkgs[p].internal[n := |names|])],
                names + [n], homes + [Some(p)])
  {
    var pk := pkgs[p];
    var pkgs' := pkgs[p := pk.(internal := pk.internal[n := |names|])];
    AddFreshTables(pkgs, names, p, n);
    ListsOkTables(pkgs, p, pkgs'[p]);
    AddFreshHomes(pkgs, names, homes, p, n);
    assert UseConsistent(pkgs') by {
      assert forall r | 0 <= r < |pkgs| ::
        pkgs'[r].useList == pkgs[r].useList && pkgs'[r].usedBy == pkgs[r].usedBy;
    }
  }

  /// The tables part of AddFresh.
  lemma AddFreshTables(pkgs: seq<Pkg>, names: seq<string>, p: Pid, n: string)
    requires p < |pkgs| && forall r | 0 <= r < |pkgs| :: TablesOk(pkgs[r], names)
    requires n !in pkgs[p].internal && n !in pkgs[p].external
    ensures var pkgs' := pkgs[p := pkgs[p].(internal := pkgs[p].internal[n := |names|])];
      forall r | 0 <= r < |pkgs'| :: TablesOk(pkgs'[r], names + [n])
  {
    var s := |names|;
    var names' := names + [n];
    var pk := pkgs[p];
    var pk' := pk.(internal := pk.internal[n := s]);
    var pkgs' := pkgs[p := pk'];
    assert TablesOk(pk, names);
    forall r | 0 <= r < |pkgs'| ensures TablesOk(pkgs'[r], names') {
      var a := pkgs'[r];
      if r == p {
        forall m | m in pk'.shadowing ensures LocalAt(pk', m, pk'.shadowing[m]) {
          assert LocalAt(pk, m, pk.shadowing[m]);
        }
      } else {
        assert TablesOk(pkgs[r], names);
      }
      assert KeyedByName(a.internal, names');
    }
  }

  /// The homes part of AddFresh: the new symbol is where its home says.
  lemma AddFreshHomes(pkgs: seq<Pkg>, names: seq<string>, homes: seq<Option<Pid>>, p: Pid, n: string)
    requires |homes| == |names| && HomesPresent(pkgs, names, homes) && p < |pkgs|
    requires n !in pkgs[p].internal && n !in pkgs[p].external
    ensures var pkgs' := pkgs[p := pkgs[p].(internal := pkgs[p].internal[n := |names|])];
      HomesPresent(pkgs', names + [n], homes + [Some(p)])
  {
    var names' := names + [n];
    var homes' := homes + [Some(p)];
    var pkgs' := pkgs[p := pkgs[p].(internal := pkgs[p].internal[n := |names|])];
    forall t | 0 <= t < |homes'| && homes'[t].Some?
      ensures homes'[t].value < |pkgs'| && LocalAt(pkgs'[homes'[t].value], names'[t], t)
    {
      if t < |homes| {
        assert LocalAt(pkgs[homes[t].value], names[t], t);
      }
    }
  }

  /// Creating a homeless (uninterned) symbol.
  lemma AddHomeless(pkgs: seq<Pkg>, names: seq<string>, homes: seq<Option<Pid>>, n: string)
    requires Inv(pkgs, names, homes)
    ensures Inv(pkgs, names + [n], homes + [None])
  {
    var names' := names + [n];
    forall r | 0 <= r < |pkgs| ensures TablesOk(pkgs[r], names') {
      assert TablesOk(pkgs[r], names);
    }
    var homes' := homes + [None];
    assert HomesPresent(pkgs, names', homes') by {
      forall t | 0 <= t < |homes'| && homes'[t].Some?
        ensures homes'[t].value < |pkgs| && LocalAt(pkgs[homes'[t].value], names'[t], t)
      {
        assert t < |homes|;
      }
    }
  }

  /// Giving a homeless symbol, stored in p under its name, the home p.
  lemma ClaimHome(pkgs: seq<Pkg>, names: seq<string>, homes: seq<Option<Pid>>, p: Pid, s: Sid)
    requires Inv(pkgs, names, homes) && p < |pkgs| && s < |homes| && homes[s] == None
    requires LocalAt(pkgs[p], names[s], s)
    ensures Inv(pkgs, names, homes[s := Some(p)])
  {
  }

  /// Creating a package with empty tables and lists.
  lemma AddPackage(pkgs: seq<Pkg>, names: seq<string>, homes: seq<Option<Pid>>)
    requires Inv(pkgs, names, homes)
    ensures Inv(pkgs + [EmptyPkg], names, homes)
  {
    var pkgs' := pkgs + [EmptyPkg];
    assert ListsOk(pkgs') by {
      forall r | 0 <= r < |pkgs'|
        ensures InRange(pkgs', pkgs'[r].useList) && InRange(pkgs', pkgs'[r].usedBy)
      {
        if r < |pkgs| { assert InRange(pkgs, pkgs[r].useList) && InRange(pkgs, pkgs[r].usedBy); }
      }
    }
    assert UseConsistent(pkgs') by {
      forall r, q | 0 <= r < |pkgs'| && 0 <= q < |pkgs'|
        ensures q in pkgs'[r].useList <==> r in pkgs'[q].usedBy
      {
        if r < |pkgs| && q == |pkgs| {
          assert InRange(pkgs, pkgs[r].useList);
          assert q !in pkgs[r].useList;
        }
      }
    }
    assert HomesPresent(pkgs', names, homes) by {
      forall t | 0 <= t < |homes| && homes[t].Some?
        ensures homes[t].value < |pkgs'| && LocalAt(pkgs'[homes[t].value], names[t], t)
      {
      }
    }
  }

  /* ---------------------------------------------------------- list edits */

  /// A package's table part of the invariant depends on its tables only.
  lemma TablesOkFrame(a: Pkg, b: Pkg, names: seq<string>)
    requires a.internal == b.internal && a.external == b.external && a.shadowing == b.shadowing
    requires TablesOk(a, names)
    ensures TablesOk(b, names)
  {
    forall m | m in b.shadowing ensures LocalAt(b, m, b.shadowing[m]) {
      assert LocalAt(a, m, a.shadowing[m]);
    }
  }

  /// Replacing the lists of the store while keeping every table keeps the
  /// tables part of the invariant and the homes.
  lemma SameTables(pkgs: seq<Pkg>, pkgs': seq<Pkg>, names: seq<string>, homes: seq<Option<Pid>>)
    requires Inv(pkgs, names, homes) && |pkgs'| == |pkgs|
    requires forall r | 0 <= r < |pkgs| ::
      pkgs'[r].internal == pkgs[r].internal && pkgs'[r].external == pkgs[r].external &&
      pkgs'[r].shadowing == pkgs[r].shadowing
    ensures forall r | 0 <= r < |pkgs'| :: TablesOk(pkgs'[r], names)
    ensures HomesPresent(pkgs', names, homes)
  {
    forall r | 0 <= r < |pkgs'| ensures TablesOk(pkgs'[r], names) {
      TablesOkFrame(pkgs[r], pkgs'[r], names);
    }
    forall t | 0 <= t < |homes| && homes[t].Some?
      ensures homes[t].value < |pkgs'| && LocalAt(pkgs'[homes[t].value], names[t], t)
    {
      assert LocalAt(pkgs[homes[t].value], names[t], t);
    }
  }

  /// The store after p starts using q: q pushed on the front of p's
  /// use-list, p appended to q's used-by list.
  function AfterUse(pkgs: seq<Pkg>, p: Pid, q: Pid): (r: seq<Pkg>)
    requires p < |pkgs| && q < |pkgs|
  {
    var a := pkgs[p := pkgs[p].(useList := [q] + pkgs[p].useList)];
    a[q := a[q].(usedBy := a[q].usedBy + [p])]
  }

  /// The store after p stops using q: q dropped from p's use-list, p removed
  /// from q's used-by list.
  function AfterUnuse(pkgs: seq<Pkg>, p: Pid, q: Pid): (r: seq<Pkg>)
    requires p < |pkgs| && q < |pkgs|
  {
    var a := pkgs[p := pkgs[p].(useList := Without(pkgs[p].useList, q))];
    a[q := a[q].(usedBy := RemoveFirst(a[q].usedBy, p))]
  }

  lemma AfterUseShape(pkgs: seq<Pkg>, p: Pid, q: Pid, r: Pid)
    requires p < |pkgs| && q < |pkgs| && r < |pkgs|
    ensures |AfterUse(pkgs, p, q)| == |pkgs|
    ensures AfterUse(pkgs, p, q)[r].useList == if r == p then [q] + pkgs[p].useList else pkgs[r].useList
    ensures AfterUse(pkgs, p, q)[r].usedBy == if r == q then pkgs[q].usedBy + [p] else pkgs[r].usedBy
    ensures AfterUse(pkgs, p, q)[r].internal == pkgs[r].internal
    ensures AfterUse(pkgs, p, q)[r].external == pkgs[r].external
    ensures AfterUse(pkgs, p, q)[r].shadowing == pkgs[r].shadowing
    ensures AfterUse(pkgs, p, q)[r].deleted == pkgs[r].deleted
  {
  }

  lemma AfterUnuseShape(pkgs: seq<Pkg>, p: Pid, q: Pid, r: Pid)
    requires p < |pkgs| && q < |pkgs| && r < |pkgs|
    ensures |AfterUnuse(pkgs, p, q)| == |pkgs|
    ensures AfterUnuse(pkgs, p, q)[r].useList == if r == p then Without(pkgs[p].useList, q) else pkgs[r].useList
    ensures AfterUnuse(pkgs, p, q)[r].usedBy == if r == q then RemoveFirst(pkgs[q].usedBy, p) else pkgs[r].usedBy
    ensures AfterUnuse(pkgs, p, q)[r].internal == pkgs[r].internal
    ensures AfterUnuse(pkgs, p, q)[r].external == pkgs[r].external
    ensures AfterUnuse(pkgs, p, q)[r].shadowing == pkgs[r].shadowing
    ensures AfterUnuse(pkgs, p, q)[r].deleted == pkgs[r].deleted
  {
  }

  lemma PushNoDup(x: nat, xs: seq<nat>)
    requires NoDup(xs) && x !in xs
    ensures NoDup([x] + xs)
  {
    var u := [x] + xs;
    forall i, j | 0 <= i < j < |u| ensures u[i] != u[j] {
      if i == 0 { assert u[j] in xs; }
      else { assert u[i] == xs[i - 1] && u[j] == xs[j - 1]; }
    }
  }

  lemma AppendNoDup(xs: seq<nat>, x: nat)
    requires NoDup(xs) && x !in xs
    ensures NoDup(xs + [x])
  {
    var v := xs + [x];
    forall i, j | 0 <= i < j < |v| ensures v[i] != v[j] {
      if j == |v| - 1 { assert v[i] in xs; }
    }
  }

  lemma UseAddLists(pkgs: seq<Pkg>, p: Pid, q: Pid)
    requires ListsOk(pkgs) && UseConsistent(pkgs) && p < |pkgs| && q < |pkgs|
    requires q !in pkgs[p].useList
    ensures ListsOk(AfterUse(pkgs, p, q))
  {
    var b := AfterUse(pkgs, p, q);
    assert p !in pkgs[q].usedBy;
    forall r | 0 <= r < |b|
      ensures InRange(b, b[r].useList) && InRange(b, b[r].usedBy) && NoDup(b[r].useList) && NoDup(b[r].usedBy)
    {
      AfterUseShape(pkgs, p, q, r);
      assert InRange(pkgs, pkgs[r].useList) && InRange(pkgs, pkgs[r].usedBy);
      assert NoDup(pkgs[r].useList) && NoDup(pkgs[r].usedBy);
      if r == p { PushNoDup(q, pkgs[p].useList); }
      if r == q { AppendNoDup(pkgs[q].usedBy, p); }
    }
  }

  lemma UseAddConsistent(pkgs: seq<Pkg>, p: Pid, q: Pid)
    requires UseConsistent(pkgs) && p < |pkgs| && q < |pkgs|
    ensures UseConsistent(AfterUse(pkgs, p, q))
  {
    var b := AfterUse(pkgs, p, q);
    forall r, x | 0 <= r < |b| && 0 <= x < |b|
      ensures x in b[r].useList <==> r in b[x].usedBy
    {
      AfterUseShape(pkgs, p, q, r);
      AfterUseShape(pkgs, p, q, x);
      assert x in pkgs[r].useList <==> r in pkgs[x].usedBy;
    }
  }

  /// USE-PACKAGE keeps the invariant, and adds exactly q to p's use-list.
  lemma UseAdd(pkgs: seq<Pkg>, names: seq<string>, homes: seq<Option<Pid>>, p: Pid, q: Pid)
    requires Inv(pkgs, names, homes) && p < |pkgs| && q < |pkgs|
    requires q !in pkgs[p].useList
    ensures Inv(AfterUse(pkgs, p, q), names, homes)
    ensures forall r, x | 0 <= r < |pkgs| ::
      x in AfterUse(pkgs, p, q)[r].useList <==> x in pkgs[r].useList || (r == p && x == q)
  {
    var b := AfterUse(pkgs, p, q);
    forall r | 0 <= r < |pkgs| ensures
      b[r].internal == pkgs[r].internal && b[r].external == pkgs[r].external && b[r].shadowing == pkgs[r].shadowing
    {
      AfterUseShape(pkgs, p, q, r);
    }
    AfterUseShape(pkgs, p, q, p);
    SameTables(pkgs, b, names, homes);
    UseAddLists(pkgs, p, q);
    UseAddConsistent(pkgs, p, q);
    forall r, x | 0 <= r < |pkgs| ensures x in b[r].useList <==> x in pkgs[r].useList || (r == p && x == q) {
      AfterUseShape(pkgs, p, q, r);
    }
  }

  lemma UseRemoveLists(pkgs: seq<Pkg>, p: Pid, q: Pid)
    requires ListsOk(pkgs) && p < |pkgs| && q < |pkgs|
    ensures ListsOk(AfterUnuse(pkgs, p, q))
  {
    var b := AfterUnuse(pkgs, p, q);
    forall r | 0 <= r < |b|
      ensures InRange(b, b[r].useList) && InRange(b, b[r].usedBy) && NoDup(b[r].useList) && NoDup(b[r].usedBy)
    {
      AfterUnuseShape(pkgs, p, q, r);
      assert InRange(pkgs, pkgs[r].useList) && InRange(pkgs, pkgs[r].usedBy);
      assert NoDup(pkgs[r].useList) && NoDup(pkgs[r].usedBy);
      WithoutNoDup(pkgs[r].useList, q);
      RemoveFirstNoDup(pkgs[r].usedBy, p);
      forall i | 0 <= i < |b[r].useList| ensures b[r].useList[i] < |b| {
        assert b[r].useList[i] in pkgs[r].useList;
      }
      forall i | 0 <= i < |b[r].usedBy| ensures b[r].usedBy[i] < |b| {
        assert b[r].usedBy[i] in pkgs[r].usedBy;
      }
    }
  }

  lemma UseRemoveConsistent(pkgs: seq<Pkg>, names: seq<string>, homes: seq<Option<Pid>>, p: Pid, q: Pid)
    requires Inv(pkgs, names, homes) && p < |pkgs| && q < |pkgs|
    ensures UseConsistent(AfterUnuse(pkgs, p, q))
  {
    var b := AfterUnuse(pkgs, p, q);
    assert NoDup(pkgs[q].usedBy);
    RemoveFirstNoDup(pkgs[q].usedBy, p);
    forall r, x | 0 <= r < |b| && 0 <= x < |b|
      ensures x in b[r].useList <==> r in b[x].usedBy
    {
      AfterUnuseShape(pkgs, p, q, r);
      AfterUnuseShape(pkgs, p, q, x);
      assert x in pkgs[r].useList <==> r in pkgs[x].usedBy;
    }
  }

  /// UNUSE-PACKAGE keeps the invariant, and removes exactly q from p's use-list.
  lemma UseRemove(pkgs: seq<Pkg>, names: seq<string>, homes: seq<Option<Pid>>, p: Pid, q: Pid)
    requires Inv(pkgs, names, homes) && p < |pkgs| && q < |pkgs|
    ensures Inv(AfterUnuse(pkgs, p, q), names, homes)
    ensures forall r, x | 0 <= r < |pkgs| ::
      x in AfterUnuse(pkgs, p, q)[r].useList <==> x in pkgs[r].useList && !(r == p && x == q)
  {
    var b := AfterUnuse(pkgs, p, q);
    forall r | 0 <= r < |pkgs| ensures
      b[r].internal == pkgs[r].internal && b[r].external == pkgs[r].external && b[r].shadowing == pkgs[r].shadowing
    {
      AfterUnuseShape(pkgs, p, q, r);
    }
    AfterUnuseShape(pkgs, p, q, p);
    SameTables(pkgs, b, names, homes);
    UseRemoveLists(pkgs, p, q);
    UseRemoveConsistent(pkgs, names, homes, p, q);
    forall r, x | 0 <= r < |pkgs| ensures x in b[r].useList <==> x in pkgs[r].useList && !(r == p && x == q) {
      AfterUnuseShape(pkgs, p, q, r);
    }
  }
}
