/// The mutable package system: every package's tables and lists, and every
/// symbol's name and home package, with one method per operation of
/// org.armedbear.lisp.Package.  A failed operation returns Fail/Err where
/// the Lisp code signals a PACKAGE-ERROR (which never returns normally).
module PackageWorld {
  import opened Tables
  import opened Lists
  import opened Invariant
  import opened Conflicts
  import opened Operations
  import opened ExportLaws
  import opened SymbolLaws
  import opened UseLaws

  /// b has the tables and the deleted flag of a.
  predicate SameTables(a: Pkg, b: Pkg) {
    a.internal == b.internal && a.external == b.external && a.shadowing == b.shadowing && a.deleted == b.deleted
  }

  /// Since o, only p's own use edges have gone: the tables, the flags and
  /// every other package's use-list are o's, and each used-by list is o's,
  /// or o's without p once p has left it.
  ghost predicate UnusingSince(o: seq<Pkg>, a: seq<Pkg>, p: Pid) {
    |a| == |o| &&
    forall r | 0 <= r < |a| ::
      && SameTables(o[r], a[r])
      && (r != p ==> a[r].useList == o[r].useList)
      && a[r].usedBy == if p in a[r].usedBy then o[r].usedBy else Without(o[r].usedBy, p)
  }

  /// Since o, only the use edges into p have gone: the tables, the flags and
  /// every other package's used-by list are o's, and each other use-list is
  /// o's, or o's without p once p has left it.
  ghost predicate DroppingSince(o: seq<Pkg>, a: seq<Pkg>, p: Pid) {
    |a| == |o| &&
    forall r | 0 <= r < |a| ::
      && SameTables(o[r], a[r])
      && (r != p ==> a[r].usedBy == o[r].usedBy)
      && (r != p ==> a[r].useList == if p in a[r].useList then o[r].useList else Without(o[r].useList, p))
  }

  /// unusePackage's new use-list: the old one copied element by element,
  /// skipping q.
  method Rebuilt(useList: seq<Pid>, q: Pid) returns (newList: seq<Pid>)
    ensures newList == Without(useList, q)
  {
    newList := [];
    var i := 0;
    while i < |useList|
      invariant 0 <= i <= |useList| && newList == Without(useList[..i], q)
    {
      assert useList[..i + 1][..i] == useList[..i];
      if useList[i] != q {
        newList := newList + [useList[i]];
      }
      i := i + 1;
    }
    assert useList[..|useList|] == useList;
  }

  class World {
    /// Package p's tables and lists are pkgs[p].
    var pkgs: seq<Pkg>
    /// Symbol s has the immutable name symName[s] and the home symHome[s].
    var symName: seq<string>
    var symHome: seq<Option<Pid>>

    ghost predicate Valid()
      reads this
    {
      Inv(pkgs, symName, symHome)
    }

    /// The whole store as a value.
    function State(): Store
      reads this
    {
      Store(pkgs, symName, symHome)
    }

    constructor ()
      ensures Valid() && pkgs == [] && symName == [] && symHome == []
    {
      pkgs, symName, symHome := [], [], [];
    }

    /// A new package: empty tables, empty lists, not deleted.
    method NewPackage() returns (p: Pid)
      requires Valid()
      modifies this
      ensures Valid()
      ensures p == old(|pkgs|) && pkgs == old(pkgs) + [EmptyPkg]
      ensures symName == old(symName) && symHome == old(symHome)
    {
      AddPackage(pkgs, symName, symHome);
      p := |pkgs|;
      pkgs := pkgs + [EmptyPkg];
    }

    /// A new symbol with no home package (an uninterned symbol).
    method NewSymbol(name: string) returns (s: Sid)
      requires Valid()
      modifies this
      ensures Valid()
      ensures s == old(|symName|) && symName == old(symName) + [name] && symHome == old(symHome) + [None]
      ensures pkgs == old(pkgs)
    {
      AddHomeless(pkgs, symName, symHome, name);
      s := |symName|;
      symName, symHome := symName + [name], symHome + [None];
    }

    /* -------------------------------------------------------------- lookups */

    method FindInternalSymbol(p: Pid, name: string) returns (r: Option<Sid>)
      requires Valid() && p < |pkgs|
      ensures r.Some? <==> name in pkgs[p].internal
      ensures r.Some? ==> r.value == pkgs[p].internal[name] && symName[r.value] == name
      ensures r.Some? ==> Find(pkgs, p, name) == Found(r.value, Internal)
    {
      assert TablesOk(pkgs[p], symName);
      r := if name in pkgs[p].internal then Some(pkgs[p].internal[name]) else None;
    }

    method FindExternalSymbol(p: Pid, name: string) returns (r: Option<Sid>)
      requires Valid() && p < |pkgs|
      ensures r.Some? <==> name in pkgs[p].external
      ensures r.Some? ==> r.value == pkgs[p].external[name] && symName[r.value] == name
      ensures r.Some? ==> Find(pkgs, p, name) == Found(r.value, External)
    {
      assert TablesOk(pkgs[p], symName);
      r := if name in pkgs[p].external then Some(pkgs[p].external[name]) else None;
    }

    /// findAccessibleSymbol: own tables, then the used packages' external
    /// tables in use-list order.
    method FindAccessibleSymbol(p: Pid, name: string) returns (r: Option<Sid>)
      requires ListsOk(pkgs) && p < |pkgs|
      ensures r == Accessible(pkgs, p, name)
    {
      var pk := pkgs[p];
      if name in pk.external {
        return Some(pk.external[name]);
      }
      if name in pk.internal {
        return Some(pk.internal[name]);
      }
      var uses := pk.useList;
      assert InRange(pkgs, uses);
      var i := 0;
      while i < |uses|
        invariant 0 <= i <= |uses| && InRange(pkgs, uses[i..])
        invariant InheritedFrom(pkgs, uses[i..], name) == InheritedFrom(pkgs, uses, name)
      {
        var q := uses[i];
        if name in pkgs[q].external {
          return Some(pkgs[q].external[name]);
        }
        assert uses[i..][1..] == uses[i + 1..];
        i := i + 1;
      }
      return None;
    }

    /// findSymbol: the same search, also reporting where the symbol was found.
    method FindSymbol(p: Pid, name: string) returns (r: Found)
      requires ListsOk(pkgs) && p < |pkgs|
      ensures r == Find(pkgs, p, name)
    {
      var pk := pkgs[p];
      if name in pk.external {
        return Found(pk.external[name], External);
      }
      if name in pk.internal {
        return Found(pk.internal[name], Internal);
      }
      var uses := pk.useList;
      assert InRange(pkgs, uses);
      var i := 0;
      while i < |uses|
        invariant 0 <= i <= |uses| && InRange(pkgs, uses[i..])
        invariant InheritedFrom(pkgs, uses[i..], name) == InheritedFrom(pkgs, uses, name)
      {
        var q := uses[i];
        if name in pkgs[q].external {
          return Found(pkgs[q].external[name], Inherited);
        }
        assert uses[i..][1..] == uses[i + 1..];
        i := i + 1;
      }
      return NotFound;
    }

    /// getLocalNames: the names under which s is accessible in p.
    function GetLocalNames(p: Pid, s: Sid): (r: seq<string>)
      reads this
      requires Valid() && p < |pkgs| && s < |symName|
      ensures |r| <= 1
      ensures forall n :: n in r <==> Accessible(pkgs, p, n) == Some(s)
    {
      forall n ensures n in LocalNames(pkgs, symName, p, s) <==> Accessible(pkgs, p, n) == Some(s) {
        LocalNamesExact(pkgs, symName, symHome, p, s, n);
      }
      LocalNames(pkgs, symName, p, s)
    }

    /// uses: q is on p's use-list, which under the invariant is the same as
    /// p being on q's used-by list.
    function Uses(p: Pid, q: Pid): (b: bool)
      reads this
      requires Valid() && p < |pkgs| && q < |pkgs|
      ensures b <==> p in pkgs[q].usedBy
    {
      q in pkgs[p].useList
    }

    /* ------------------------------------------------------------ interning */

    /// addSymbol: a fresh symbol named `name`, homed here, stored internally.
    method AddSymbol(p: Pid, name: string) returns (s: Sid)
      requires Valid() && p < |pkgs|
      requires name !in pkgs[p].internal && name !in pkgs[p].external
      modifies this
      ensures Valid()
      ensures s == old(|symName|) && symName == old(symName) + [name] && symHome == old(symHome) + [Some(p)]
      ensures pkgs == StoreInternal(old(pkgs), p, name, s)
    {
      AddFresh(pkgs, symName, symHome, p, name);
      s := |symName|;
      pkgs := pkgs[p := pkgs[p].(internal := pkgs[p].internal[name := s])];
      symName, symHome := symName + [name], symHome + [Some(p)];
    }

    /// intern: the accessible symbol if there is one, untouched; otherwise a
    /// fresh internal symbol (InternMeaning says what that means).
    method Intern(p: Pid, name: string) returns (s: Sid)
      requires Valid() && p < |pkgs|
      modifies this
      ensures Valid() && (s, State()) == InternStep(old(State()), p, name)
    {
      InternMeaning(State(), p, name);
      var found := FindAccessibleSymbol(p, name);
      if found.Some? {
        return found.value;
      }
      s := AddSymbol(p, name);
    }

    /// intern returning as second value the locality of an existing symbol,
    /// and none (NIL) for a freshly created one.
    method InternWithLocality(p: Pid, name: string) returns (s: Sid, loc: Option<Locality>)
      requires Valid() && p < |pkgs|
      modifies this
      ensures Valid() && (s, State()) == InternStep(old(State()), p, name)
      ensures loc == match Find(old(pkgs), p, name) case Found(_, l) => Some(l) case NotFound => None
    {
      InternMeaning(State(), p, name);
      var found := FindSymbol(p, name);
      if found.Found? {
        return found.sym, Some(found.locality);
      }
      s := AddSymbol(p, name);
      loc := None;
    }

    /// internAndExport: an external symbol as it is; another accessible
    /// symbol exported first; otherwise a fresh symbol stored straight in
    /// the external table.
    method InternAndExport(p: Pid, name: string) returns (r: Result<Sid>)
      requires Valid() && p < |pkgs|
      modifies this
      ensures Valid() && (r, State()) == InternAndExportStep(old(State()), p, name)
    {
      ghost var st := State();
      var ext := FindExternalSymbol(p, name);
      if ext.Some? {
        return Ok(ext.value);
      }
      AccessibleNamed(pkgs, symName, symHome, p, name);
      var found := FindAccessibleSymbol(p, name);
      if found.Some? {
        assert TablesOk(pkgs[p], symName);
        var e := Export(p, found.value);
        if e.Pass? {
          ExportPasses(st, p, found.value);
        } else {
          ExportFails(st, p, found.value);
        }
        return if e.Pass? then Ok(found.value) else Err(e.error);
      }
      InternFresh(st, p, name);
      var s := AddSymbol(p, name);
      FreshMove(st.pkgs, p, name, s);
      pkgs := pkgs[p := pkgs[p].(internal := pkgs[p].internal - {name}, external := pkgs[p].external[name := s])];
      return Ok(s);
    }

    /// internAndExport over the all-or-nothing export.
    method InternAndExportAtomic(p: Pid, name: string) returns (r: Result<Sid>)
      requires Valid() && p < |pkgs|
      modifies this
      ensures Valid() && (r, State()) == InternAndExportAtomicStep(old(State()), p, name)
    {
      ghost var st := State();
      var ext := FindExternalSymbol(p, name);
      if ext.Some? {
        return Ok(ext.value);
      }
      AccessibleNamed(pkgs, symName, symHome, p, name);
      var found := FindAccessibleSymbol(p, name);
      if found.Some? {
        var e := ExportAtomic(p, found.value);
        return if e.Pass? then Ok(found.value) else Err(e.error);
      }
      InternFresh(st, p, name);
      var s := AddSymbol(p, name);
      FreshMove(st.pkgs, p, name, s);
      pkgs := pkgs[p := pkgs[p].(internal := pkgs[p].internal - {name}, external := pkgs[p].external[name := s])];
      return Ok(s);
    }

    /* ---------------------------------------------------------------- export */

    /// The used-by scan of export: the first using package that has a
    /// different symbol under the name, not excused by the shadowing rule.
    method FindExportConflict(users: seq<Pid>, excuse: Excuse, name: string, s: Sid) returns (r: Option<(Pid, Sid)>)
      requires ListsOk(pkgs) && InRange(pkgs, users)
      ensures r == FirstExportConflict(pkgs, users, excuse, name, s)
    {
      var i := 0;
      while i < |users|
        invariant 0 <= i <= |users|
        invariant FirstExportConflict(pkgs, users[i..], excuse, name, s) == FirstExportConflict(pkgs, users, excuse, name, s)
      {
        var u := users[i];
        var a := FindAccessibleSymbol(u, name);
        var shadow := if excuse.ExporterShadows? then excuse.table else pkgs[u].shadowing;
        if a.Some? && a.value != s && !(name in shadow && shadow[name] == a.value) {
          return Some((u, a.value));
        }
        assert users[i..][1..] == users[i + 1..];
        i := i + 1;
      }
      return None;
    }

    /// export as written: a symbol homed elsewhere is staged in the internal
    /// table before the used-by scan, which consults the exporting package's
    /// own shadowing table; a conflict leaves the staged entry behind.
    method Export(p: Pid, s: Sid) returns (r: Outcome)
      requires Valid() && p < |pkgs| && s < |symName|
      modifies this
      ensures Step(r, State()) == ExportStep(old(State()), p, s)
      ensures r == Pass ==> Valid()
    {
      ghost var st := State();
      var n := symName[s];
      var a := FindAccessibleSymbol(p, n);
      if a != Some(s) {
        return Fail(NotAccessible);
      }
      var added := false;
      if symHome[s] != Some(p) {
        pkgs := pkgs[p := pkgs[p].(internal := pkgs[p].internal[n := s])];
        added := true;
      }
      if added || (n in pkgs[p].internal && pkgs[p].internal[n] == s) {
        ListsOkTables(st.pkgs, p, pkgs[p]);
        assert InRange(pkgs, pkgs[p].usedBy);
        var c := FindExportConflict(pkgs[p].usedBy, ExporterShadows(pkgs[p].shadowing), n, s);
        if c.Some? {
          return Fail(ExportConflict(c.value.0, c.value.1));
        }
        pkgs := pkgs[p := pkgs[p].(internal := pkgs[p].internal - {n}, external := pkgs[p].external[n := s])];
        ExportPasses(st, p, s);
        return Pass;
      }
      // Homed here and not internal: already external (see ExportStep).
      ExportPasses(st, p, s);
      r := Pass;
    }

    /// export made all-or-nothing, with each using package's own shadowing
    /// table excusing a conflict.
    method ExportAtomic(p: Pid, s: Sid) returns (r: Outcome)
      requires Valid() && p < |pkgs| && s < |symName|
      modifies this
      ensures Valid() && Step(r, State()) == ExportAtomicStep(old(State()), p, s)
    {
      ghost var st := State();
      var n := symName[s];
      var a := FindAccessibleSymbol(p, n);
      if a != Some(s) {
        return Fail(NotAccessible);
      }
      if n in pkgs[p].external {
        return Pass;
      }
      assert InRange(pkgs, pkgs[p].usedBy);
      var c := FindExportConflict(pkgs[p].usedBy, UserShadows, n, s);
      if c.Some? {
        return Fail(ExportConflict(c.value.0, c.value.1));
      }
      pkgs := pkgs[p := pkgs[p].(internal := pkgs[p].internal - {n}, external := pkgs[p].external[n := s])];
      ExportAtomicPasses(st, p, s);
      r := Pass;
    }

    /// unexport: an external symbol becomes internal.
    method Unexport(p: Pid, s: Sid) returns (r: Outcome)
      requires Valid() && p < |pkgs| && s < |symName|
      modifies this
      ensures Valid() && Step(r, State()) == UnexportStep(old(State()), p, s)
    {
      UnexportMeaning(State(), p, s);
      var n := symName[s];
      if n in pkgs[p].external && pkgs[p].external[n] == s {
        pkgs := pkgs[p := pkgs[p].(external := pkgs[p].external - {n}, internal := pkgs[p].internal[n := s])];
        return Pass;
      }
      var a := FindAccessibleSymbol(p, n);
      r := if a != Some(s) then Fail(NotAccessible) else Pass;
    }

    /* ---------------------------------------------------------------- import */

    /// importSymbol as written: the symbol goes into the internal table even
    /// when it is already external here.
    method ImportSymbol(p: Pid, s: Sid) returns (r: Outcome)
      requires Valid() && p < |pkgs| && s < |symName|
      modifies this
      ensures Step(r, State()) == ImportStep(old(State()), p, s)
      ensures symName[s] !in old(pkgs[p].external) ==> Valid()
    {
      ghost var st := State();
      var n := symName[s];
      var a := FindAccessibleSymbol(p, n);
      if a.Some? && a.value != s {
        return Fail(NameConflict);
      }
      pkgs := pkgs[p := pkgs[p].(internal := pkgs[p].internal[n := s])];
      if symHome[s].None? {
        symHome := symHome[s := Some(p)];
      }
      if n !in st.pkgs[p].external {
        ImportAgreement(st, p, s);
        ImportCheckedMeaning(st, p, s);
      }
      r := Pass;
    }

    /// importSymbol leaving a symbol that is already external where it is.
    method ImportSymbolChecked(p: Pid, s: Sid) returns (r: Outcome)
      requires Valid() && p < |pkgs| && s < |symName|
      modifies this
      ensures Valid() && Step(r, State()) == ImportCheckedStep(old(State()), p, s)
    {
      ImportCheckedMeaning(State(), p, s);
      var n := symName[s];
      var a := FindAccessibleSymbol(p, n);
      if a.Some? && a.value != s {
        return Fail(NameConflict);
      }
      if n !in pkgs[p].external {
        pkgs := pkgs[p := pkgs[p].(internal := pkgs[p].internal[n := s])];
      }
      if symHome[s].None? {
        symHome := symHome[s := Some(p)];
      }
      r := Pass;
    }

    /* ---------------------------------------------------------------- shadow */

    /// shadow: make the symbol stored under the name shadowing, creating a
    /// fresh internal one when there is none.  (The early return for a name
    /// already shadowing but stored in neither table cannot be reached.)
    method Shadow(p: Pid, n: string)
      requires Valid() && p < |pkgs|
      modifies this
      ensures Valid() && State() == ShadowStep(old(State()), p, n)
    {
      ShadowMeaning(State(), p, n);
      var pk := pkgs[p];
      if n in pk.external {
        pkgs := pkgs[p := pk.(shadowing := pk.shadowing[n := pk.external[n]])];
        return;
      }
      if n in pk.internal {
        pkgs := pkgs[p := pk.(shadowing := pk.shadowing[n := pk.internal[n]])];
        return;
      }
      var s := AddSymbol(p, n);
      pkgs := pkgs[p := pkgs[p].(shadowing := pkgs[p].shadowing[n := s])];
    }

    /* -------------------------------------------------------------- unintern */

    /// The scan of canUnintern over the used packages: remember the first
    /// external symbol under the name and stop at one that differs.
    method FindAmbiguity(uses: seq<Pid>, n: string) returns (b: bool)
      requires InRange(pkgs, uses)
      ensures b == Ambiguous(pkgs, uses, n)
    {
      var sym: Option<Sid> := None;
      ghost var k := 0;
      var i := 0;
      while i < |uses|
        invariant 0 <= i <= |uses|
        invariant sym.None? ==> forall j | 0 <= j < i :: n !in pkgs[uses[j]].external
        invariant sym.Some? ==> 0 <= k < i && n in pkgs[uses[k]].external && pkgs[uses[k]].external[n] == sym.value
        invariant sym.Some? ==> forall j | 0 <= j < i && n in pkgs[uses[j]].external :: pkgs[uses[j]].external[n] == sym.value
      {
        var q := uses[i];
        if n in pkgs[q].external {
          if sym.None? {
            sym, k := Some(pkgs[q].external[n]), i;
          } else if sym.value != pkgs[q].external[n] {
            return true;
          }
        }
        i := i + 1;
      }
      return false;
    }

    /// canUnintern: refuses a shadowing symbol whose removal would expose two
    /// different inherited symbols (the scan keeps the first external symbol
    /// found and stops at one that differs); otherwise says whether s is
    /// stored here under its name.
    method CanUnintern(p: Pid, s: Sid) returns (r: Result<bool>)
      requires Valid() && p < |pkgs| && s < |symName|
      ensures r == Operations.CanUnintern(State(), p, s)
    {
      var n := symName[s];
      var localNames := GetLocalNames(p, s);
      if n !in localNames {
        return Ok(false);
      }
      var pk := pkgs[p];
      if n in pk.shadowing && pk.shadowing[n] == s {
        assert InRange(pkgs, pk.useList);
        var ambiguous := FindAmbiguity(pk.useList, n);
        if ambiguous {
          return Err(UninternConflict);
        }
      }
      r := Ok(LocalAt(pk, n, s));
    }

    /// unintern: when canUnintern says true, remove the name from all three
    /// tables and clear the home of s if it is this package.
    method Unintern(p: Pid, s: Sid) returns (r: Result<bool>)
      requires Valid() && p < |pkgs| && s < |symName|
      modifies this
      ensures Valid() && r == Operations.CanUnintern(old(State()), p, s)
      ensures State() == UninternStore(old(State()), p, s)
    {
      UninternMeaning(State(), p, s);
      r := CanUnintern(p, s);
      if r == Ok(true) {
        var n := symName[s];
        var pk := pkgs[p];
        pkgs := pkgs[p := pk.(internal := pk.internal - {n}, external := pk.external - {n}, shadowing := pk.shadowing - {n})];
        if symHome[s] == Some(p) {
          symHome := symHome[s := None];
        }
      }
    }

    /// The first half of shadowingImport: the other symbol t present under
    /// the name is taken out of the shadowing table, then uninterned.
    method DropPresent(p: Pid, n: string, t: Sid)
      requires Valid() && p < |pkgs| && t < |symName| && symName[t] == n
      requires Present(pkgs[p], n) == Some(t)
      modifies this
      ensures Valid() && symName == old(symName)
      ensures pkgs == Unstore(Unshadowing(old(pkgs), p, n), p, n) && symHome == Release(old(symHome), p, t)
    {
      DropShadow(pkgs, symName, symHome, p, n);
      pkgs := pkgs[p := pkgs[p].(shadowing := pkgs[p].shadowing - {n})];
      assert Operations.CanUnintern(State(), p, t) == Ok(true) by {
        assert LocalAt(pkgs[p], n, t);
      }
      var _ := Unintern(p, t);
    }

    /// shadowingImport: a different symbol stored under the name is
    /// unshadowed and uninterned, s is stored internally unless it is already
    /// there, and s becomes the shadowing symbol.
    method ShadowingImport(p: Pid, s: Sid)
      requires Valid() && p < |pkgs| && s < |symName|
      modifies this
      ensures Valid() && State() == ShadowingImportStep(old(State()), p, s)
    {
      ghost var st := State();
      var n := symName[s];
      var sym := FindExternalSymbol(p, n);
      if sym.None? {
        sym := FindInternalSymbol(p, n);
      }
      assert sym == Present(pkgs[p], n);
      if sym.Some? && sym.value != s {
        DropPresent(p, n, sym.value);
      }
      ghost var cleared := State();
      if sym != Some(s) {
        pkgs := StoreInternal(pkgs, p, n, s);
      }
      assert State() == if sym != Some(s) then cleared.(pkgs := StoreInternal(cleared.pkgs, p, n, s)) else cleared;
      pkgs := Shadowing(pkgs, p, n, s);
      ShadowingImportGood(st, p, s);
    }

    /* ------------------------------------------------------------- use lists */

    /// The conflict scan of usePackage over the external symbols of q.
    method FindUseConflict(p: Pid, q: Pid) returns (b: bool)
      requires Valid() && p < |pkgs| && q < |pkgs|
      ensures b == UseConflict(pkgs, p, q)
    {
      assert InRange(pkgs, pkgs[p].useList);
      var ext := pkgs[q].external;
      var keys := ext.Keys;
      while keys != {}
        invariant keys <= ext.Keys
        invariant forall n | n in ext && n !in keys :: !Clash(pkgs, p, n, ext[n])
        decreases |keys|
      {
        var n :| n in keys;
        var existing := FindAccessibleSymbol(p, n);
        if existing.Some? && existing.value != ext[n] && n !in pkgs[p].shadowing {
          return true;
        }
        keys := keys - {n};
      }
      return false;
    }

    /// usePackage: nothing when q is already used, an error on a name
    /// conflict, otherwise q pushed on p's use-list and p added to q's
    /// used-by list.
    method UsePackage(p: Pid, q: Pid) returns (r: Outcome)
      requires Valid() && p < |pkgs| && q < |pkgs|
      modifies this
      ensures Valid() && Step(r, State()) == UseStep(old(State()), p, q)
    {
      UseMeaning(State(), p, q);
      if q in pkgs[p].useList {
        return Pass;
      }
      var conflict := FindUseConflict(p, q);
      if conflict {
        return Fail(NameConflict);
      }
      pkgs := pkgs[p := pkgs[p].(useList := [q] + pkgs[p].useList)];
      pkgs := pkgs[q := pkgs[q].(usedBy := pkgs[q].usedBy + [p])];
      r := Pass;
    }

    /// unusePackage: p's use-list rebuilt without q, and p removed from q's
    /// used-by list.
    method UnusePackage(p: Pid, q: Pid)
      requires Valid() && p < |pkgs| && q < |pkgs|
      modifies this
      ensures Valid() && State() == UnuseStore(old(State()), p, q)
    {
      UnuseMeaning(State(), p, q);
      var useList := pkgs[p].useList;
      if q in useList {
        var newList := Rebuilt(useList, q);
        pkgs := pkgs[p := pkgs[p].(useList := newList)];
        pkgs := pkgs[q := pkgs[q].(usedBy := RemoveFirst(pkgs[q].usedBy, p))];
      }
    }

    /* ---------------------------------------------------------------- delete */

    /// One unuse of a package p does use, seen list by list.
    method UnuseUsed(p: Pid, q: Pid)
      requires Valid() && p < |pkgs| && q < |pkgs| && q in pkgs[p].useList
      modifies this
      ensures Valid() && |pkgs| == old(|pkgs|) && symName == old(symName) && symHome == old(symHome)
      ensures forall r | 0 <= r < |pkgs| ::
        && pkgs[r].useList == (if r == p then Without(old(pkgs[p].useList), q) else old(pkgs[r].useList))
        && pkgs[r].usedBy == (if r == q then Without(old(pkgs[q].usedBy), p) else old(pkgs[r].usedBy))
        && pkgs[r].internal == old(pkgs[r].internal) && pkgs[r].external == old(pkgs[r].external)
        && pkgs[r].shadowing == old(pkgs[r].shadowing) && pkgs[r].deleted == old(pkgs[r].deleted)
    {
      UnuseMeaning(State(), p, q);
      UnuseLists(State(), p, q);
      UnusePackage(p, q);
    }

    /// One turn of delete's first loop: p unuses the head q of its use-list.
    method UnuseHead(p: Pid, q: Pid, ghost o: seq<Pkg>)
      requires Valid() && p < |pkgs| && pkgs[p].useList != [] && q == pkgs[p].useList[0]
      requires UnusingSince(o, pkgs, p)
      modifies this
      ensures Valid() && |pkgs| == old(|pkgs|) && symName == old(symName) && symHome == old(symHome)
      ensures pkgs[p].useList == old(pkgs[p].useList[1..]) && UnusingSince(o, pkgs, p)
    {
      assert InRange(pkgs, pkgs[p].useList) && NoDup(pkgs[p].useList);
      WithoutHead(pkgs[p].useList);
      assert p in pkgs[q].usedBy;
      ghost var before := pkgs;
      UnuseUsed(p, q);
      forall r | 0 <= r < |pkgs|
        ensures pkgs[r].usedBy == if p in pkgs[r].usedBy then o[r].usedBy else Without(o[r].usedBy, p)
      {
        if r == q {
          assert before[q].usedBy == o[q].usedBy;
          assert p !in pkgs[q].usedBy;
        }
      }
    }

    /// The first loop of delete: unuse every package on p's use-list, in
    /// order, walking a snapshot of the list.
    method UnuseAll(p: Pid)
      requires Valid() && p < |pkgs|
      modifies this
      ensures Valid() && |pkgs| == old(|pkgs|) && symName == old(symName) && symHome == old(symHome)
      ensures pkgs[p].useList == []
      ensures forall r | 0 <= r < |pkgs| && r != p :: pkgs[r].useList == old(pkgs[r].useList)
      ensures forall r | 0 <= r < |pkgs| :: pkgs[r].usedBy == Without(old(pkgs[r].usedBy), p)
      ensures forall r | 0 <= r < |pkgs| ::
        pkgs[r].internal == old(pkgs[r].internal) && pkgs[r].external == old(pkgs[r].external) &&
        pkgs[r].shadowing == old(pkgs[r].shadowing) && pkgs[r].deleted == old(pkgs[r].deleted)
    {
      var used := pkgs[p].useList;
      ghost var o := pkgs;
      forall r | 0 <= r < |pkgs| && p !in pkgs[r].usedBy ensures Without(pkgs[r].usedBy, p) == pkgs[r].usedBy {
        WithoutAbsent(pkgs[r].usedBy, p);
      }
      var i := 0;
      while i < |used|
        invariant 0 <= i <= |used|
        invariant Valid() && |pkgs| == |o| && symName == old(symName) && symHome == old(symHome)
        invariant pkgs[p].useList == used[i..] && UnusingSince(o, pkgs, p)
      {
        assert used[i..][1..] == used[i + 1..];
        UnuseHead(p, used[i], o);
        i := i + 1;
      }
      assert UseConsistent(pkgs);
      forall r | 0 <= r < |pkgs| ensures pkgs[r].usedBy == Without(o[r].usedBy, p) {
        assert p !in pkgs[r].usedBy;
      }
    }

    /// One turn of delete's second loop: the first user u of p unuses p.
    method DropUser(p: Pid, u: Pid, ghost o: seq<Pkg>)
      requires Valid() && p < |pkgs| && pkgs[p].useList == [] && pkgs[p].usedBy != [] && u == pkgs[p].usedBy[0]
      requires DroppingSince(o, pkgs, p)
      modifies this
      ensures Valid() && |pkgs| == old(|pkgs|) && symName == old(symName) && symHome == old(symHome)
      ensures pkgs[p].useList == [] && |pkgs[p].usedBy| < old(|pkgs[p].usedBy|) && DroppingSince(o, pkgs, p)
    {
      assert InRange(pkgs, pkgs[p].usedBy);
      assert p in pkgs[u].useList;
      ghost var before := pkgs;
      UnuseUsed(u, p);
      forall r | 0 <= r < |pkgs| && r != p
        ensures pkgs[r].useList == if p in pkgs[r].useList then o[r].useList else Without(o[r].useList, p)
      {
        if r == u {
          assert before[u].useList == o[u].useList;
          assert p !in pkgs[u].useList;
        }
      }
    }

    /// The second loop of delete: while some package uses p, that package
    /// unuses p.
    method DropUsers(p: Pid)
      requires Valid() && p < |pkgs| && pkgs[p].useList == []
      modifies this
      ensures Valid() && |pkgs| == old(|pkgs|) && symName == old(symName) && symHome == old(symHome)
      ensures pkgs[p].usedBy == [] && pkgs[p].useList == []
      ensures forall r | 0 <= r < |pkgs| && r != p ::
        pkgs[r].useList == Without(old(pkgs[r].useList), p) && pkgs[r].usedBy == old(pkgs[r].usedBy)
      ensures forall r | 0 <= r < |pkgs| ::
        pkgs[r].internal == old(pkgs[r].internal) && pkgs[r].external == old(pkgs[r].external) &&
        pkgs[r].shadowing == old(pkgs[r].shadowing) && pkgs[r].deleted == old(pkgs[r].deleted)
    {
      ghost var o := pkgs;
      forall r | 0 <= r < |pkgs| && p !in pkgs[r].useList ensures Without(pkgs[r].useList, p) == pkgs[r].useList {
        WithoutAbsent(pkgs[r].useList, p);
      }
      while pkgs[p].usedBy != []
        invariant Valid() && |pkgs| == |o| && symName == old(symName) && symHome == old(symHome)
        invariant pkgs[p].useList == [] && DroppingSince(o, pkgs, p)
        decreases |pkgs[p].usedBy|
      {
        DropUser(p, pkgs[p].usedBy[0], o);
      }
      assert UseConsistent(pkgs);
      forall r | 0 <= r < |pkgs| && r != p ensures pkgs[r].useList == Without(o[r].useList, p) {
        assert p !in pkgs[r].useList;
      }
    }

    /// delete (its use-list part): p stops using every package it uses, every
    /// package using p stops using it, and p is flagged as deleted; false
    /// when p was already deleted.
    method Delete(p: Pid) returns (b: bool)
      requires Valid() && p < |pkgs|
      modifies this
      ensures Valid() && |pkgs| == old(|pkgs|) && symName == old(symName) && symHome == old(symHome)
      ensures b == !old(pkgs[p].deleted)
      ensures !b ==> pkgs == old(pkgs)
      ensures b ==> pkgs[p].deleted && pkgs[p].useList == [] && pkgs[p].usedBy == []
      ensures b ==> forall r | 0 <= r < |pkgs| :: p !in pkgs[r].useList && p !in pkgs[r].usedBy
      ensures b ==> forall r | 0 <= r < |pkgs| && r != p ::
        pkgs[r].useList == Without(old(pkgs[r].useList), p) && pkgs[r].usedBy == Without(old(pkgs[r].usedBy), p)
      ensures forall r | 0 <= r < |pkgs| ::
        pkgs[r].internal == old(pkgs[r].internal) && pkgs[r].external == old(pkgs[r].external) &&
        pkgs[r].shadowing == old(pkgs[r].shadowing) && (r != p ==> pkgs[r].deleted == old(pkgs[r].deleted))
    {
      if pkgs[p].deleted {
        return false;
      }
      UnuseAll(p);
      DropUsers(p);
      ReplaceRetaining(pkgs, symName, symHome, p, pkgs[p].(deleted := true));
      pkgs := pkgs[p := pkgs[p].(deleted := true)];
      assert UseConsistent(pkgs);
      b := true;
    }
  }
}
