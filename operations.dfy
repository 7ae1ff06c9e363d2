/// Each state-changing operation of the package system as a function from
/// the store before to its outcome and the store after.  The methods of
/// PackageWorld.World are proved to compute these; the lemmas of modules
/// ExportLaws, SymbolLaws and UseLaws say what they mean.
module Operations {
  import opened Tables
  import opened Lists
  import opened Invariant
  import opened Conflicts

  /// The whole store: every package, every symbol's name and home.
  datatype Store = Store(pkgs: seq<Pkg>, names: seq<string>, homes: seq<Option<Pid>>)

  datatype Step = Step(outcome: Outcome, store: Store)

  predicate Good(st: Store) {
    Inv(st.pkgs, st.names, st.homes)
  }

  /// The operations below take a package and a symbol of the store.
  predicate Args(st: Store, p: Pid, s: Sid) {
    Good(st) && p < |st.pkgs| && s < |st.names|
  }

  /* ---------------------------------------------------------- table edits */

  function StoreInternal(pkgs: seq<Pkg>, p: Pid, n: string, s: Sid): (r: seq<Pkg>)
    requires p < |pkgs|
  {
    pkgs[p := pkgs[p].(internal := pkgs[p].internal[n := s])]
  }

  function MoveExternal(pkgs: seq<Pkg>, p: Pid, n: string, s: Sid): (r: seq<Pkg>)
    requires p < |pkgs|
  {
    pkgs[p := pkgs[p].(internal := pkgs[p].internal - {n}, external := pkgs[p].external[n := s])]
  }

  function MoveInternal(pkgs: seq<Pkg>, p: Pid, n: string): (r: seq<Pkg>)
    requires p < |pkgs| && n in pkgs[p].external
  {
    pkgs[p := pkgs[p].(external := pkgs[p].external - {n}, internal := pkgs[p].internal[n := pkgs[p].external[n]])]
  }

  function Unstore(pkgs: seq<Pkg>, p: Pid, n: string): (r: seq<Pkg>)
    requires p < |pkgs|
  {
    var pk := pkgs[p];
    pkgs[p := pk.(internal := pk.internal - {n}, external := pk.external - {n}, shadowing := pk.shadowing - {n})]
  }

  function Shadowing(pkgs: seq<Pkg>, p: Pid, n: string, s: Sid): (r: seq<Pkg>)
    requires p < |pkgs|
  {
    pkgs[p := pkgs[p].(shadowing := pkgs[p].shadowing[n := s])]
  }

  function Unshadowing(pkgs: seq<Pkg>, p: Pid, n: string): (r: seq<Pkg>)
    requires p < |pkgs|
  {
    pkgs[p := pkgs[p].(shadowing := pkgs[p].shadowing - {n})]
  }

  /// The homes after p gives up s: cleared when p was its home.
  function Release(homes: seq<Option<Pid>>, p: Pid, s: Sid): (r: seq<Option<Pid>>)
    requires s < |homes|
  {
    if homes[s] == Some(p) then homes[s := None] else homes
  }

  /// The homes after p takes s in: p becomes the home of a homeless s.
  function Adopt(homes: seq<Option<Pid>>, p: Pid, s: Sid): (r: seq<Option<Pid>>)
    requires s < |homes|
  {
    if homes[s].None? then homes[s := Some(p)] else homes
  }

  /* --------------------------------------------------------------- intern */

  /// INTERN: the symbol accessible under the name if there is one, the
  /// store unchanged; otherwise a fresh internal symbol homed here.
  function InternStep(st: Store, p: Pid, name: string): (r: (Sid, Store))
    requires Good(st) && p < |st.pkgs|
  {
    match Accessible(st.pkgs, p, name)
    case Some(t) => (t, st)
    case None =>
      var s := |st.names|;
      (s, Store(StoreInternal(st.pkgs, p, name, s), st.names + [name], st.homes + [Some(p)]))
  }

  /* --------------------------------------------------------------- export */

  /// EXPORT as written: a symbol homed elsewhere is first stored in the
  /// internal table, then the used-by packages are checked, and only on
  /// success the name moves to the external table.  A failed check leaves
  /// the staged internal entry behind.  (The second accessibility lookup
  /// of the source always sees s again and is not modelled; its final
  /// not-accessible error cannot be reached under the invariant, because a
  /// symbol homed in p and accessible there is stored in p.)
  function ExportStep(st: Store, p: Pid, s: Sid): (r: Step)
    requires Args(st, p, s)
  {
    var n := st.names[s];
    var pk := st.pkgs[p];
    if Accessible(st.pkgs, p, n) != Some(s) then Step(Fail(NotAccessible), st)
    else
      var added := st.homes[s] != Some(p);
      var staged := if added then StoreInternal(st.pkgs, p, n, s) else st.pkgs;
      if added || (n in pk.internal && pk.internal[n] == s) then
        match FirstExportConflict(staged, pk.usedBy, ExporterShadows(pk.shadowing), n, s)
        case Some((u, t)) => Step(Fail(ExportConflict(u, t)), st.(pkgs := staged))
        case None => Step(Pass, st.(pkgs := MoveExternal(staged, p, n, s)))
      else Step(Pass, st)
  }

  /// EXPORT made all-or-nothing, with the using package's own shadowing
  /// table excusing a conflict: an already external symbol is left alone,
  /// a conflict leaves the store as it was.
  function ExportAtomicStep(st: Store, p: Pid, s: Sid): (r: Step)
    requires Args(st, p, s)
  {
    var n := st.names[s];
    var pk := st.pkgs[p];
    if Accessible(st.pkgs, p, n) != Some(s) then Step(Fail(NotAccessible), st)
    else if n in pk.external then Step(Pass, st)
    else match FirstExportConflict(st.pkgs, pk.usedBy, UserShadows, n, s)
      case Some((u, t)) => Step(Fail(ExportConflict(u, t)), st)
      case None => Step(Pass, st.(pkgs := MoveExternal(st.pkgs, p, n, s)))
  }

  /// UNEXPORT: an external symbol becomes internal; an accessible one is
  /// left alone; anything else is an error.
  function UnexportStep(st: Store, p: Pid, s: Sid): (r: Step)
    requires Args(st, p, s)
  {
    var n := st.names[s];
    var pk := st.pkgs[p];
    if n in pk.external && pk.external[n] == s then Step(Pass, st.(pkgs := MoveInternal(st.pkgs, p, n)))
    else if Accessible(st.pkgs, p, n) != Some(s) then Step(Fail(NotAccessible), st)
    else Step(Pass, st)
  }

  /* --------------------------------------------------------------- import */

  /// IMPORT as written: unless another symbol is accessible under the name,
  /// s is put in the internal table, even when it is already external.
  function ImportStep(st: Store, p: Pid, s: Sid): (r: Step)
    requires Args(st, p, s)
  {
    var n := st.names[s];
    var a := Accessible(st.pkgs, p, n);
    if a.Some? && a.value != s then Step(Fail(NameConflict), st)
    else Step(Pass, st.(pkgs := StoreInternal(st.pkgs, p, n, s), homes := Adopt(st.homes, p, s)))
  }

  /// IMPORT that leaves an already external symbol where it is.
  function ImportCheckedStep(st: Store, p: Pid, s: Sid): (r: Step)
    requires Args(st, p, s)
  {
    var n := st.names[s];
    var a := Accessible(st.pkgs, p, n);
    if a.Some? && a.value != s then Step(Fail(NameConflict), st)
    else if n in st.pkgs[p].external then Step(Pass, st.(homes := Adopt(st.homes, p, s)))
    else Step(Pass, st.(pkgs := StoreInternal(st.pkgs, p, n, s), homes := Adopt(st.homes, p, s)))
  }

  /* --------------------------------------------------------------- shadow */

  /// SHADOW: a symbol stored under the name becomes shadowing; otherwise a
  /// fresh internal symbol, homed here, is created and made shadowing.  (The
  /// source's early return for a name already in the shadowing table but in
  /// neither table cannot be reached: shadowing symbols are stored locally.)
  function ShadowStep(st: Store, p: Pid, n: string): (r: Store)
    requires Good(st) && p < |st.pkgs|
  {
    var pk := st.pkgs[p];
    if n in pk.external then st.(pkgs := Shadowing(st.pkgs, p, n, pk.external[n]))
    else if n in pk.internal then st.(pkgs := Shadowing(st.pkgs, p, n, pk.internal[n]))
    else
      var s := |st.names|;
      Store(Shadowing(StoreInternal(st.pkgs, p, n, s), p, n, s), st.names + [n], st.homes + [Some(p)])
  }

  /* ------------------------------------------------------------- unintern */

  /// The local symbol stored under n in p, external table first.
  function Present(pk: Pkg, n: string): (r: Option<Sid>) {
    if n in pk.external then Some(pk.external[n])
    else if n in pk.internal then Some(pk.internal[n])
    else None
  }

  /// CAN-UNINTERN over the local names of s: an error when s shadows its
  /// name and two used packages export different symbols under it, true
  /// when s is stored under its name here, false otherwise.
  function CanUnintern(st: Store, p: Pid, s: Sid): (r: Result<bool>)
    requires Args(st, p, s)
  {
    var n := st.names[s];
    var pk := st.pkgs[p];
    if Accessible(st.pkgs, p, n) != Some(s) then Ok(false)
    else if n in pk.shadowing && pk.shadowing[n] == s && Ambiguous(st.pkgs, pk.useList, n) then Err(UninternConflict)
    else Ok(LocalAt(pk, n, s))
  }

  /// UNINTERN: when CanUnintern says true, the name leaves all three tables
  /// and s loses p as its home.
  function UninternStore(st: Store, p: Pid, s: Sid): (r: Store)
    requires Args(st, p, s)
  {
    if CanUnintern(st, p, s) == Ok(true) then
      st.(pkgs := Unstore(st.pkgs, p, st.names[s]), homes := Release(st.homes, p, s))
    else st
  }

  /// checkExistingSymbol: s itself when the table holds s under the name,
  /// a package error when it holds another symbol there, nothing when the
  /// name is free.
  function CheckExisting(table: map<string, Sid>, s: Sid, name: string): (r: Result<Option<Sid>>)
    ensures r == Ok(Some(s)) <==> name in table && table[name] == s
    ensures r == Ok(None) <==> name !in table
    ensures r.Err? <==> name in table && table[name] != s
    ensures r.Err? ==> r.error == NameConflict
  {
    if name in table then
      if table[name] == s then Ok(Some(s)) else Err(NameConflict)
    else Ok(None)
  }

  /* ---------------------------------------------------- shadowing import */

  /// SHADOWING-IMPORT: a different symbol stored under the name is
  /// unshadowed and uninterned, s is stored internally unless it is
  /// already there, and s becomes the shadowing symbol.
  function ShadowingImportStep(st: Store, p: Pid, s: Sid): (r: Store)
    requires Args(st, p, s)
  {
    var n := st.names[s];
    var sym := Present(st.pkgs[p], n);
    var cleared :=
      if sym.Some? && sym.value != s then
        var u := st.(pkgs := Unshadowing(st.pkgs, p, n));
        u.(pkgs := Unstore(u.pkgs, p, n), homes := Release(u.homes, p, sym.value))
      else st;
    var stored := if sym != Some(s) then cleared.(pkgs := StoreInternal(cleared.pkgs, p, n, s)) else cleared;
    stored.(pkgs := Shadowing(stored.pkgs, p, n, s))
  }

  /* ----------------------------------------------------------- use lists */

  /// USE-PACKAGE: nothing when q is already used; an error on a name
  /// conflict; otherwise the use-list and used-by list gain the edge.
  function UseStep(st: Store, p: Pid, q: Pid): (r: Step)
    requires Good(st) && p < |st.pkgs| && q < |st.pkgs|
  {
    assert InRange(st.pkgs, st.pkgs[p].useList);
    if q in st.pkgs[p].useList then Step(Pass, st)
    else if UseConflict(st.pkgs, p, q) then Step(Fail(NameConflict), st)
    else Step(Pass, st.(pkgs := AfterUse(st.pkgs, p, q)))
  }

  /// UNUSE-PACKAGE: the edge is removed when it is there.
  function UnuseStore(st: Store, p: Pid, q: Pid): (r: Store)
    requires p < |st.pkgs| && q < |st.pkgs|
  {
    if q in st.pkgs[p].useList then st.(pkgs := AfterUnuse(st.pkgs, p, q)) else st
  }

  /* ----------------------------------------------------- intern-and-export */

  /// INTERN-AND-EXPORT: an external symbol is returned as it is; another
  /// accessible symbol is exported first, by the as-written export, whose
  /// refusal is the result; a fresh symbol homed here goes straight into
  /// the external table.
  function InternAndExportStep(st: Store, p: Pid, name: string): (r: (Result<Sid>, Store))
    requires Good(st) && p < |st.pkgs|
  {
    var pk := st.pkgs[p];
    if name in pk.external then (Ok(pk.external[name]), st)
    else match Accessible(st.pkgs, p, name)
      case Some(t) =>
        AccessibleNamed(st.pkgs, st.names, st.homes, p, name);
        var e := ExportStep(st, p, t);
        (if e.outcome.Pass? then Ok(t) else Err(e.outcome.error), e.store)
      case None => InternFreshExternal(st, p, name)
  }

  /// INTERN-AND-EXPORT over the all-or-nothing export.
  function InternAndExportAtomicStep(st: Store, p: Pid, name: string): (r: (Result<Sid>, Store))
    requires Good(st) && p < |st.pkgs|
  {
    var pk := st.pkgs[p];
    if name in pk.external then (Ok(pk.external[name]), st)
    else match Accessible(st.pkgs, p, name)
      case Some(t) =>
        AccessibleNamed(st.pkgs, st.names, st.homes, p, name);
        var e := ExportAtomicStep(st, p, t);
        (if e.outcome.Pass? then Ok(t) else Err(e.outcome.error), e.store)
      case None => InternFreshExternal(st, p, name)
  }

  /// The not-found path of INTERN-AND-EXPORT: the next symbol, homed here,
  /// stored in the external table only.
  function InternFreshExternal(st: Store, p: Pid, name: string): (r: (Result<Sid>, Store))
    requires p < |st.pkgs|
  {
    var pk := st.pkgs[p];
    var s := |st.names|;
    (Ok(s), Store(st.pkgs[p := pk.(external := pk.external[name := s])], st.names + [name], st.homes + [Some(p)]))
  }
}
