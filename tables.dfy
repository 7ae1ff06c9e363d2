/// The value-level part of the package system: a package's tables, the
/// name lookups over a store of packages, and the consistency invariant of
/// the whole store.  Packages and symbols are identified by their index in
/// the store (packages are never removed, only flagged as deleted).
module Tables {

  type Pid = nat
  type Sid = nat

  datatype Option<T> = None | Some(value: T)

  /// How a name resolves in a package (the second value of FIND-SYMBOL).
  datatype Locality = External | Internal | Inherited

  /// FIND-SYMBOL's two values: the symbol and its locality, or NIL, NIL.
  datatype Found = Found(sym: Sid, locality: Locality) | NotFound

  /// The package errors this subsystem signals.
  datatype PackageError =
    | NotAccessible
    | ExportConflict(user: Pid, other: Sid)
    | NameConflict
    | UninternConflict

  datatype Outcome = Pass | Fail(error: PackageError)
  datatype Result<T> = Ok(value: T) | Err(error: PackageError)

  /// One package: its two name tables, the shadowing table, the packages it
  /// uses (in precedence order), the packages that use it, and the deleted flag.
  datatype Pkg = Pkg(
    internal: map<string, Sid>,
    external: map<string, Sid>,
    shadowing: map<string, Sid>,
    useList: seq<Pid>,
    usedBy: seq<Pid>,
    deleted: bool)

  const EmptyPkg := Pkg(map[], map[], map[], [], [], false)

  /* ---------------------------------------------------------------- lookup */

  predicate InRange(pkgs: seq<Pkg>, ids: seq<Pid>) {
    forall i | 0 <= i < |ids| :: ids[i] < |pkgs|
  }

  /// True when the package at position k of `uses` exports `name` as `t`.
  predicate ExportsAt(pkgs: seq<Pkg>, uses: seq<Pid>, name: string, k: int, t: Sid)
    requires InRange(pkgs, uses)
  {
    0 <= k < |uses| && name in pkgs[uses[k]].external && pkgs[uses[k]].external[name] == t
  }

  /// Some package of `uses` exports `t` under `name`.
  predicate Exports(pkgs: seq<Pkg>, uses: seq<Pid>, name: string, t: Sid)
    requires InRange(pkgs, uses)
  {
    exists k | 0 <= k < |uses| :: ExportsAt(pkgs, uses, name, k, t)
  }

  /// Position k is the first package of `uses` whose external table has `name`.
  predicate FirstExporter(pkgs: seq<Pkg>, uses: seq<Pid>, name: string, k: int)
    requires InRange(pkgs, uses)
  {
    0 <= k < |uses| && name in pkgs[uses[k]].external &&
    forall j | 0 <= j < k :: name !in pkgs[uses[j]].external
  }

  /// The symbol inherited under `name` through the use-list `uses`: the
  /// external symbol of the first used package that has one.
  function InheritedFrom(pkgs: seq<Pkg>, uses: seq<Pid>, name: string): (r: Option<Sid>)
    requires InRange(pkgs, uses)
    ensures r.Some? ==> Exports(pkgs, uses, name, r.value)
    ensures r.None? <==> forall q | q in uses :: name !in pkgs[q].external
    decreases |uses|
  {
    if uses == [] then None
    else if name in pkgs[uses[0]].external then
      assert ExportsAt(pkgs, uses, name, 0, pkgs[uses[0]].external[name]);
      Some(pkgs[uses[0]].external[name])
    else
      var r := InheritedFrom(pkgs, uses[1..], name);
      if r.Some? then
        var k :| ExportsAt(pkgs, uses[1..], name, k, r.value);
        assert ExportsAt(pkgs, uses, name, k + 1, r.value);
        r
      else
        assert forall q | q in uses :: q == uses[0] || q in uses[1..];
        r
  }

  /// FIND-SYMBOL: external table, then internal table, then the external
  /// tables of the used packages in use-list order.
  function Find(pkgs: seq<Pkg>, p: Pid, name: string): (r: Found)
    requires p < |pkgs| && InRange(pkgs, pkgs[p].useList)
  {
    var pk := pkgs[p];
    if name in pk.external then Found(pk.external[name], External)
    else if name in pk.internal then Found(pk.internal[name], Internal)
    else match InheritedFrom(pkgs, pk.useList, name)
      case Some(s) => Found(s, Inherited)
      case None => NotFound
  }

  /// The symbol accessible under `name` in package p, if any.
  function Accessible(pkgs: seq<Pkg>, p: Pid, name: string): (r: Option<Sid>)
    requires p < |pkgs| && InRange(pkgs, pkgs[p].useList)
  {
    match Find(pkgs, p, name)
    case Found(s, _) => Some(s)
    case NotFound => None
  }

  /// `t` is stored under `name` in one of the package's own tables.
  predicate LocalAt(pk: Pkg, name: string, t: Sid) {
    (name in pk.internal && pk.internal[name] == t) ||
    (name in pk.external && pk.external[name] == t)
  }

  /// The first-hit characterisation of inheritance: the inherited symbol is
  /// the one exported by the first used package that exports the name.
  lemma {:induction false} InheritedFirstHit(pkgs: seq<Pkg>, uses: seq<Pid>, name: string, t: Sid)
    requires InRange(pkgs, uses)
    ensures InheritedFrom(pkgs, uses, name) == Some(t) <==>
            exists k :: FirstExporter(pkgs, uses, name, k) && pkgs[uses[k]].external[name] == t
    decreases |uses|
  {
    if uses != [] {
      var tail := uses[1..];
      assert InRange(pkgs, tail) by {
        forall q | q in tail ensures q < |pkgs| { assert q in uses; }
      }
      if name in pkgs[uses[0]].external {
        assert FirstExporter(pkgs, uses, name, 0);
        forall k | FirstExporter(pkgs, uses, name, k) ensures k == 0 { }
      } else {
        InheritedFirstHit(pkgs, tail, name, t);
        if InheritedFrom(pkgs, tail, name) == Some(t) {
          var k :| FirstExporter(pkgs, tail, name, k) && pkgs[tail[k]].external[name] == t;
          assert FirstExporter(pkgs, uses, name, k + 1) by {
            forall j | 0 <= j < k + 1 ensures name !in pkgs[uses[j]].external {
              if j > 0 { assert uses[j] == tail[j - 1]; }
            }
          }
        }
        if exists k :: FirstExporter(pkgs, uses, name, k) && pkgs[uses[k]].external[name] == t {
          var k :| FirstExporter(pkgs, uses, name, k) && pkgs[uses[k]].external[name] == t;
          assert k > 0;
          assert FirstExporter(pkgs, tail, name, k - 1) by {
            forall j | 0 <= j < k - 1 ensures name !in pkgs[tail[j]].external {
              assert tail[j] == uses[j + 1];
            }
          }
        }
      }
    }
  }

  /// The search order of FIND-SYMBOL, stated for every outcome.
  lemma FindOrder(pkgs: seq<Pkg>, p: Pid, name: string, t: Sid)
    requires p < |pkgs| && InRange(pkgs, pkgs[p].useList)
    ensures var pk := pkgs[p];
      && (Find(pkgs, p, name) == Found(t, External) <==>
            name in pk.external && pk.external[name] == t)
      && (Find(pkgs, p, name) == Found(t, Internal) <==>
            name !in pk.external && name in pk.internal && pk.internal[name] == t)
      && (Find(pkgs, p, name) == Found(t, Inherited) <==>
            name !in pk.external && name !in pk.internal &&
            exists k :: FirstExporter(pkgs, pk.useList, name, k) && pkgs[pk.useList[k]].external[name] == t)
      && (Find(pkgs, p, name) == NotFound <==>
            name !in pk.external && name !in pk.internal &&
            forall q | q in pk.useList :: name !in pkgs[q].external)
  {
    InheritedFirstHit(pkgs, pkgs[p].useList, name, t);
  }
}
