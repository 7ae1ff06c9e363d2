/// What USE-PACKAGE and UNUSE-PACKAGE mean: the invariant they keep, the
/// edge they add or remove, the conflict rule, and their round trip.
module UseLaws {
  import opened Tables
  import opened Lists
  import opened Invariant
  import opened Conflicts
  import opened Operations

  /// USE-PACKAGE keeps the invariant.  It is refused exactly when q is not
  /// yet used and one of its external symbols clashes with an unshadowed
  /// symbol accessible in p, and then changes nothing; otherwise q is on
  /// p's use-list afterwards and no other edge changes.
  lemma UseMeaning(st: Store, p: Pid, q: Pid)
    requires Good(st) && p < |st.pkgs| && q < |st.pkgs|
    ensures var e := UseStep(st, p, q);
      && Good(e.store) && |e.store.pkgs| == |st.pkgs|
      && e.store.names == st.names && e.store.homes == st.homes
      && (e.outcome == Fail(NameConflict) <==> q !in st.pkgs[p].useList && UseConflict(st.pkgs, p, q))
      && (e.outcome.Fail? ==> e.outcome == Fail(NameConflict) && e.store == st)
      && (e.outcome == Pass ==> q in e.store.pkgs[p].useList)
      && forall r, x | 0 <= r < |st.pkgs| && !(r == p && x == q) ::
           x in e.store.pkgs[r].useList <==> x in st.pkgs[r].useList
  {
    assert InRange(st.pkgs, st.pkgs[p].useList);
    if q !in st.pkgs[p].useList && !UseConflict(st.pkgs, p, q) {
      UseAdd(st.pkgs, st.names, st.homes, p, q);
    }
  }

  /// After a successful USE-PACKAGE of a package not used before, every
  /// external symbol of q is what its name resolves to in p, unless p
  /// shadows that name.
  lemma UseNoConflict(st: Store, p: Pid, q: Pid, n: string)
    requires Good(st) && p < |st.pkgs| && q < |st.pkgs|
    requires q !in st.pkgs[p].useList && UseStep(st, p, q).outcome == Pass
    requires n in st.pkgs[q].external
    ensures var st' := UseStep(st, p, q).store;
      InRange(st'.pkgs, st'.pkgs[p].useList) &&
      (Accessible(st'.pkgs, p, n) == Some(st.pkgs[q].external[n]) || n in st.pkgs[p].shadowing)
  {
    UseMeaning(st, p, q);
    var after := AfterUse(st.pkgs, p, q);
    assert InRange(st.pkgs, st.pkgs[p].useList);
    assert !Clash(st.pkgs, p, n, st.pkgs[q].external[n]);
    AfterUseShape(st.pkgs, p, q, p);
    AfterUseShape(st.pkgs, p, q, q);
    assert after[p].useList == [q] + st.pkgs[p].useList;
  }

  /// Using a package and then un-using it restores the store.
  lemma UseUnuseRoundTrip(st: Store, p: Pid, q: Pid)
    requires Good(st) && p < |st.pkgs| && q < |st.pkgs|
    requires q !in st.pkgs[p].useList && UseStep(st, p, q).outcome == Pass
    ensures var st' := UseStep(st, p, q).store;
      p < |st'.pkgs| && q < |st'.pkgs| && UnuseStore(st', p, q) == st
  {
    assert InRange(st.pkgs, st.pkgs[p].useList);
    assert p !in st.pkgs[q].usedBy;
    assert UseStep(st, p, q).store == st.(pkgs := AfterUse(st.pkgs, p, q));
    AfterUseShape(st.pkgs, p, q, p);
    AddRemoveEdge(st.pkgs, p, q);
  }

  /// Adding the edge p -> q where it is absent and then removing it gives
  /// back the same lists.
  lemma AddRemoveEdge(pkgs: seq<Pkg>, p: Pid, q: Pid)
    requires p < |pkgs| && q < |pkgs| && q !in pkgs[p].useList && p !in pkgs[q].usedBy
    ensures AfterUnuse(AfterUse(pkgs, p, q), p, q) == pkgs
  {
    var a := AfterUse(pkgs, p, q);
    var b := AfterUnuse(a, p, q);
    AfterUseShape(pkgs, p, q, p);
    AfterUseShape(pkgs, p, q, q);
    WithoutPushed(q, pkgs[p].useList);
    RemoveFirstAppended(pkgs[q].usedBy, p);
    forall r | 0 <= r < |pkgs| ensures b[r] == pkgs[r] {
      AfterUseShape(pkgs, p, q, r);
      AfterUnuseShape(a, p, q, r);
    }
    AfterUnuseShape(a, p, q, p);
    assert |b| == |pkgs|;
  }

  /// UNUSE-PACKAGE keeps the invariant; afterwards q is not on p's
  /// use-list, p is not on q's used-by list, and no other edge changes.
  lemma UnuseMeaning(st: Store, p: Pid, q: Pid)
    requires Good(st) && p < |st.pkgs| && q < |st.pkgs|
    ensures var st' := UnuseStore(st, p, q);
      && Good(st') && |st'.pkgs| == |st.pkgs| && st'.names == st.names && st'.homes == st.homes
      && q !in st'.pkgs[p].useList && p !in st'.pkgs[q].usedBy
      && (forall r, x | 0 <= r < |st.pkgs| && !(r == p && x == q) ::
            x in st'.pkgs[r].useList <==> x in st.pkgs[r].useList)
      && (forall r | 0 <= r < |st.pkgs| ::
            st'.pkgs[r].internal == st.pkgs[r].internal && st'.pkgs[r].external == st.pkgs[r].external &&
            st'.pkgs[r].shadowing == st.pkgs[r].shadowing && st'.pkgs[r].deleted == st.pkgs[r].deleted)
  {
    if q in st.pkgs[p].useList {
      UseRemove(st.pkgs, st.names, st.homes, p, q);
      forall r | 0 <= r < |st.pkgs| ensures
        var b := AfterUnuse(st.pkgs, p, q);
        b[r].internal == st.pkgs[r].internal && b[r].external == st.pkgs[r].external &&
        b[r].shadowing == st.pkgs[r].shadowing && b[r].deleted == st.pkgs[r].deleted
      {
        AfterUnuseShape(st.pkgs, p, q, r);
      }
      var b := AfterUnuse(st.pkgs, p, q);
      assert UseConsistent(b);
    } else {
      assert p !in st.pkgs[q].usedBy;
    }
  }

  /// UNUSE-PACKAGE of a used package, list by list: p's use-list loses q,
  /// keeping the order of the rest; q's used-by list loses p; every other
  /// list and every table is as it was.
  lemma UnuseLists(st: Store, p: Pid, q: Pid)
    requires Good(st) && p < |st.pkgs| && q < |st.pkgs| && q in st.pkgs[p].useList
    ensures var st' := UnuseStore(st, p, q);
      |st'.pkgs| == |st.pkgs| &&
      forall r | 0 <= r < |st.pkgs| ::
        && st'.pkgs[r].useList == (if r == p then Without(st.pkgs[p].useList, q) else st.pkgs[r].useList)
        && st'.pkgs[r].usedBy == (if r == q then Without(st.pkgs[q].usedBy, p) else st.pkgs[r].usedBy)
        && st'.pkgs[r].internal == st.pkgs[r].internal && st'.pkgs[r].external == st.pkgs[r].external
        && st'.pkgs[r].shadowing == st.pkgs[r].shadowing && st'.pkgs[r].deleted == st.pkgs[r].deleted
  {
    assert NoDup(st.pkgs[q].usedBy);
    RemoveFirstWithout(st.pkgs[q].usedBy, p);
    forall r | 0 <= r < |st.pkgs| {
      AfterUnuseShape(st.pkgs, p, q, r);
    }
  }
}
