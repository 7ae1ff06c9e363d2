/// The two list edits of the use-list machinery: dropping a package from a
/// use-list (UNUSE-PACKAGE's rebuilt list) and removing the first occurrence
/// of a package from a used-by list (java.util.List.remove).
module Lists {

  predicate NoDup(xs: seq<nat>) {
    forall i, j | 0 <= i < j < |xs| :: xs[i] != xs[j]
  }

  /// `xs` with every occurrence of `x` left out, the others in their order.
  function Without(xs: seq<nat>, x: nat): (r: seq<nat>)
    ensures forall y :: y in r <==> y in xs && y != x
    ensures |r| <= |xs|
    ensures x in xs ==> |r| < |xs|
    decreases |xs|
  {
    if xs == [] then []
    else
      var init := xs[..|xs| - 1];
      assert xs == init + [xs[|xs| - 1]];
      if xs[|xs| - 1] == x then Without(init, x) else Without(init, x) + [xs[|xs| - 1]]
  }

  /// Pushing an absent x on the front and dropping it again gives xs back.
  lemma WithoutPushed(x: nat, xs: seq<nat>)
    requires x !in xs
    ensures Without([x] + xs, x) == xs
  {
    assert [x] + xs == [] + [x] + xs;
    WithoutSplit([], x, xs);
  }

  /// Dropping the head of a list without duplicates leaves its tail.
  lemma WithoutHead(xs: seq<nat>)
    requires xs != [] && NoDup(xs)
    ensures Without(xs, xs[0]) == xs[1..]
  {
    assert xs == [] + [xs[0]] + xs[1..];
    assert xs[0] !in xs[1..] by {
      forall j | 0 <= j < |xs[1..]| ensures xs[1..][j] != xs[0] { assert xs[1..][j] == xs[1 + j]; }
    }
    WithoutSplit([], xs[0], xs[1..]);
  }

  /// `xs` with its first occurrence of `x` removed.
  function RemoveFirst(xs: seq<nat>, x: nat): (r: seq<nat>)
    ensures x in xs ==> |r| == |xs| - 1
    ensures x !in xs ==> r == xs
    ensures forall y :: y in r ==> y in xs
    decreases |xs|
  {
    if xs == [] then []
    else if xs[0] == x then xs[1..]
    else [xs[0]] + RemoveFirst(xs[1..], x)
  }

  lemma {:induction false} WithoutAbsent(xs: seq<nat>, x: nat)
    requires x !in xs
    ensures Without(xs, x) == xs
    decreases |xs|
  {
    if xs != [] {
      var init := xs[..|xs| - 1];
      assert xs == init + [xs[|xs| - 1]];
      WithoutAbsent(init, x);
    }
  }

  /// Dropping x keeps everything else, in order: removing the one occurrence
  /// of x from a + [x] + b leaves a + b.
  lemma {:induction false} WithoutSplit(a: seq<nat>, x: nat, b: seq<nat>)
    requires x !in a && x !in b
    ensures Without(a + [x] + b, x) == a + b
    decreases |b|
  {
    if b == [] {
      assert a + [x] + b == a + [x];
      assert (a + [x])[..|a + [x]| - 1] == a;
      WithoutAbsent(a, x);
    } else {
      var xs := a + [x] + b;
      var binit := b[..|b| - 1];
      assert xs[..|xs| - 1] == a + [x] + binit;
      assert xs[|xs| - 1] == b[|b| - 1];
      WithoutSplit(a, x, binit);
      assert a + binit + [b[|b| - 1]] == a + b;
    }
  }

  lemma {:induction false} WithoutNoDup(xs: seq<nat>, x: nat)
    requires NoDup(xs)
    ensures NoDup(Without(xs, x))
    decreases |xs|
  {
    if xs != [] {
      var init := xs[..|xs| - 1];
      assert NoDup(init);
      WithoutNoDup(init, x);
      var last := xs[|xs| - 1];
      assert last !in init;
      if last != x {
        var w := Without(init, x);
        assert last !in w;
        forall i, j | 0 <= i < j < |w + [last]| ensures (w + [last])[i] != (w + [last])[j] {
          if j == |w| { assert (w + [last])[i] in w; }
        }
      }
    }
  }

  /// On a list without duplicates, RemoveFirst removes exactly x.
  lemma {:induction false} RemoveFirstNoDup(xs: seq<nat>, x: nat)
    requires NoDup(xs)
    ensures NoDup(RemoveFirst(xs, x))
    ensures forall y :: y in RemoveFirst(xs, x) <==> y in xs && y != x
    decreases |xs|
  {
    if xs != [] {
      var tail := xs[1..];
      assert NoDup(tail) by {
        forall i, j | 0 <= i < j < |tail| ensures tail[i] != tail[j] {
          assert tail[i] == xs[i + 1] && tail[j] == xs[j + 1];
        }
      }
      assert xs[0] !in tail by {
        forall j | 0 <= j < |tail| ensures tail[j] != xs[0] { assert tail[j] == xs[j + 1]; }
      }
      if xs[0] != x {
        RemoveFirstNoDup(tail, x);
        var r := RemoveFirst(tail, x);
        assert xs[0] !in r;
        forall i, j | 0 <= i < j < |[xs[0]] + r| ensures ([xs[0]] + r)[i] != ([xs[0]] + r)[j] {
          if i == 0 { assert ([xs[0]] + r)[j] in r; }
          else { assert ([xs[0]] + r)[i] == r[i - 1] && ([xs[0]] + r)[j] == r[j - 1]; }
        }
        assert xs == [xs[0]] + tail;
      } else {
        assert xs == [xs[0]] + tail;
      }
    }
  }

  /// Appending x and removing its first occurrence is the identity on a
  /// list without x.
  lemma {:induction false} RemoveFirstAppended(xs: seq<nat>, x: nat)
    requires x !in xs
    ensures RemoveFirst(xs + [x], x) == xs
    decreases |xs|
  {
    if xs != [] {
      assert (xs + [x])[1..] == xs[1..] + [x];
      RemoveFirstAppended(xs[1..], x);
      assert xs == [xs[0]] + xs[1..];
    }
  }

  /// Removing the first occurrence of x from a + [x] + b, where a has no x,
  /// gives a + b.
  lemma {:induction false} RemoveFirstSplit(a: seq<nat>, x: nat, b: seq<nat>)
    requires x !in a
    ensures RemoveFirst(a + [x] + b, x) == a + b
    decreases |a|
  {
    if a == [] {
      assert a + [x] + b == [x] + b;
      assert ([x] + b)[1..] == b;
    } else {
      var t := a[1..];
      assert x !in t;
      RemoveFirstSplit(t, x, b);
      calc {
        RemoveFirst(a + [x] + b, x);
      == { assert (a + [x] + b)[0] == a[0]; assert (a + [x] + b)[1..] == t + [x] + b; }
        [a[0]] + RemoveFirst(t + [x] + b, x);
      ==
        [a[0]] + (t + b);
      == { assert a == [a[0]] + t; }
        a + b;
      }
    }
  }

  /// On a list without duplicates, removing the first occurrence of x and
  /// removing every occurrence of x agree.
  lemma RemoveFirstWithout(xs: seq<nat>, x: nat)
    requires NoDup(xs)
    ensures RemoveFirst(xs, x) == Without(xs, x)
  {
    if x in xs {
      var k :| 0 <= k < |xs| && xs[k] == x;
      var a, b := xs[..k], xs[k + 1..];
      assert xs == a + [x] + b;
      assert x !in a by {
        forall j | 0 <= j < |a| ensures a[j] != x { assert a[j] == xs[j]; }
      }
      assert x !in b by {
        forall j | 0 <= j < |b| ensures b[j] != x { assert b[j] == xs[k + 1 + j]; }
      }
      WithoutSplit(a, x, b);
      RemoveFirstSplit(a, x, b);
    } else {
      WithoutAbsent(xs, x);
    }
  }
}
