/** `std::set<std::string>` as an ordered list without duplicates, and `std::set_difference`. */
module OrderedSet {

  /** Byte-wise lexicographic order. */
  predicate Less(a: string, b: string) {
    if b == "" then false
    else if a == "" then true
    else a[0] < b[0] || (a[0] == b[0] && Less(a[1..], b[1..]))
  }

  /** The strings agree below position `k`, where the first one ends or has the smaller byte. */
  predicate FirstDifference(a: string, b: string, k: nat) {
    && k <= |a| && k < |b| && a[..k] == b[..k]
    && (k == |a| || a[k] < b[k])
  }

  lemma {:induction false} LessIff(a: string, b: string)
    ensures Less(a, b) <==> exists k: nat :: FirstDifference(a, b, k)
  {
    if a != "" && b != "" && a[0] == b[0] {
      LessIff(a[1..], b[1..]);
      if k: nat :| FirstDifference(a[1..], b[1..], k) {
        assert a[..k + 1] == [a[0]] + a[1..][..k] && b[..k + 1] == [b[0]] + b[1..][..k];
        assert FirstDifference(a, b, k + 1);
      }
      if k: nat :| FirstDifference(a, b, k) {
        if k > 0 {
          assert a[1..][..k - 1] == a[..k][1..] && b[1..][..k - 1] == b[..k][1..];
          assert FirstDifference(a[1..], b[1..], k - 1);
        }
      }
    } else if b != "" && (a == "" || a[0] < b[0]) {
      assert FirstDifference(a, b, 0);
    } else {
      forall k: nat
        ensures FirstDifference(a, b, k) ==> k == 0
      {
        SharedFirst(a, b, k);
      }
    }
  }

  lemma SharedFirst(a: string, b: string, k: nat)
    ensures FirstDifference(a, b, k) && k > 0 ==> a != "" && b != "" && a[0] == b[0]
  {
    if FirstDifference(a, b, k) && k > 0 {
      assert a[0] == a[..k][0] && b[0] == b[..k][0];
    }
  }

  lemma {:induction false} LessTotal(a: string, b: string)
    ensures Less(a, b) || Less(b, a) || a == b
  {
    if a != "" && b != "" && a[0] == b[0] {
      LessTotal(a[1..], b[1..]);
      assert a == [a[0]] + a[1..] && b == [b[0]] + b[1..];
    }
  }

  lemma {:induction false} LessTransitive(a: string, b: string, c: string)
    requires Less(a, b) && Less(b, c)
    ensures Less(a, c)
  {
    if a != "" && a[0] == b[0] == c[0] {
      LessTransitive(a[1..], b[1..], c[1..]);
    }
  }

  lemma {:induction false} LessIrreflexive(a: string)
    ensures !Less(a, a)
  {
    if a != "" {
      LessIrreflexive(a[1..]);
    }
  }

  ghost predicate Sorted(xs: seq<string>) { forall i, j | 0 <= i < j < |xs| :: Less(xs[i], xs[j]) }

  ghost function Elements(xs: seq<string>): set<string> { set x | x in xs }

  lemma SortedHasNoDuplicates(xs: seq<string>, i: nat, j: nat)
    requires Sorted(xs) && i < |xs| && j < |xs| && xs[i] == xs[j]
    ensures i == j
  {
    LessIrreflexive(xs[i]);
  }

  lemma {:induction false} SortedCount(xs: seq<string>)
    requires Sorted(xs)
    ensures |xs| == |Elements(xs)|
  {
    if xs == [] {
      assert Elements(xs) == {};
    } else {
      var n := |xs| - 1;
      SortedCount(xs[..n]);
      assert xs == xs[..n] + [xs[n]];
      assert Elements(xs) == Elements(xs[..n]) + {xs[n]};
      if xs[n] in xs[..n] {
        var i :| 0 <= i < n && xs[i] == xs[n];
        SortedHasNoDuplicates(xs, i, n);
      }
    }
  }

  /** A sorted list is determined by its elements. */
  lemma {:induction false} SortedUnique(xs: seq<string>, ys: seq<string>)
    requires Sorted(xs) && Sorted(ys) && Elements(xs) == Elements(ys)
    ensures xs == ys
  {
    SortedCount(xs);
    SortedCount(ys);
    if xs != [] {
      SameFirst(xs, ys);
      TailElements(xs);
      TailElements(ys);
      SortedUnique(xs[1..], ys[1..]);
      assert xs == [xs[0]] + xs[1..] && ys == [ys[0]] + ys[1..];
    }
  }

  lemma SameFirst(xs: seq<string>, ys: seq<string>)
    requires Sorted(xs) && Sorted(ys) && Elements(xs) == Elements(ys) && xs != [] && ys != []
    ensures xs[0] == ys[0]
  {
    assert xs[0] in Elements(ys) && ys[0] in Elements(xs);
    var i :| 0 <= i < |ys| && ys[i] == xs[0];
    var j :| 0 <= j < |xs| && xs[j] == ys[0];
    if i > 0 && j > 0 {
      LessTransitive(ys[0], xs[0], ys[0]);
      LessIrreflexive(ys[0]);
    }
  }

  lemma TailElements(xs: seq<string>)
    requires Sorted(xs) && xs != []
    ensures Elements(xs[1..]) == Elements(xs) - {xs[0]}
  {
    forall x
      ensures x in xs[1..] <==> x in xs && x != xs[0]
    {
      if x in xs[1..] {
        var i :| 0 <= i < |xs| - 1 && xs[1..][i] == x;
        if x == xs[0] {
          SortedHasNoDuplicates(xs, 0, i + 1);
        }
      }
      if x in xs && x != xs[0] {
        var i :| 0 <= i < |xs| && xs[i] == x;
        assert xs[1..][i - 1] == x;
      }
    }
  }

  method Insert(xs: seq<string>, x: string) returns (r: seq<string>)
    requires Sorted(xs)
    ensures Sorted(r) && Elements(r) == Elements(xs) + {x}
  {
    var i := 0;
    while i < |xs| && Less(xs[i], x)
      invariant i <= |xs|
      invariant forall k | 0 <= k < i :: Less(xs[k], x)
    {
      i := i + 1;
    }
    if i < |xs| && xs[i] == x {
      return xs;
    }
    r := xs[..i] + [x] + xs[i..];
    InsertKeepsOrder(xs, x, i);
    assert xs == xs[..i] + xs[i..];
  }

  lemma InsertKeepsOrder(xs: seq<string>, x: string, i: nat)
    requires Sorted(xs) && i <= |xs|
    requires forall k | 0 <= k < i :: Less(xs[k], x)
    requires i < |xs| ==> !Less(xs[i], x) && xs[i] != x
    ensures Sorted(xs[..i] + [x] + xs[i..])
  {
    if i < |xs| {
      LessTotal(x, xs[i]);
      forall k | i < k < |xs|
        ensures Less(x, xs[k])
      {
        LessTransitive(x, xs[i], xs[k]);
      }
    }
  }

  /** The merge of `std::set_difference` over two ordered ranges. */
  method SetDifference(a: seq<string>, b: seq<string>) returns (r: seq<string>)
    requires Sorted(a) && Sorted(b)
    ensures Sorted(r) && Elements(r) == Elements(a) - Elements(b)
  {
    r := [];
    var i, j := 0, 0;
    while i < |a|
      invariant i <= |a| && j <= |b|
      invariant Elements(r) == Elements(a[..i]) - Elements(b)
      invariant Sorted(r)
      invariant forall k | 0 <= k < j && i < |a| :: Less(b[k], a[i])
      decreases |a| - i + |b| - j
    {
      if j == |b| || Less(a[i], b[j]) {
        NotIn(a, b, i, j);
        AppendKeepsOrder(a, r, i);
        AdvanceBound(a, b, i, j);
        assert Elements(r + [a[i]]) == Elements(r) + {a[i]};
        r := r + [a[i]];
        TakeOne(a, i);
        i := i + 1;
      } else {
        if !Less(b[j], a[i]) {
          LessTotal(a[i], b[j]);
          assert a[i] in Elements(b);
          AdvanceBound(a, b, i, j);
          TakeOne(a, i);
          i := i + 1;
        }
        j := j + 1;
      }
    }
    assert a[..|a|] == a;
  }

  lemma TakeOne(a: seq<string>, i: nat)
    requires i < |a|
    ensures Elements(a[..i + 1]) == Elements(a[..i]) + {a[i]}
  {
    assert a[..i + 1] == a[..i] + [a[i]];
  }

  lemma NotIn(a: seq<string>, b: seq<string>, i: nat, j: nat)
    requires Sorted(b) && i < |a| && j <= |b|
    requires forall k | 0 <= k < j :: Less(b[k], a[i])
    requires j == |b| || Less(a[i], b[j])
    ensures a[i] !in b
  {
    if a[i] in b {
      var k :| 0 <= k < |b| && b[k] == a[i];
      LessIrreflexive(a[i]);
      if k > j {
        LessTransitive(a[i], b[j], b[k]);
      }
    }
  }

  lemma AppendKeepsOrder(a: seq<string>, r: seq<string>, i: nat)
    requires Sorted(a) && i < |a| && Sorted(r) && Elements(r) <= Elements(a[..i])
    ensures Sorted(r + [a[i]])
  {
    forall k | 0 <= k < |r|
      ensures Less(r[k], a[i])
    {
      assert r[k] in Elements(r);
      var m :| 0 <= m < i && a[..i][m] == r[k];
    }
  }

  lemma AdvanceBound(a: seq<string>, b: seq<string>, i: nat, j: nat)
    requires Sorted(a) && i < |a| && j <= |b|
    requires forall k | 0 <= k < j :: Less(b[k], a[i])
    ensures i + 1 < |a| ==> forall k | 0 <= k < j :: Less(b[k], a[i + 1])
  {
    if i + 1 < |a| {
      forall k | 0 <= k < j
        ensures Less(b[k], a[i + 1])
      {
        LessTransitive(b[k], a[i], a[i + 1]);
      }
    }
  }
}
