/** Families of sets, and the sizes of finite sets. */
module Families {

  lemma {:induction false} SubsetSize<T>(a: set<T>, b: set<T>)
    requires a <= b
    ensures |a| <= |b|
    ensures |a| == |b| ==> a == b
  {
    if a != {} {
      var x :| x in a;
      SubsetSize(a - {x}, b - {x});
    }
  }

  lemma TwoElements<T>(s: set<T>) returns (x: T, y: T)
    requires |s| > 1
    ensures x in s && y in s && x != y
  {
    x :| x in s;
    assert |s - {x}| > 0;
    y :| y in s - {x};
  }

  /** The last element of a concatenation, and what is before it. */
  lemma AppendLast<T>(a: seq<T>, b: seq<T>)
    requires b != []
    ensures var n := |a + b| - 1;
            (a + b)[..n] == a + b[..|b| - 1] && (a + b)[n] == b[|b| - 1] && (|b| == 1 ==> (a + b)[..n] == a)
  {
  }

  lemma TakeOneMore<T>(s: seq<T>, n: nat)
    requires n < |s|
    ensures s[..n + 1] == s[..n] + [s[n]] && s[..n + 1][..n] == s[..n] && s[..|s|] == s
  {
  }

  lemma MoveFirst<T>(a: seq<T>, s: seq<T>)
    requires s != []
    ensures a + [s[0]] + s[1..] == a + s
  {
  }

  lemma AppendAt<T>(a: seq<T>, b: seq<T>, at: int)
    requires 0 <= at < |a + b|
    ensures (a + b)[at] == if at < |a| then a[at] else b[at - |a|]
  {
  }

  lemma PairSize<T>(x: T, y: T)
    requires x != y
    ensures |{x, y}| == 2
  {
  }

  lemma DisjointUnionSize<T>(a: set<T>, b: set<T>, c: set<T>)
    requires a !! b && a + b <= c && c <= a + b
    ensures |c| == |a| + |b|
  {
    assert c == a + b;
  }

  predicate PairwiseDisjoint<T(==)>(fs: seq<set<T>>) {
    forall i, j :: 0 <= i < j < |fs| ==> fs[i] !! fs[j]
  }

  function UnionOf<T(==)>(fs: seq<set<T>>): set<T> {
    if fs == [] then {} else UnionOf(fs[..|fs| - 1]) + fs[|fs| - 1]
  }

  function TotalSize<T(==)>(fs: seq<set<T>>): nat {
    if fs == [] then 0 else TotalSize(fs[..|fs| - 1]) + |fs[|fs| - 1]|
  }

  lemma {:induction false} InFamily<T>(fs: seq<set<T>>, x: T)
    ensures x in UnionOf(fs) <==> exists k :: 0 <= k < |fs| && x in fs[k]
  {
    if fs != [] {
      var n := |fs| - 1;
      InFamily(fs[..n], x);
      if x in UnionOf(fs[..n]) {
        var k :| 0 <= k < n && x in fs[..n][k];
        assert x in fs[k];
      }
      if exists k :: 0 <= k < |fs| && x in fs[k] {
        var k :| 0 <= k < |fs| && x in fs[k];
        assert k < n ==> x in fs[..n][k];
      }
    }
  }

  lemma LastIsDisjoint<T>(fs: seq<set<T>>)
    requires PairwiseDisjoint(fs) && fs != []
    ensures PairwiseDisjoint(fs[..|fs| - 1]) && UnionOf(fs[..|fs| - 1]) !! fs[|fs| - 1]
  {
    var n := |fs| - 1;
    forall x | x in UnionOf(fs[..n])
      ensures x !in fs[n]
    {
      InFamily(fs[..n], x);
      var k :| 0 <= k < n && x in fs[..n][k];
      assert fs[k] !! fs[n];
    }
  }

  /** The sizes of disjoint sets add up. */
  lemma {:induction false} DisjointSize<T>(fs: seq<set<T>>)
    requires PairwiseDisjoint(fs)
    ensures |UnionOf(fs)| == TotalSize(fs)
  {
    if fs != [] {
      LastIsDisjoint(fs);
      DisjointSize(fs[..|fs| - 1]);
    }
  }

  lemma {:induction false} UnionAppend<T>(a: seq<set<T>>, b: seq<set<T>>)
    ensures UnionOf(a + b) == UnionOf(a) + UnionOf(b)
  {
    if b == [] {
      assert a + b == a;
    } else {
      var n := |b| - 1;
      assert (a + b)[..|a + b| - 1] == a + b[..n];
      UnionAppend(a, b[..n]);
    }
  }

  lemma DisjointAppend<T>(a: seq<set<T>>, b: seq<set<T>>)
    requires PairwiseDisjoint(a) && PairwiseDisjoint(b) && UnionOf(a) !! UnionOf(b)
    ensures PairwiseDisjoint(a + b)
  {
    forall i, j | 0 <= i < |a| && 0 <= j < |b|
      ensures a[i] !! b[j]
    {
      forall x | x in a[i] && x in b[j]
        ensures false
      {
        InFamily(a, x);
        InFamily(b, x);
      }
    }
  }

  lemma {:induction false} UnionUpdate<T>(fs: seq<set<T>>, k: nat, extra: set<T>)
    requires k < |fs|
    ensures UnionOf(fs[k := fs[k] + extra]) == UnionOf(fs) + extra
  {
    var n := |fs| - 1;
    var r := fs[k := fs[k] + extra];
    if k < n {
      UnionUpdate(fs[..n], k, extra);
      assert r[..n] == fs[..n][k := fs[k] + extra];
    } else {
      assert r[..n] == fs[..n];
    }
  }

  /** Moving the last set of a disjoint family into another one of the family. */
  lemma Absorb<T>(fs: seq<set<T>>, k: nat)
    requires PairwiseDisjoint(fs) && k < |fs| - 1
    ensures var r := fs[..|fs| - 1][k := fs[k] + fs[|fs| - 1]];
            PairwiseDisjoint(r) && UnionOf(r) == UnionOf(fs)
  {
    var last := |fs| - 1;
    UnionUpdate(fs[..last], k, fs[last]);
  }

  function Image<A, B(==)>(s: set<A>, m: map<A, B>): set<B>
    requires s <= m.Keys
  {
    set x | x in s :: m[x]
  }

  /** A one-to-one image is as large as the set. */
  lemma {:induction false} ImageSize<A, B>(s: set<A>, m: map<A, B>)
    requires s <= m.Keys
    requires forall x, y :: x in s && y in s && x != y ==> m[x] != m[y]
    ensures |Image(s, m)| == |s|
  {
    if s == {} {
      assert Image(s, m) == {};
    } else {
      var x :| x in s;
      var rest := s - {x};
      ImageSize(rest, m);
      assert s == rest + {x};
      assert Image(s, m) == Image(rest, m) + {m[x]};
    }
  }

  // ---- positions in a list --------------------------------------------------------------

  predicate Ascending(at: seq<nat>) {
    forall i, j :: 0 <= i < j < |at| ==> at[i] < at[j]
  }

  /** These are, in order, the positions in a list of length `n` that are kept. */
  ghost predicate Positions(at: seq<nat>, n: nat, kept: set<nat>) {
    && Ascending(at)
    && (forall i :: 0 <= i < |at| ==> at[i] < n && at[i] in kept)
    && forall k: nat :: k < n && k in kept ==> k in at
  }

  lemma PositionsNext(at: seq<nat>, n: nat, kept: set<nat>)
    requires Positions(at, n, kept)
    ensures Positions(if n in kept then at + [n] else at, n + 1, kept)
  {
    if n in kept {
      forall k: nat | k < n + 1 && k in kept
        ensures k in at + [n]
      {
        assert k < n ==> k in at;
      }
    }
  }

  /** These are the elements of the list at these positions. */
  ghost predicate ElementsAt<T>(s: seq<T>, all: seq<T>, at: seq<nat>) {
    |s| == |at| && forall i :: 0 <= i < |at| ==> at[i] < |all| && s[i] == all[at[i]]
  }

  lemma ElementsAtNext<T>(s: seq<T>, all: seq<T>, at: seq<nat>, n: nat)
    requires ElementsAt(s, all, at) && n < |all|
    ensures ElementsAt(s + [all[n]], all, at + [n])
  {
  }

  /** These are the elements that are kept of the first `n`, and their positions. */
  ghost predicate TakenAt<T>(at: seq<nat>, s: seq<T>, all: seq<T>, kept: set<nat>, n: nat) {
    Positions(at, n, kept) && ElementsAt(s, all, at)
  }

  lemma TakenAtNext<T>(at: seq<nat>, s: seq<T>, all: seq<T>, kept: set<nat>, n: nat)
    requires TakenAt(at, s, all, kept, n) && n < |all|
    ensures if n in kept then TakenAt(at + [n], s + [all[n]], all, kept, n + 1)
            else TakenAt(at, s, all, kept, n + 1)
  {
    PositionsNext(at, n, kept);
    ElementsAtNext(s, all, at, n);
  }
}
