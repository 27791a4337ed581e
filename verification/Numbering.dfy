/** The numbering of the cells of a cube: row-major mixed radix. */
module Numbering {

  function Size(dims: seq<nat>): nat {
    if dims == [] then 1 else dims[0] * Size(dims[1..])
  }

  predicate Positive(dims: seq<nat>) {
    forall i :: 0 <= i < |dims| ==> dims[i] > 0
  }

  predicate InRange(dims: seq<nat>, coords: seq<nat>) {
    |coords| == |dims| && forall i :: 0 <= i < |dims| ==> coords[i] < dims[i]
  }

  function Index(dims: seq<nat>, coords: seq<nat>): nat
    requires |coords| == |dims|
  {
    if dims == [] then 0 else coords[0] * Size(dims[1..]) + Index(dims[1..], coords[1..])
  }

  lemma {:induction false} SizePositive(dims: seq<nat>)
    requires Positive(dims)
    ensures Size(dims) > 0
  {
    if dims != [] {
      SizePositive(dims[1..]);
    }
  }

  lemma TailInRange(dims: seq<nat>, coords: seq<nat>)
    requires InRange(dims, coords) && dims != []
    ensures InRange(dims[1..], coords[1..])
  {
  }

  function Coordinates(dims: seq<nat>, index: nat): (coords: seq<nat>)
    requires Positive(dims)
    ensures |coords| == |dims|
  {
    if dims == [] then []
    else
      SizePositive(dims[1..]);
      [index / Size(dims[1..])] + Coordinates(dims[1..], index % Size(dims[1..]))
  }

  lemma Grow(x: int, y: int, n: nat)
    ensures x <= y ==> x * n <= y * n
  {
  }

  lemma DivMod(q: nat, r: nat, n: nat)
    requires r < n
    ensures (q * n + r) / n == q && (q * n + r) % n == r
  {
    var m := q * n + r;
    var d := m / n - q;
    assert d * n == r - m % n by {
      assert m == m / n * n + m % n;
      assert (m / n) * n - q * n == d * n;
    }
    Grow(1, d, n);
    Grow(d, -1, n);
  }

  lemma RowBound(q: nat, d: nat, r: nat, n: nat)
    requires q < d && r < n
    ensures q * n + r < d * n
  {
    assert (q + 1) * n <= d * n;
    assert (q + 1) * n == q * n + n;
  }

  lemma QuotientBound(index: nat, d: nat, n: nat)
    requires n > 0 && index < d * n
    ensures index / n < d
  {
    Grow(d, index / n, n);
  }

  /** The coordinates of an index are in range, and the index of coordinates is below the size. */
  lemma {:induction false} CoordinatesInRange(dims: seq<nat>, index: nat)
    requires Positive(dims) && index < Size(dims)
    ensures InRange(dims, Coordinates(dims, index))
  {
    if dims != [] {
      var n := Size(dims[1..]);
      SizePositive(dims[1..]);
      QuotientBound(index, dims[0], n);
      CoordinatesInRange(dims[1..], index % n);
      var rest := Coordinates(dims[1..], index % n);
      assert forall i :: 0 < i < |dims| ==> Coordinates(dims, index)[i] == rest[i - 1] && dims[i] == dims[1..][i - 1];
    }
  }

  lemma {:induction false} IndexInRange(dims: seq<nat>, coords: seq<nat>)
    requires InRange(dims, coords)
    ensures Index(dims, coords) < Size(dims)
  {
    if dims != [] {
      IndexInRange(dims[1..], coords[1..]);
      RowBound(coords[0], dims[0], Index(dims[1..], coords[1..]), Size(dims[1..]));
    }
  }

  /** The two directions are inverse to one another. */
  lemma {:induction false} IndexOfCoordinates(dims: seq<nat>, index: nat)
    requires Positive(dims) && index < Size(dims)
    ensures Index(dims, Coordinates(dims, index)) == index
  {
    if dims != [] {
      var n := Size(dims[1..]);
      SizePositive(dims[1..]);
      IndexOfCoordinates(dims[1..], index % n);
      assert Coordinates(dims, index)[1..] == Coordinates(dims[1..], index % n);
    }
  }

  lemma {:induction false} CoordinatesOfIndex(dims: seq<nat>, coords: seq<nat>)
    requires Positive(dims) && InRange(dims, coords)
    ensures Coordinates(dims, Index(dims, coords)) == coords
  {
    if dims != [] {
      var n, r := Size(dims[1..]), Index(dims[1..], coords[1..]);
      TailInRange(dims, coords);
      IndexInRange(dims[1..], coords[1..]);
      DivMod(coords[0], r, n);
      CoordinatesOfIndex(dims[1..], coords[1..]);
    }
  }
}
