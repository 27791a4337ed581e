/** Where counting cannot be relied on, `request` loses or invents fields: the exact limit. */
module Limits {
  import opened Requests
  import opened Fields
  import opened Families
  import opened Compacting
  import opened ExactCover
  import opened OneRequest

  function PieceOf(shape: Shape, i: nat): Piece
    requires shape.Valid() && i < |shape.cells|
  {
    Piece(shape.RequestOf(i), 1)
  }

  // ---- two cells ------------------------------------------------------------------------

  ghost predicate Empty(parts: seq<seq<Piece>>, i: int)
    requires 0 <= i < |parts|
  {
    |parts[i]| == 0
  }

  lemma {:induction false} GatherNothing(parts: seq<seq<Piece>>, singleLevel: set<string>)
    requires forall i :: 0 <= i < |parts| ==> Empty(parts, i)
    ensures Gather(parts, singleLevel) == []
  {
    if parts != [] {
      var n := |parts| - 1;
      forall i | 0 <= i < n
        ensures Empty(parts[..n], i)
      {
        assert Empty(parts, i);
      }
      assert Empty(parts, n);
      GatherSkips(parts, singleLevel);
      GatherNothing(parts[..n], singleLevel);
    }
  }

  lemma {:induction false} GatherSingle(parts: seq<seq<Piece>>, x: nat, a: Piece, singleLevel: set<string>)
    requires x < |parts| && parts[x] == [a]
    requires forall i :: 0 <= i < |parts| && i != x ==> Empty(parts, i)
    ensures Gather(parts, singleLevel) == [a]
  {
    var n := |parts| - 1;
    forall i | 0 <= i < n && i != x
      ensures Empty(parts[..n], i)
    {
      assert Empty(parts, i);
    }
    if x == n {
      GatherNothing(parts[..n], singleLevel);
      GatherFirst(parts, a, singleLevel);
    } else {
      assert Empty(parts, n);
      GatherSkips(parts, singleLevel);
      GatherSingle(parts[..n], x, a, singleLevel);
    }
  }

  lemma GatherAppend(parts: seq<seq<Piece>>, a: Piece, b: Piece, singleLevel: set<string>)
    requires parts != [] && parts[|parts| - 1] == [b] && Gather(parts[..|parts| - 1], singleLevel) == [a]
    ensures Gather(parts, singleLevel) == Settle([a, b], singleLevel)
  {
    assert [a] + [b] == [a, b];
  }

  lemma {:induction false} GatherPair(parts: seq<seq<Piece>>, x: nat, a: Piece, y: nat, b: Piece,
                                      singleLevel: set<string>)
    requires x < y < |parts| && parts[x] == [a] && parts[y] == [b]
    requires forall i :: 0 <= i < |parts| && i != x && i != y ==> Empty(parts, i)
    ensures Gather(parts, singleLevel) == Settle([a, b], singleLevel)
  {
    var n := |parts| - 1;
    forall i | 0 <= i < n && i != x && i != y
      ensures Empty(parts[..n], i)
    {
      assert Empty(parts, i);
    }
    if y == n {
      GatherSingle(parts[..n], x, a, singleLevel);
      GatherAppend(parts, a, b, singleLevel);
    } else {
      assert Empty(parts, n);
      GatherSkips(parts, singleLevel);
      GatherPair(parts[..n], x, a, y, b, singleLevel);
    }
  }

  lemma SettleEmbedded(a: Piece, b: Piece, singleLevel: set<string>)
    requires RelationOf(a, b, singleLevel) == Embedded
    ensures Settle([a, b], singleLevel) == [a]
  {
    var pieces := [a, b];
    var relations := Relations(pieces, singleLevel);
    assert relations == [Embedded];
    assert SearchUpTo(pieces, relations, 0) == Nothing;
    assert SearchUpTo(pieces, relations, 1) == Absorbed;
    assert pieces[..1] == [a];
  }

  lemma SingleIndex(shape: Shape, i: nat)
    requires shape.Valid() && i < |shape.cells|
    ensures Compact(shape, {i}) == [PieceOf(shape, i)]
  {
    assert TheIndex({i}) == i;
  }

  lemma PairSlice(shape: Shape, i: nat, j: nat, axis: nat, c: nat)
    requires shape.Valid() && i < |shape.cells| && j < |shape.cells| && axis < |shape.axes|
    requires shape.cells[i][axis] != shape.cells[j][axis]
    ensures Slice(shape, {i, j}, axis, c) ==
            if c == shape.cells[i][axis] then {i} else if c == shape.cells[j][axis] then {j} else {}
  {
  }

  /** Two cells: two one-cell pieces, in the order of their coordinates, settled. */
  lemma CompactPair(shape: Shape, i: nat, j: nat) returns (a: nat, b: nat)
    requires shape.Valid() && i < |shape.cells| && j < |shape.cells| && i != j
    ensures (a == i && b == j) || (a == j && b == i)
    ensures Compact(shape, {i, j}) == Settle([PieceOf(shape, a), PieceOf(shape, b)], shape.singleLevel)
  {
    var idxs := {i, j};
    AxisExists(shape, idxs);
    var axis := PickAxis(shape, idxs, |shape.axes|).axis;
    assert CoordsAlong(shape, idxs, axis) == {shape.cells[i][axis], shape.cells[j][axis]};
    assert shape.cells[i][axis] != shape.cells[j][axis];
    a, b := i, j;
    if shape.cells[j][axis] < shape.cells[i][axis] {
      a, b := j, i;
    }
    assert idxs == {a, b};
    var x, y := shape.cells[a][axis], shape.cells[b][axis];
    var n := |shape.axes[axis].values|;
    var parts := seq(n, c requires 0 <= c < n =>
                     var slice := Slice(shape, idxs, axis, c);
                     if slice == {} then [] else Compact(shape, slice));
    forall c | 0 <= c < n
      ensures parts[c] == if c == x then [PieceOf(shape, a)]
                          else if c == y then [PieceOf(shape, b)] else []
    {
      PairSlice(shape, a, b, axis, c);
      SingleIndex(shape, a);
      SingleIndex(shape, b);
    }
    GatherPair(parts, x, PieceOf(shape, a), y, PieceOf(shape, b), shape.singleLevel);
  }

  // ---- counting two cells ---------------------------------------------------------------

  predicate PlainValue(v: string) {
    v != "all" && v != "any"
  }

  /** The first value that is neither "all" nor "any", or the first of all. */
  function FirstPlain(values: seq<string>): (k: nat)
    ensures values != [] ==> k < |values|
    ensures (exists i :: 0 <= i < |values| && PlainValue(values[i])) ==> k < |values| && PlainValue(values[k])
  {
    PlainFrom(values, 0)
  }

  function PlainFrom(values: seq<string>, i: nat): (k: nat)
    requires i <= |values|
    ensures values != [] ==> k < |values|
    ensures (exists j :: i <= j < |values| && PlainValue(values[j])) ==> k < |values| && PlainValue(values[k])
    decreases |values| - i
  {
    if i == |values| then 0 else if PlainValue(values[i]) then i else PlainFrom(values, i + 1)
  }

  /** The coordinates of a cell that is fixed but for levtype, levelist and param. */
  function Corner(axes: seq<Parameter>, t: nat, l: nat, p: nat): (c: seq<nat>)
    ensures |c| == |axes|
  {
    seq(|axes|, k requires 0 <= k < |axes| =>
      match axes[k].name
      case "levtype" => t
      case "levelist" => l
      case "param" => p
      case _ => FirstPlain(axes[k].values))
  }

  predicate Corners(axes: seq<Parameter>, t: nat, l: nat, p: nat) {
    && (Has(axes, "levtype") ==> t < |ValuesOf(axes, "levtype")|)
    && (Has(axes, "levelist") ==> l < |ValuesOf(axes, "levelist")|)
    && (Has(axes, "param") ==> p < |ValuesOf(axes, "param")|)
  }

  lemma CornerWithin(axes: seq<Parameter>, t: nat, l: nat, p: nat)
    requires CubeBox(axes) && Corners(axes, t, l, p)
    ensures WithinAxes(Corner(axes, t, l, p), axes)
  {
    forall k | 0 <= k < |axes|
      ensures Corner(axes, t, l, p)[k] < |axes[k].values|
    {
      FindAt(axes, k);
    }
  }

  function Two(values: seq<string>, a: nat, b: nat): seq<string>
    requires a < |values| && b < |values|
  {
    if a == b then [values[a]] else [values[a], values[b]]
  }

  lemma UnionOfTwo(values: seq<string>, a: nat, b: nat)
    requires Distinct(values) && a < |values| && b < |values|
    ensures Union([values[a]], [values[b]]) == Two(values, a, b)
  {
    assert Without([values[b]], [values[a]]) == if a == b then [] else [values[b]];
  }

  /** The bounding box of two cells. */
  lemma PairBox(axes: seq<Parameter>, c: seq<nat>, d: seq<nat>)
    requires CubeBox(axes) && WithinAxes(c, axes) && WithinAxes(d, axes)
    ensures var m := MergeParams(PointOf(axes, c), PointOf(axes, d));
            && |m| == |axes| && CubeBox(m) && SubBox(m, axes)
            && forall k :: 0 <= k < |m| ==> m[k] == Parameter(axes[k].name, true, Two(axes[k].values, c[k], d[k]))
  {
    var p, q := PointOf(axes, c), PointOf(axes, d);
    PointIsBox(axes, c);
    PointIsBox(axes, d);
    BoundingBox(p, q, axes);
    forall k | 0 <= k < |axes|
      ensures MergeParams(p, q)[k] == Parameter(axes[k].name, true, Two(axes[k].values, c[k], d[k]))
    {
      UnionOfTwo(axes[k].values, c[k], d[k]);
    }
  }

  predicate Varies(name: string) {
    name == "levtype" || name == "levelist" || name == "param"
  }

  predicate OneEach(m: seq<Parameter>) {
    forall k :: 0 <= k < |m| && !Varies(m[k].name) ==> |m[k].values| == 1
  }

  lemma OthersTake(ps: seq<Parameter>, n: nat)
    requires n < |ps|
    ensures var p := ps[n];
            OthersProduct(ps[..n + 1]) ==
            if p.name == "levelist" || p.name == "param" then OthersProduct(ps[..n])
            else OthersProduct(ps[..n]) * CountParam(p)
  {
    TakeOneMore(ps, n);
  }

  /** The other keys have one value each, but for the levtype. */
  lemma {:induction false} OthersOfPair(m: seq<Parameter>, n: nat)
    requires CubeBox(m) && n <= |m|
    requires OneEach(m)
    ensures OthersProduct(m[..n]) == if Find(m, "levtype") < n then |ValuesOf(m, "levtype")| else 1
  {
    if n > 0 {
      OthersOfPair(m, n - 1);
      OthersOfOneMore(m, n - 1);
    }
  }

  lemma OthersOfOneMore(m: seq<Parameter>, n: nat)
    requires CubeBox(m) && n < |m| && OneEach(m)
    ensures OthersProduct(m[..n + 1]) == OthersProduct(m[..n]) * LevtypesAt(m, n)
    ensures m[n].name == "levtype" <==> Find(m, "levtype") == n
  {
    OthersTake(m, n);
    FindAt(m, n);
    if m[n].name != "levelist" && m[n].name != "param" {
      CountAt(m, n);
    }
  }

  function LevtypesAt(m: seq<Parameter>, n: nat): nat
    requires n < |m|
  {
    if m[n].name == "levtype" then |m[n].values| else 1
  }

  lemma CountAt(m: seq<Parameter>, n: nat)
    requires CubeBox(m) && n < |m| && OneEach(m) && m[n].name != "levelist" && m[n].name != "param"
    ensures CountParam(m[n]) == LevtypesAt(m, n)
  {
  }

  /** The levtypes, levels and params of two cells. */
  datatype Corner3 = Corner3(t: nat, l: nat, p: nat) {
    function Of(axes: seq<Parameter>): seq<nat> {
      Corner(axes, t, l, p)
    }

    predicate Fits(axes: seq<Parameter>) {
      Corners(axes, t, l, p)
    }
  }

  function Both(axes: seq<Parameter>, name: string, a: nat, b: nat): seq<string>
    requires Has(axes, name) ==> a < |ValuesOf(axes, name)| && b < |ValuesOf(axes, name)|
  {
    if Has(axes, name) then Two(ValuesOf(axes, name), a, b) else []
  }

  function PairOf(axes: seq<Parameter>, c: Corner3, d: Corner3): seq<Parameter>
    requires CubeBox(axes) && c.Fits(axes) && d.Fits(axes)
  {
    CornerWithin(axes, c.t, c.l, c.p);
    CornerWithin(axes, d.t, d.l, d.p);
    MergeParams(PointOf(axes, c.Of(axes)), PointOf(axes, d.Of(axes)))
  }

  lemma PairValues(axes: seq<Parameter>, c: Corner3, d: Corner3)
    requires CubeBox(axes) && c.Fits(axes) && d.Fits(axes)
    ensures var m := PairOf(axes, c, d);
            && CubeBox(m) && SubBox(m, axes)
            && ValuesOf(m, "levtype") == Both(axes, "levtype", c.t, d.t)
            && ValuesOf(m, "levelist") == Both(axes, "levelist", c.l, d.l)
            && ValuesOf(m, "param") == Both(axes, "param", c.p, d.p)
            && (forall name :: Has(m, name) <==> Has(axes, name))
            && OneEach(m)
  {
    var m := PairOf(axes, c, d);
    PairAt(axes, c, d, m);
    ValuesOfPair(axes, c, d, m);
    PairNames(m, axes);
    PairOthersAreOne(axes, c, d, m);
  }

  lemma ValuesOfPair(axes: seq<Parameter>, c: Corner3, d: Corner3, m: seq<Parameter>)
    requires IsPair(axes, c, d, m) && c.Fits(axes) && d.Fits(axes)
    ensures ValuesOf(m, "levtype") == Both(axes, "levtype", c.t, d.t)
    ensures ValuesOf(m, "levelist") == Both(axes, "levelist", c.l, d.l)
    ensures ValuesOf(m, "param") == Both(axes, "param", c.p, d.p)
  {
    FixedAt(axes, c, "levtype", c.t);
    FixedAt(axes, d, "levtype", d.t);
    PairKey(axes, c, d, m, "levtype", c.t, d.t);
    FixedAt(axes, c, "levelist", c.l);
    FixedAt(axes, d, "levelist", d.l);
    PairKey(axes, c, d, m, "levelist", c.l, d.l);
    FixedAt(axes, c, "param", c.p);
    FixedAt(axes, d, "param", d.p);
    PairKey(axes, c, d, m, "param", c.p, d.p);
  }

  lemma FixedAt(axes: seq<Parameter>, c: Corner3, name: string, n: nat)
    requires match name case "levtype" => n == c.t case "levelist" => n == c.l case "param" => n == c.p case _ => false
    ensures Has(axes, name) ==> c.Of(axes)[Find(axes, name)] == n
  {
    if Has(axes, name) {
      assert axes[Find(axes, name)].name == name;
    }
  }

  /** The parameter for each axis in the bounding box of two cells. */
  lemma PairAt(axes: seq<Parameter>, c: Corner3, d: Corner3, m: seq<Parameter>)
    requires CubeBox(axes) && c.Fits(axes) && d.Fits(axes) && m == PairOf(axes, c, d)
    ensures CubeBox(m) && SubBox(m, axes) && IsPair(axes, c, d, m)
  {
    CornerWithin(axes, c.t, c.l, c.p);
    CornerWithin(axes, d.t, d.l, d.p);
    PairBox(axes, c.Of(axes), d.Of(axes));
  }

  ghost predicate IsPair(axes: seq<Parameter>, c: Corner3, d: Corner3, m: seq<Parameter>) {
    && |m| == |axes|
    && forall k :: 0 <= k < |m| ==>
         m[k].name == axes[k].name && c.Of(axes)[k] < |axes[k].values| && d.Of(axes)[k] < |axes[k].values|
         && m[k].values == Two(axes[k].values, c.Of(axes)[k], d.Of(axes)[k])
  }

  lemma PairNames(m: seq<Parameter>, axes: seq<Parameter>)
    requires |m| == |axes| && forall k :: 0 <= k < |m| ==> m[k].name == axes[k].name
    ensures forall name :: Has(m, name) <==> Has(axes, name)
  {
    forall name
      ensures Has(m, name) <==> Has(axes, name)
    {
      FindSameNames(m, axes, name);
    }
  }

  lemma PairKey(axes: seq<Parameter>, c: Corner3, d: Corner3, m: seq<Parameter>, name: string, a: nat, b: nat)
    requires IsPair(axes, c, d, m)
    requires Has(axes, name) ==> c.Of(axes)[Find(axes, name)] == a && d.Of(axes)[Find(axes, name)] == b
    ensures Has(axes, name) ==> a < |ValuesOf(axes, name)| && b < |ValuesOf(axes, name)|
    ensures ValuesOf(m, name) == Both(axes, name, a, b)
  {
    FindSameNames(m, axes, name);
  }

  lemma PairOthersAreOne(axes: seq<Parameter>, c: Corner3, d: Corner3, m: seq<Parameter>)
    requires IsPair(axes, c, d, m)
    ensures OneEach(m)
  {
    forall k | 0 <= k < |m| && !Varies(m[k].name)
      ensures |m[k].values| == 1
    {
      assert c.Of(axes)[k] == d.Of(axes)[k];
    }
  }

  function PairOthers(axes: seq<Parameter>, c: Corner3, d: Corner3): nat
    requires c.Fits(axes) && d.Fits(axes)
  {
    if Has(axes, "levtype") then |Both(axes, "levtype", c.t, d.t)| else 1
  }

  function PairFactor(axes: seq<Parameter>, c: Corner3, d: Corner3, singleLevel: set<string>): nat
    requires c.Fits(axes) && d.Fits(axes)
  {
    var params, levels := Both(axes, "param", c.p, d.p), Both(axes, "levelist", c.l, d.l);
    var single := CountIn(params, singleLevel);
    if params == [] then 1
    else Pairs("ml" in Both(axes, "levtype", c.t, d.t), if Has(axes, "levelist") then |levels| else 1,
               |params| - single, single, "1" in levels)
  }

  lemma PairParts(axes: seq<Parameter>, c: Corner3, d: Corner3, singleLevel: set<string>)
    requires CubeBox(axes) && c.Fits(axes) && d.Fits(axes)
    ensures OthersProduct(PairOf(axes, c, d)) == PairOthers(axes, c, d)
    ensures LevelFactor(PairOf(axes, c, d), singleLevel) == PairFactor(axes, c, d, singleLevel)
  {
    var m := PairOf(axes, c, d);
    PairValues(axes, c, d);
    OthersOfPair(m, |m|);
    assert m[..|m|] == m;
    PairFactorOf(m, axes, c, d, singleLevel);
  }

  lemma PairFactorOf(m: seq<Parameter>, axes: seq<Parameter>, c: Corner3, d: Corner3, singleLevel: set<string>)
    requires c.Fits(axes) && d.Fits(axes) && Has(m, "levelist") == Has(axes, "levelist")
    requires ValuesOf(m, "levtype") == Both(axes, "levtype", c.t, d.t)
    requires ValuesOf(m, "levelist") == Both(axes, "levelist", c.l, d.l)
    requires ValuesOf(m, "param") == Both(axes, "param", c.p, d.p)
    ensures LevelFactor(m, singleLevel) == PairFactor(axes, c, d, singleLevel)
  {
    assert Levels(m) == if Has(axes, "levelist") then |Both(axes, "levelist", c.l, d.l)| else 1;
  }

  /** Every axis has a value that is neither "all" nor "any". */
  predicate HasPlainValues(axes: seq<Parameter>) {
    forall i :: 0 <= i < |axes| ==> HasPlain(axes[i])
  }

  predicate HasPlain(p: Parameter) {
    exists j :: 0 <= j < |p.values| && PlainValue(p.values[j])
  }

  /** Two different values, or one that is neither "all" nor "any". */
  predicate PlainPair(axes: seq<Parameter>, name: string, a: nat, b: nat)
    requires Has(axes, name) ==> a < |ValuesOf(axes, name)|
  {
    Has(axes, name) ==> a != b || PlainValue(ValuesOf(axes, name)[a])
  }

  predicate PlainPairs(axes: seq<Parameter>, c: Corner3, d: Corner3)
    requires c.Fits(axes)
  {
    PlainPair(axes, "levtype", c.t, d.t) && PlainPair(axes, "levelist", c.l, d.l) && PlainPair(axes, "param", c.p, d.p)
  }

  lemma PairIsCounted(axes: seq<Parameter>, c: Corner3, d: Corner3, m: seq<Parameter>)
    requires CubeBox(axes) && HasPlainValues(axes) && c.Fits(axes) && d.Fits(axes) && PlainPairs(axes, c, d)
    requires IsPair(axes, c, d, m)
    ensures !HasWild(m)
  {
    forall k | 0 <= k < |m|
      ensures !Wild(m[k])
    {
      FindAt(axes, k);
      PlainAt(axes, c, d, k);
    }
  }

  lemma PlainAt(axes: seq<Parameter>, c: Corner3, d: Corner3, k: nat)
    requires CubeBox(axes) && HasPlainValues(axes) && c.Fits(axes) && d.Fits(axes) && PlainPairs(axes, c, d)
    requires k < |axes| && Find(axes, axes[k].name) == k && c.Of(axes)[k] < |axes[k].values|
    ensures c.Of(axes)[k] != d.Of(axes)[k] || PlainValue(axes[k].values[c.Of(axes)[k]])
  {
  }

  /** What `count` says of the bounding box of two cells. */
  lemma PairCount(axes: seq<Parameter>, c: Corner3, d: Corner3, singleLevel: set<string>)
    requires CubeBox(axes) && HasPlainValues(axes) && c.Fits(axes) && d.Fits(axes) && PlainPairs(axes, c, d)
    ensures CountOf(PairOf(axes, c, d), singleLevel) == PairOthers(axes, c, d) * PairFactor(axes, c, d, singleLevel)
  {
    PairAt(axes, c, d, PairOf(axes, c, d));
    PairIsCounted(axes, c, d, PairOf(axes, c, d));
    PairParts(axes, c, d, singleLevel);
  }

  predicate Mixes(c: Corner3, d: Corner3, e: Corner3) {
    e.t in [c.t, d.t] && e.l in [c.l, d.l] && e.p in [c.p, d.p]
  }

  lemma MixedAt(axes: seq<Parameter>, c: Corner3, d: Corner3, e: Corner3, k: nat)
    requires Mixes(c, d, e) && k < |axes|
    ensures e.Of(axes)[k] == c.Of(axes)[k] || e.Of(axes)[k] == d.Of(axes)[k]
  {
  }

  lemma MixedValue(axes: seq<Parameter>, c: seq<nat>, d: seq<nat>, e: seq<nat>, k: nat)
    requires CubeBox(axes) && WithinAxes(c, axes) && WithinAxes(d, axes) && WithinAxes(e, axes) && k < |axes|
    requires e[k] == c[k] || e[k] == d[k]
    ensures var m, x := MergeParams(PointOf(axes, c), PointOf(axes, d)), PointCell(axes, e);
            k < |m| && m[k].name in x && x[m[k].name] in m[k].values
  {
    PairBox(axes, c, d);
    PointValues(axes, e, k);
  }

  lemma MixedBox(axes: seq<Parameter>, c: seq<nat>, d: seq<nat>, e: seq<nat>)
    requires CubeBox(axes) && WithinAxes(c, axes) && WithinAxes(d, axes) && WithinAxes(e, axes)
    requires forall k :: 0 <= k < |axes| ==> e[k] == c[k] || e[k] == d[k]
    ensures PointCell(axes, e) in Cells(MergeParams(PointOf(axes, c), PointOf(axes, d)))
  {
    var m, x := MergeParams(PointOf(axes, c), PointOf(axes, d)), PointCell(axes, e);
    assert CubeBox(m) && Names(m) == Names(axes) by {
      PairBox(axes, c, d);
      SameNames(m, axes);
    }
    forall k | 0 <= k < |m|
      ensures m[k].name in x && x[m[k].name] in m[k].values
    {
      MixedValue(axes, c, d, e, k);
    }
    CellsAreTheBox(m, x);
  }

  /** Every cell mixed from two cells is in their bounding box. */
  lemma MixedInPair(axes: seq<Parameter>, c: Corner3, d: Corner3, e: Corner3)
    requires CubeBox(axes) && c.Fits(axes) && d.Fits(axes) && e.Fits(axes) && Mixes(c, d, e)
    ensures WithinAxes(e.Of(axes), axes)
    ensures PointCell(axes, e.Of(axes)) in Cells(PairOf(axes, c, d))
  {
    CornerWithin(axes, e.t, e.l, e.p);
    CornerWithin(axes, c.t, c.l, c.p);
    CornerWithin(axes, d.t, d.l, d.p);
    forall k | 0 <= k < |axes|
      ensures e.Of(axes)[k] == c.Of(axes)[k] || e.Of(axes)[k] == d.Of(axes)[k]
    {
      MixedAt(axes, c, d, e, k);
    }
    MixedBox(axes, c.Of(axes), d.Of(axes), e.Of(axes));
  }

  // ---- lost and invented fields ---------------------------------------------------------

  /** `request` denotes exactly the fields it was given. */
  ghost predicate Exactly(shape: Shape, idxs: set<nat>, u: Universe)
    requires shape.Valid() && shape.Indices(idxs) && idxs != {}
  {
    UnionOf(Family(Compact(shape, idxs), u)) == CellsAt(shape, idxs)
  }

  lemma OneFamily(p: Piece, u: Universe)
    ensures UnionOf(Family([p], u)) == FieldsOf(p, u)
  {
    assert Family([p], u) == [FieldsOf(p, u)];
    assert UnionOf([FieldsOf(p, u)]) == FieldsOf(p, u);
  }

  lemma FewerFields(p: Piece, x: Cell, s: set<Cell>, u: Universe)
    requires Cells(p.request.params) == {x} && |s| > 1
    ensures UnionOf(Family([p], u)) != s
  {
    OneFamily(p, u);
    SubsetSize(FieldsOf(p, u), {x});
  }

  lemma Survivor(p: Piece, q: Piece, x: Cell, s: set<Cell>, singleLevel: set<string>, u: Universe)
    requires RelationOf(p, q, singleLevel) == Embedded && Cells(p.request.params) == {x} && |s| > 1
    ensures UnionOf(Family(Settle([p, q], singleLevel), u)) != s
  {
    SettleEmbedded(p, q, singleLevel);
    FewerFields(p, x, s, u);
  }

  lemma LostOrdered(shape: Shape, a: nat, b: nat, s: set<Cell>, u: Universe)
    requires shape.Valid() && CubeBox(shape.axes) && a < |shape.cells| && b < |shape.cells| && |s| > 1
    requires RelationOf(PieceOf(shape, a), PieceOf(shape, b), shape.singleLevel) == Embedded
    ensures UnionOf(Family(Settle([PieceOf(shape, a), PieceOf(shape, b)], shape.singleLevel), u)) != s
  {
    PointCells(shape.axes, shape.cells[a]);
    Survivor(PieceOf(shape, a), PieceOf(shape, b), PointCell(shape.axes, shape.cells[a]), s, shape.singleLevel, u);
  }

  /** Counted as one cell: one of the two fields is lost. */
  lemma Lost(shape: Shape, i: nat, j: nat, u: Universe)
    requires shape.Valid() && CubeBox(shape.axes) && i < |shape.cells| && j < |shape.cells| && i != j
    requires RelationOf(PieceOf(shape, i), PieceOf(shape, j), shape.singleLevel) == Embedded
    requires RelationOf(PieceOf(shape, j), PieceOf(shape, i), shape.singleLevel) == Embedded
    ensures !Exactly(shape, {i, j}, u)
  {
    var a, b := CompactPair(shape, i, j);
    PairSize(i, j);
    LostFrom(shape, {i, j}, i, j, a, b, u);
  }

  lemma LostFrom(shape: Shape, idxs: set<nat>, i: nat, j: nat, a: nat, b: nat, u: Universe)
    requires shape.Valid() && CubeBox(shape.axes) && i < |shape.cells| && j < |shape.cells|
    requires shape.Indices(idxs) && |idxs| > 1
    requires (a == i && b == j) || (a == j && b == i)
    requires Compact(shape, idxs) == Settle([PieceOf(shape, a), PieceOf(shape, b)], shape.singleLevel)
    requires RelationOf(PieceOf(shape, i), PieceOf(shape, j), shape.singleLevel) == Embedded
    requires RelationOf(PieceOf(shape, j), PieceOf(shape, i), shape.singleLevel) == Embedded
    ensures !Exactly(shape, idxs, u)
  {
    CellsAtSize(shape, idxs);
    LostBoth(shape, i, j, CellsAt(shape, idxs), u);
  }

  lemma LostBoth(shape: Shape, i: nat, j: nat, s: set<Cell>, u: Universe)
    requires shape.Valid() && CubeBox(shape.axes) && i < |shape.cells| && j < |shape.cells| && |s| > 1
    requires RelationOf(PieceOf(shape, i), PieceOf(shape, j), shape.singleLevel) == Embedded
    requires RelationOf(PieceOf(shape, j), PieceOf(shape, i), shape.singleLevel) == Embedded
    ensures UnionOf(Family(Settle([PieceOf(shape, i), PieceOf(shape, j)], shape.singleLevel), u)) != s
    ensures UnionOf(Family(Settle([PieceOf(shape, j), PieceOf(shape, i)], shape.singleLevel), u)) != s
  {
    LostOrdered(shape, i, j, s, u);
    LostOrdered(shape, j, i, s, u);
  }

  /** Counted as two cells, but holding another field: that field is invented. */
  lemma Invented(shape: Shape, i: nat, j: nat, x: Cell, u: Universe)
    requires shape.Valid() && CubeBox(shape.axes) && i < |shape.cells| && j < |shape.cells| && i != j
    requires RelationOf(PieceOf(shape, i), PieceOf(shape, j), shape.singleLevel) == Adjacent
    requires RelationOf(PieceOf(shape, j), PieceOf(shape, i), shape.singleLevel) == Adjacent
    requires x in FieldsOf(MergePiece(PieceOf(shape, i), PieceOf(shape, j)), u)
    requires x in FieldsOf(MergePiece(PieceOf(shape, j), PieceOf(shape, i)), u)
    requires x !in CellsAt(shape, {i, j})
    ensures !Exactly(shape, {i, j}, u)
  {
    var a, b := CompactPair(shape, i, j);
    SettleTwo(PieceOf(shape, a), PieceOf(shape, b), shape.singleLevel);
    OneFamily(MergePiece(PieceOf(shape, a), PieceOf(shape, b)), u);
  }

  // ---- the exact limit ------------------------------------------------------------------

  /** The cube has every cell and distinct values, and every axis has a value that is neither "all" nor "any". */
  ghost predicate Whole(shape: Shape, u: Universe) {
    && shape.Valid() && shape.Complete()
    && CubeBox(shape.axes) && HasPlainValues(shape.axes)
    && u.singleLevel == shape.singleLevel && PlainTable(u.singleLevel)
  }

  /** The table of single-level params holds neither "all" nor "any". */
  predicate PlainTable(singleLevel: set<string>) {
    forall v :: v in singleLevel ==> PlainValue(v)
  }

  /** The number of a cell. */
  ghost function NumberOf(shape: Shape, c: Corner3): (i: nat)
    requires Whole(shape, Universe(shape.singleLevel, true)) && c.Fits(shape.axes)
    ensures i < |shape.cells| && shape.cells[i] == c.Of(shape.axes)
  {
    CornerWithin(shape.axes, c.t, c.l, c.p);
    shape.number[c.Of(shape.axes)]
  }

  lemma PairRelation(shape: Shape, i: nat, c: Corner3, j: nat, d: Corner3)
    requires shape.Valid() && CubeBox(shape.axes) && HasPlainValues(shape.axes)
    requires c.Fits(shape.axes) && d.Fits(shape.axes) && PlainPairs(shape.axes, c, d)
    requires i < |shape.cells| && shape.cells[i] == c.Of(shape.axes)
    requires j < |shape.cells| && shape.cells[j] == d.Of(shape.axes)
    ensures RelationOf(PieceOf(shape, i), PieceOf(shape, j), shape.singleLevel) ==
            var n := PairOthers(shape.axes, c, d) * PairFactor(shape.axes, c, d, shape.singleLevel);
            if n == 1 then Embedded else if n == 2 then Adjacent else Disjoint
  {
    PairCount(shape.axes, c, d, shape.singleLevel);
  }

  /** Some non-empty set of fields is not given back exactly. */
  ghost predicate Fails(shape: Shape, u: Universe) {
    exists idxs: set<nat> :: AreFields(shape, idxs, u) && idxs != {} && !Exactly(shape, idxs, u)
  }

  lemma FailsAt(shape: Shape, idxs: set<nat>, u: Universe)
    requires AreFields(shape, idxs, u) && idxs != {} && !Exactly(shape, idxs, u)
    ensures Fails(shape, u)
  {
  }

  ghost predicate FieldAt(shape: Shape, c: Corner3, u: Universe)
    requires Whole(shape, u) && c.Fits(shape.axes)
  {
    CornerWithin(shape.axes, c.t, c.l, c.p);
    u.Field(PointCell(shape.axes, c.Of(shape.axes)))
  }

  lemma IndexOfCell(shape: Shape, idxs: set<nat>, x: Cell) returns (i: nat)
    requires shape.Valid() && shape.Indices(idxs) && x in CellsAt(shape, idxs)
    ensures i in idxs && x == PointCell(shape.axes, shape.cells[i])
  {
    i :| i in idxs && x == PointCell(shape.axes, shape.cells[i]);
  }

  lemma PairAreFields(shape: Shape, i: nat, c: Corner3, j: nat, d: Corner3, u: Universe)
    requires Whole(shape, u) && c.Fits(shape.axes) && d.Fits(shape.axes) && FieldAt(shape, c, u) && FieldAt(shape, d, u)
    requires i < |shape.cells| && shape.cells[i] == c.Of(shape.axes)
    requires j < |shape.cells| && shape.cells[j] == d.Of(shape.axes)
    ensures AreFields(shape, {i, j}, u)
  {
    CornerWithin(shape.axes, c.t, c.l, c.p);
    CornerWithin(shape.axes, d.t, d.l, d.p);
    FieldsPair(shape, i, j, u);
  }

  lemma FieldsPair(shape: Shape, i: nat, j: nat, u: Universe)
    requires shape.Valid() && i < |shape.cells| && j < |shape.cells|
    requires u.Field(PointCell(shape.axes, shape.cells[i])) && u.Field(PointCell(shape.axes, shape.cells[j]))
    ensures AreFields(shape, {i, j}, u)
  {
    forall x | x in CellsAt(shape, {i, j})
      ensures u.Field(x)
    {
      OneOfTwo(shape, {i, j}, i, j, x);
    }
  }

  lemma OneOfTwo(shape: Shape, idxs: set<nat>, i: nat, j: nat, x: Cell)
    requires shape.Valid() && shape.Indices(idxs) && x in CellsAt(shape, idxs)
    requires i < |shape.cells| && j < |shape.cells| && forall k :: k in idxs ==> k == i || k == j
    ensures x == PointCell(shape.axes, shape.cells[i]) || x == PointCell(shape.axes, shape.cells[j])
  {
    var k := IndexOfCell(shape, idxs, x);
  }

  /** Whichever comes first, the two cells count as `n`. */
  predicate CountsAs(shape: Shape, c: Corner3, d: Corner3, n: nat)
    requires c.Fits(shape.axes) && d.Fits(shape.axes)
  {
    && PairOthers(shape.axes, c, d) * PairFactor(shape.axes, c, d, shape.singleLevel) == n
    && PairOthers(shape.axes, d, c) * PairFactor(shape.axes, d, c, shape.singleLevel) == n
  }

  lemma BothRelations(shape: Shape, i: nat, c: Corner3, j: nat, d: Corner3, n: nat)
    requires shape.Valid() && CubeBox(shape.axes) && HasPlainValues(shape.axes)
    requires c.Fits(shape.axes) && d.Fits(shape.axes) && CountsAs(shape, c, d, n)
    requires PlainPairs(shape.axes, c, d) && PlainPairs(shape.axes, d, c)
    requires i < |shape.cells| && shape.cells[i] == c.Of(shape.axes)
    requires j < |shape.cells| && shape.cells[j] == d.Of(shape.axes)
    ensures RelationOf(PieceOf(shape, i), PieceOf(shape, j), shape.singleLevel)
            == RelationOf(PieceOf(shape, j), PieceOf(shape, i), shape.singleLevel)
            == if n == 1 then Embedded else if n == 2 then Adjacent else Disjoint
  {
    PairRelation(shape, i, c, j, d);
    PairRelation(shape, j, d, i, c);
  }

  lemma LosesPair(shape: Shape, c: Corner3, d: Corner3, u: Universe)
    requires Whole(shape, u) && c.Fits(shape.axes) && d.Fits(shape.axes) && c.Of(shape.axes) != d.Of(shape.axes)
    requires FieldAt(shape, c, u) && FieldAt(shape, d, u) && CountsAs(shape, c, d, 1)
    requires PlainPairs(shape.axes, c, d) && PlainPairs(shape.axes, d, c)
    ensures Fails(shape, u)
  {
    var i, j := NumberOf(shape, c), NumberOf(shape, d);
    PairAreFields(shape, i, c, j, d, u);
    BothRelations(shape, i, c, j, d, 1);
    Lost(shape, i, j, u);
    FailsAt(shape, {i, j}, u);
  }

  lemma InventsIn(shape: Shape, i: nat, c: Corner3, j: nat, d: Corner3, k: nat, e: Corner3, u: Universe)
    requires Whole(shape, u) && c.Fits(shape.axes) && d.Fits(shape.axes) && e.Fits(shape.axes)
    requires i < |shape.cells| && shape.cells[i] == c.Of(shape.axes)
    requires j < |shape.cells| && shape.cells[j] == d.Of(shape.axes)
    requires k < |shape.cells| && shape.cells[k] == e.Of(shape.axes)
    requires Mixes(c, d, e) && FieldAt(shape, e, u)
    ensures PointCell(shape.axes, shape.cells[k]) in FieldsOf(MergePiece(PieceOf(shape, i), PieceOf(shape, j)), u)
  {
    MixedInPair(shape.axes, c, d, e);
  }

  lemma Elsewhere(shape: Shape, i: nat, j: nat, k: nat)
    requires shape.Valid() && CubeBox(shape.axes) && i < |shape.cells| && j < |shape.cells| && k < |shape.cells|
    requires k != i && k != j
    ensures PointCell(shape.axes, shape.cells[k]) !in CellsAt(shape, {i, j})
  {
    var x := PointCell(shape.axes, shape.cells[k]);
    if x in CellsAt(shape, {i, j}) {
      var m := IndexOfCell(shape, {i, j}, x);
      SameNumber(shape, k, m);
    }
  }

  lemma SameNumber(shape: Shape, i: nat, j: nat)
    requires shape.Valid() && CubeBox(shape.axes) && i < |shape.cells| && j < |shape.cells|
    requires PointCell(shape.axes, shape.cells[i]) == PointCell(shape.axes, shape.cells[j])
    ensures i == j
  {
    if i != j {
      NumbersDiffer(shape, i, j);
    }
  }

  lemma InventsPair(shape: Shape, c: Corner3, d: Corner3, e: Corner3, u: Universe)
    requires Whole(shape, u) && c.Fits(shape.axes) && d.Fits(shape.axes) && e.Fits(shape.axes)
    requires c.Of(shape.axes) != d.Of(shape.axes) && e.Of(shape.axes) != c.Of(shape.axes)
             && e.Of(shape.axes) != d.Of(shape.axes)
    requires FieldAt(shape, c, u) && FieldAt(shape, d, u) && FieldAt(shape, e, u)
    requires CountsAs(shape, c, d, 2) && Mixes(c, d, e)
    requires PlainPairs(shape.axes, c, d) && PlainPairs(shape.axes, d, c)
    ensures Fails(shape, u)
  {
    var i, j, k := NumberOf(shape, c), NumberOf(shape, d), NumberOf(shape, e);
    PairAreFields(shape, i, c, j, d, u);
    BothRelations(shape, i, c, j, d, 2);
    InventsAt(shape, i, c, j, d, k, e, u);
    FailsAt(shape, {i, j}, u);
  }

  lemma InventsAt(shape: Shape, i: nat, c: Corner3, j: nat, d: Corner3, k: nat, e: Corner3, u: Universe)
    requires Whole(shape, u) && c.Fits(shape.axes) && d.Fits(shape.axes) && e.Fits(shape.axes)
    requires i < |shape.cells| && shape.cells[i] == c.Of(shape.axes)
    requires j < |shape.cells| && shape.cells[j] == d.Of(shape.axes)
    requires k < |shape.cells| && shape.cells[k] == e.Of(shape.axes)
    requires i != j && k != i && k != j && Mixes(c, d, e) && FieldAt(shape, e, u)
    requires RelationOf(PieceOf(shape, i), PieceOf(shape, j), shape.singleLevel) == Adjacent
    requires RelationOf(PieceOf(shape, j), PieceOf(shape, i), shape.singleLevel) == Adjacent
    ensures !Exactly(shape, {i, j}, u)
  {
    InventsIn(shape, i, c, j, d, k, e, u);
    InventsIn(shape, j, d, i, c, k, e, u);
    Elsewhere(shape, i, j, k);
    Invented(shape, i, j, PointCell(shape.axes, shape.cells[k]), u);
  }

  // ---- the failing cubes ----------------------------------------------------------------

  /** Where a value stands. */
  lemma At(values: seq<string>, v: string) returns (k: nat)
    requires v in values
    ensures k < |values| && values[k] == v
  {
    k :| 0 <= k < |values| && values[k] == v;
  }

  lemma CornerValues(shape: Shape, c: Corner3, u: Universe)
    requires Whole(shape, u) && c.Fits(shape.axes)
    ensures FieldAt(shape, c, u) <==>
            || u.all
            || !Has(shape.axes, "levtype") || ValuesOf(shape.axes, "levtype")[c.t] != "ml"
            || !Has(shape.axes, "param") || ValuesOf(shape.axes, "param")[c.p] !in u.singleLevel
            || (Has(shape.axes, "levelist") && ValuesOf(shape.axes, "levelist")[c.l] == "1")
  {
    CornerWithin(shape.axes, c.t, c.l, c.p);
    CornerValue(shape.axes, c, "levtype");
    CornerValue(shape.axes, c, "param");
    CornerValue(shape.axes, c, "levelist");
  }

  lemma CornerValue(axes: seq<Parameter>, c: Corner3, name: string)
    requires CubeBox(axes) && c.Fits(axes) && WithinAxes(c.Of(axes), axes) && name in ["levtype", "param", "levelist"]
    ensures var x := PointCell(axes, c.Of(axes));
            && (name in x <==> Has(axes, name))
            && (Has(axes, name) ==>
                  x[name] == ValuesOf(axes, name)[
                    if name == "levtype" then c.t else if name == "param" then c.p else c.l])
  {
    if name in Names(axes) {
      NameAt(axes, name);
    }
  }

  lemma CornersDiffer(axes: seq<Parameter>, c: Corner3, d: Corner3)
    requires CubeBox(axes)
    requires (Has(axes, "levtype") && c.t != d.t) || (Has(axes, "levelist") && c.l != d.l)
             || (Has(axes, "param") && c.p != d.p)
    ensures c.Of(axes) != d.Of(axes)
  {
    var k := if Has(axes, "levtype") && c.t != d.t then Find(axes, "levtype")
             else if Has(axes, "levelist") && c.l != d.l then Find(axes, "levelist") else Find(axes, "param");
    assert c.Of(axes)[k] != d.Of(axes)[k];
  }

  /** No param and two levels or more: a level is lost. */
  lemma NoParamFails(shape: Shape, u: Universe)
    requires Whole(shape, u) && ValuesOf(shape.axes, "param") == [] && |ValuesOf(shape.axes, "levelist")| > 1
    ensures Fails(shape, u)
  {
    var axes := shape.axes;
    var t := FirstPlain(ValuesOf(axes, "levtype"));
    var c, d := Corner3(t, 0, 0), Corner3(t, 1, 0);
    assert !Has(axes, "param") && Has(axes, "levelist");
    CornerValues(shape, c, u);
    CornerValues(shape, d, u);
    CornersDiffer(axes, c, d);
    LosesPair(shape, c, d, u);
  }

  lemma CountTwo(values: seq<string>, a: nat, b: nat, among: set<string>)
    requires a < |values| && b < |values|
    ensures CountIn(Two(values, a, b), among) ==
            (if values[a] in among then 1 else 0) + (if a != b && values[b] in among then 1 else 0)
  {
    if a == b {
      assert [values[a]][..0] == [];
    } else {
      assert [values[a], values[b]][..1] == [values[a]];
      assert [values[a]][..0] == [];
    }
  }

  /** A value other than `v`, when there is more than `v`. */
  lemma Other(values: seq<string>, v: string) returns (k: nat)
    requires Distinct(values) && values != [] && values != [v]
    ensures k < |values| && values[k] != v
  {
    k := if values[0] != v then 0 else 1;
  }

  /** A multi-level and a single-level param on the same levels. */
  lemma MixedParams(shape: Shape, u: Universe, tm: nat, t: nat, l: nat, p: nat, q: nat)
    requires Whole(shape, u) && Has(shape.axes, "param") && Has(shape.axes, "levtype")
    requires var levtypes, params := ValuesOf(shape.axes, "levtype"), ValuesOf(shape.axes, "param");
             && tm < |levtypes| && t < |levtypes| && p < |params| && q < |params|
             && levtypes[tm] == "ml" && params[p] in u.singleLevel && params[q] !in u.singleLevel
    requires Has(shape.axes, "levelist") ==>
               l < |ValuesOf(shape.axes, "levelist")| && ValuesOf(shape.axes, "levelist")[l] != "1"
               && PlainValue(ValuesOf(shape.axes, "levelist")[l])
    requires if u.all then t == tm else ValuesOf(shape.axes, "levtype")[t] != "ml"
    ensures Fails(shape, u)
  {
    var axes := shape.axes;
    var c, d, e := Corner3(tm, l, q), Corner3(t, l, p), Corner3(t, l, q);
    CountTwo(ValuesOf(axes, "param"), q, p, u.singleLevel);
    CountTwo(ValuesOf(axes, "param"), p, q, u.singleLevel);
    CornerValues(shape, c, u);
    CornerValues(shape, d, u);
    CornersDiffer(axes, c, d);
    assert PairFactor(axes, c, d, shape.singleLevel) == 1;
    assert PairFactor(axes, d, c, shape.singleLevel) == 1;
    if u.all {
      LosesPair(shape, c, d, u);
    } else {
      CornerValues(shape, e, u);
      CornersDiffer(axes, e, c);
      CornersDiffer(axes, e, d);
      InventsPair(shape, c, d, e, u);
    }
  }

  /** A single-level param at level 1 and at another level: how the two cells count. */
  lemma MixedLevelsCount(shape: Shape, c: Corner3, d: Corner3)
    requires c.Fits(shape.axes) && d.Fits(shape.axes) && c.l != d.l && c.p == d.p
    requires Has(shape.axes, "param") && Has(shape.axes, "levtype") && Has(shape.axes, "levelist")
    requires ValuesOf(shape.axes, "levtype")[c.t] == "ml" && ValuesOf(shape.axes, "param")[c.p] in shape.singleLevel
    requires "1" in [ValuesOf(shape.axes, "levelist")[c.l], ValuesOf(shape.axes, "levelist")[d.l]]
    ensures CountsAs(shape, c, d, if c.t == d.t then 1 else 2)
  {
    var axes := shape.axes;
    CountTwo(ValuesOf(axes, "param"), c.p, c.p, shape.singleLevel);
    assert PairFactor(axes, c, d, shape.singleLevel) == 1;
    assert PairFactor(axes, d, c, shape.singleLevel) == 1;
  }

  lemma MixedLevels(shape: Shape, u: Universe, tm: nat, t: nat, l1: nat, l: nat, p: nat)
    requires Whole(shape, u) && Has(shape.axes, "param") && Has(shape.axes, "levtype") && Has(shape.axes, "levelist")
    requires var levtypes, params := ValuesOf(shape.axes, "levtype"), ValuesOf(shape.axes, "param");
             && tm < |levtypes| && t < |levtypes| && p < |params|
             && levtypes[tm] == "ml" && params[p] in u.singleLevel
    requires var levels := ValuesOf(shape.axes, "levelist");
             l1 < |levels| && l < |levels| && levels[l1] == "1" && levels[l] != "1"
    requires if u.all then t == tm else ValuesOf(shape.axes, "levtype")[t] != "ml"
    ensures Fails(shape, u)
  {
    var axes := shape.axes;
    var c, d, e := Corner3(tm, l1, p), Corner3(t, l, p), Corner3(t, l1, p);
    MixedLevelsCount(shape, c, d);
    CornerValues(shape, c, u);
    CornerValues(shape, d, u);
    CornersDiffer(axes, c, d);
    if u.all {
      LosesPair(shape, c, d, u);
    } else {
      CornerValues(shape, e, u);
      CornersDiffer(axes, e, c);
      CornersDiffer(axes, e, d);
      InventsPair(shape, c, d, e, u);
    }
  }

  /** The mixed params on a level that is neither 1 nor "all" nor "any"; or on level 1 and "all" or "any", where a
      single-level param is enough. */
  lemma MixedParamsOrLevels(shape: Shape, u: Universe, tm: nat, t: nat, p: nat, q: nat)
    requires Whole(shape, u) && Has(shape.axes, "param") && Has(shape.axes, "levtype")
    requires var levtypes, params := ValuesOf(shape.axes, "levtype"), ValuesOf(shape.axes, "param");
             && tm < |levtypes| && t < |levtypes| && p < |params| && q < |params|
             && levtypes[tm] == "ml" && params[p] in u.singleLevel && params[q] !in u.singleLevel
    requires ValuesOf(shape.axes, "levelist") != ["1"]
    requires if u.all then t == tm else ValuesOf(shape.axes, "levtype")[t] != "ml"
    ensures Fails(shape, u)
  {
    var axes, levels := shape.axes, ValuesOf(shape.axes, "levelist");
    if !Has(axes, "levelist") {
      MixedParams(shape, u, tm, t, 0, p, q);
    } else if l :| 0 <= l < |levels| && levels[l] != "1" && PlainValue(levels[l]) {
      MixedParams(shape, u, tm, t, l, p, q);
    } else {
      assert HasPlain(axes[Find(axes, "levelist")]);
      var l1 :| 0 <= l1 < |levels| && PlainValue(levels[l1]);
      var l := Other(levels, "1");
      MixedLevels(shape, u, tm, t, l1, l, p);
    }
  }

  lemma UnfaithfulFails(shape: Shape, u: Universe)
    requires Whole(shape, u) && !Faithful(shape.axes, u)
    ensures Fails(shape, u)
  {
    var axes := shape.axes;
    var params, levels, levtypes := ValuesOf(axes, "param"), ValuesOf(axes, "levelist"), ValuesOf(axes, "levtype");
    if params == [] {
      NoParamFails(shape, u);
    } else {
      var tm := At(levtypes, "ml");
      var t := tm;
      if !u.all {
        t := Other(levtypes, "ml");
      }
      var v :| v in params && v in u.singleLevel;
      var p := At(params, v);
      if AllSingleLevel(params, u) {
        var l1 := At(levels, "1");
        var l := Other(levels, "1");
        MixedLevels(shape, u, tm, t, l1, l, p);
      } else {
        var w :| w in params && w !in u.singleLevel;
        var q := At(params, w);
        MixedParamsOrLevels(shape, u, tm, t, p, q);
      }
    }
  }

  /** An axis whose values are exactly "all" and "any". */
  predicate BothWild(p: Parameter) {
    |p.values| > 1 && !HasPlain(p)
  }

  lemma PlainOrWild(axes: seq<Parameter>)
    requires CubeBox(axes) && !HasWild(axes) && forall i :: 0 <= i < |axes| ==> !BothWild(axes[i])
    ensures HasPlainValues(axes)
  {
    forall i | 0 <= i < |axes|
      ensures HasPlain(axes[i])
    {
      if |axes[i].values| == 1 {
        assert !Wild(axes[i]);
        assert PlainValue(axes[i].values[0]);
      }
    }
  }

  /** The exact limit: `request` gives back exactly what it was given, for every non-empty set of fields of the
      cube, if and only if counting is faithful on the cube or an axis has the one value "all" or "any". */
  lemma ExactlyWhenReliable(shape: Shape, u: Universe)
    requires shape.Valid() && shape.Complete() && CubeBox(shape.axes)
    requires u.singleLevel == shape.singleLevel && PlainTable(u.singleLevel)
    requires forall i :: 0 <= i < |shape.axes| ==> !BothWild(shape.axes[i])
    ensures Reliable(shape.axes, u) <==>
            forall idxs :: AreFields(shape, idxs, u) && idxs != {} ==> Exactly(shape, idxs, u)
  {
    if Reliable(shape.axes, u) {
      forall idxs | AreFields(shape, idxs, u) && idxs != {}
        ensures Exactly(shape, idxs, u)
      {
        RequestIsExact(shape, idxs, u);
      }
    } else {
      PlainOrWild(shape.axes);
      UnfaithfulFails(shape, u);
    }
  }
}
