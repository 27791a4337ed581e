/** The pieces made by `request` cover exactly the cells they were asked to cover. */
module ExactCover {
  import opened Requests
  import opened Fields
  import opened Families
  import opened Compacting

  /** The fields a piece stands for. */
  function FieldsOf(p: Piece, u: Universe): set<Cell> {
    FieldCells(p.request.params, u)
  }

  function Family(pieces: seq<Piece>, u: Universe): (fs: seq<set<Cell>>)
    ensures |fs| == |pieces|
    ensures forall k :: 0 <= k < |fs| ==> fs[k] == FieldsOf(pieces[k], u)
  {
    seq(|pieces|, k requires 0 <= k < |pieces| => FieldsOf(pieces[k], u))
  }

  /** A piece is a box within the cube, and its recorded size is its number of fields. */
  ghost predicate Good(p: Piece, shape: Shape, u: Universe) {
    && CubeBox(p.request.params)
    && SubBox(p.request.params, shape.axes)
    && p.request.verb == shape.verb
    && p.size == |FieldsOf(p, u)|
    && p.size > 0
  }

  ghost predicate AllGood(pieces: seq<Piece>, shape: Shape, u: Universe) {
    forall k :: 0 <= k < |pieces| ==> Good(pieces[k], shape, u)
  }

  /** An exact cover: disjoint boxes of the cube whose fields are exactly `s`. */
  ghost predicate Covers(pieces: seq<Piece>, s: set<Cell>, shape: Shape, u: Universe) {
    && AllGood(pieces, shape, u)
    && PairwiseDisjoint(Family(pieces, u))
    && UnionOf(Family(pieces, u)) == s
  }

  /** The cubes and universes in which counting can be relied on. */
  ghost predicate Sound(shape: Shape, u: Universe) {
    CubeBox(shape.axes) && Reliable(shape.axes, u) && u.singleLevel == shape.singleLevel
  }

  // ---- the bounding box -----------------------------------------------------------------

  lemma BoundingBox(a: seq<Parameter>, b: seq<Parameter>, axes: seq<Parameter>)
    requires CubeBox(a) && CubeBox(b) && SubBox(a, axes) && SubBox(b, axes)
    ensures CubeBox(MergeParams(a, b)) && SubBox(MergeParams(a, b), axes)
    ensures forall i :: 0 <= i < |a| ==> MergeParams(a, b)[i].values == Union(a[i].values, b[i].values)
  {
    var m := MergeParams(a, b);
    forall i | 0 <= i < |a|
      ensures m[i].values == Union(a[i].values, b[i].values)
      ensures Distinct(m[i].values) && m[i].values != []
      ensures forall v :: v in m[i].values ==> v in axes[i].values
    {
      FindAt(b, i);
      InUnion(a[i].values, b[i].values);
      UnionDistinct(a[i].values, b[i].values);
    }
  }

  lemma BoundingBoxCells(a: seq<Parameter>, b: seq<Parameter>, axes: seq<Parameter>)
    requires CubeBox(a) && CubeBox(b) && SubBox(a, axes) && SubBox(b, axes)
    ensures Cells(a) + Cells(b) <= Cells(MergeParams(a, b))
  {
    BoundingBox(a, b, axes);
    var m := MergeParams(a, b);
    forall i | 0 <= i < |a|
      ensures forall v :: v in m[i].values <==> v in a[i].values || v in b[i].values
    {
      InUnion(a[i].values, b[i].values);
    }
    SameNames(a, axes);
    SameNames(b, axes);
    SameNames(m, axes);
    forall c | c in Cells(a) + Cells(b)
      ensures c in Cells(m)
    {
      CellsAreTheBox(a, c);
      CellsAreTheBox(b, c);
      CellsAreTheBox(m, c);
      forall i | 0 <= i < |m|
        ensures c[m[i].name] in m[i].values
      {
        assert m[i].name == a[i].name == b[i].name;
      }
    }
  }

  lemma SameNames(a: seq<Parameter>, axes: seq<Parameter>)
    requires SubBox(a, axes)
    ensures Names(a) == Names(axes)
  {
    forall i | 0 <= i < |a|
      ensures a[i].name in Names(axes) && axes[i].name in Names(a)
    {
      assert a[i].name == axes[i].name;
    }
  }

  /** What counting says of the bounding box of two pieces. */
  lemma BoundingPiece(a: Piece, b: Piece, shape: Shape, u: Universe)
    requires Sound(shape, u) && Good(a, shape, u) && Good(b, shape, u)
    ensures var m := MergeParams(a.request.params, b.request.params);
            && CubeBox(m)
            && SubBox(m, shape.axes)
            && FieldsOf(a, u) + FieldsOf(b, u) <= FieldCells(m, u)
            && (CountOf(m, shape.singleLevel) == 0 || CountOf(m, shape.singleLevel) == |FieldCells(m, u)|)
  {
    var m := MergeParams(a.request.params, b.request.params);
    BoundingBox(a.request.params, b.request.params, shape.axes);
    BoundingBoxCells(a.request.params, b.request.params, shape.axes);
    ReliableSub(m, shape.axes, u);
    ReliableCount(m, u);
  }

  lemma SizesDecide<T>(a: set<T>, b: set<T>, m: set<T>, n: nat)
    requires a !! b && a != {} && b != {} && a + b <= m && (n == 0 || n == |m|)
    ensures n != |a|
    ensures n == |a| + |b| ==> m == a + b
  {
    assert |a + b| == |a| + |b|;
    SubsetSize(a + b, m);
  }

  /** Counting decides: for disjoint pieces the bounding box is never as small as one of them, and
      when it is as large as both it has nothing else. */
  lemma CountingDecides(a: Piece, b: Piece, shape: Shape, u: Universe)
    requires Sound(shape, u) && Good(a, shape, u) && Good(b, shape, u) && FieldsOf(a, u) !! FieldsOf(b, u)
    ensures RelationOf(a, b, shape.singleLevel) != Embedded
    ensures RelationOf(a, b, shape.singleLevel) == Adjacent ==>
              && Good(MergePiece(a, b), shape, u)
              && FieldsOf(MergePiece(a, b), u) == FieldsOf(a, u) + FieldsOf(b, u)
  {
    var m := MergeParams(a.request.params, b.request.params);
    BoundingPiece(a, b, shape, u);
    CountSays(a, b, FieldsOf(a, u), FieldsOf(b, u), FieldCells(m, u), shape.singleLevel);
    if RelationOf(a, b, shape.singleLevel) == Adjacent {
      MergedIsGood(a, b, shape, u);
    }
  }

  lemma CountSays(a: Piece, b: Piece, s: set<Cell>, t: set<Cell>, box: set<Cell>, singleLevel: set<string>)
    requires s !! t && s + t <= box && a.size == |s| > 0 && b.size == |t| > 0
    requires var n := CountOf(MergeParams(a.request.params, b.request.params), singleLevel); n == 0 || n == |box|
    ensures RelationOf(a, b, singleLevel) != Embedded
    ensures RelationOf(a, b, singleLevel) == Adjacent ==> box == s + t
  {
    SizesDecide(s, t, box, CountOf(MergeParams(a.request.params, b.request.params), singleLevel));
  }

  lemma MergedIsGood(a: Piece, b: Piece, shape: Shape, u: Universe)
    requires Good(a, shape, u) && Good(b, shape, u) && FieldsOf(a, u) !! FieldsOf(b, u)
    requires FieldsOf(MergePiece(a, b), u) == FieldsOf(a, u) + FieldsOf(b, u)
    requires CubeBox(MergePiece(a, b).request.params) && SubBox(MergePiece(a, b).request.params, shape.axes)
    ensures Good(MergePiece(a, b), shape, u)
  {
    DisjointUnionSize(FieldsOf(a, u), FieldsOf(b, u), FieldsOf(MergePiece(a, b), u));
  }

  // ---- mergeLast ------------------------------------------------------------------------

  lemma CoverParts(pieces: seq<Piece>, i: nat, j: nat, s: set<Cell>, shape: Shape, u: Universe)
    requires Covers(pieces, s, shape, u) && i < j < |pieces|
    ensures Good(pieces[i], shape, u) && Good(pieces[j], shape, u)
    ensures FieldsOf(pieces[i], u) !! FieldsOf(pieces[j], u)
  {
    assert Family(pieces, u)[i] !! Family(pieces, u)[j];
  }

  /** No piece of an exact cover is ever found embedded in another. */
  lemma NeverEmbedded(pieces: seq<Piece>, s: set<Cell>, shape: Shape, u: Universe)
    requires Sound(shape, u) && pieces != [] && Covers(pieces, s, shape, u)
    ensures Embedded !in Relations(pieces, shape.singleLevel)
    ensures !SearchUpTo(pieces, Relations(pieces, shape.singleLevel), |pieces| - 1).Absorbed?
  {
    var last := |pieces| - 1;
    forall k | 0 <= k < last
      ensures RelationOf(pieces[k], pieces[last], shape.singleLevel) != Embedded
    {
      CoverParts(pieces, k, last, s, shape, u);
      CountingDecides(pieces[k], pieces[last], shape, u);
    }
  }

  lemma ReplaceGood(pieces: seq<Piece>, k: nat, m: Piece, shape: Shape, u: Universe)
    requires AllGood(pieces, shape, u) && k < |pieces| - 1 && Good(m, shape, u)
    ensures AllGood(pieces[..|pieces| - 1][k := m], shape, u)
  {
    var r := pieces[..|pieces| - 1][k := m];
    forall i | 0 <= i < |r|
      ensures Good(r[i], shape, u)
    {
      assert r[i] == if i == k then m else pieces[i];
    }
  }

  lemma ReplaceFamily(pieces: seq<Piece>, k: nat, m: Piece, u: Universe)
    requires PairwiseDisjoint(Family(pieces, u)) && k < |pieces| - 1
    requires FieldsOf(m, u) == FieldsOf(pieces[k], u) + FieldsOf(pieces[|pieces| - 1], u)
    ensures var r := Family(pieces[..|pieces| - 1][k := m], u);
            PairwiseDisjoint(r) && UnionOf(r) == UnionOf(Family(pieces, u))
  {
    var last := |pieces| - 1;
    var fs := Family(pieces, u);
    Absorb(fs, k);
    assert Family(pieces[..last][k := m], u) == fs[..last][k := fs[k] + fs[last]];
  }

  lemma ReplaceCovers(pieces: seq<Piece>, k: nat, m: Piece, s: set<Cell>, shape: Shape, u: Universe)
    requires Covers(pieces, s, shape, u) && k < |pieces| - 1 && Good(m, shape, u)
    requires FieldsOf(m, u) == FieldsOf(pieces[k], u) + FieldsOf(pieces[|pieces| - 1], u)
    ensures Covers(pieces[..|pieces| - 1][k := m], s, shape, u)
  {
    ReplaceGood(pieces, k, m, shape, u);
    ReplaceFamily(pieces, k, m, u);
  }

  /** `mergeLast` keeps an exact cover. */
  lemma MergeLastCovers(pieces: seq<Piece>, s: set<Cell>, shape: Shape, u: Universe)
    requires Sound(shape, u) && pieces != [] && Covers(pieces, s, shape, u)
    ensures Covers(MergeLast(pieces, shape.singleLevel).1, s, shape, u)
  {
    var last := |pieces| - 1;
    NeverEmbedded(pieces, s, shape, u);
    match SearchUpTo(pieces, Relations(pieces, shape.singleLevel), last)
    case Nothing =>
    case Best(k, _) =>
      CoverParts(pieces, k, last, s, shape, u);
      CountingDecides(pieces[k], pieces[last], shape, u);
      ReplaceCovers(pieces, k, MergePiece(pieces[k], pieces[last]), s, shape, u);
  }

  lemma {:induction false} SettleCovers(pieces: seq<Piece>, s: set<Cell>, shape: Shape, u: Universe)
    requires Sound(shape, u) && pieces != [] && Covers(pieces, s, shape, u)
    ensures Covers(Settle(pieces, shape.singleLevel), s, shape, u)
    decreases |pieces|
  {
    MergeLastCovers(pieces, s, shape, u);
    var (merged, rest) := MergeLast(pieces, shape.singleLevel);
    if merged {
      SettleCovers(rest, s, shape, u);
    }
  }

  lemma FamilyAppend(a: seq<Piece>, b: seq<Piece>, u: Universe)
    ensures Family(a + b, u) == Family(a, u) + Family(b, u)
  {
  }

  lemma GoodAppend(a: seq<Piece>, b: seq<Piece>, shape: Shape, u: Universe)
    requires AllGood(a, shape, u) && AllGood(b, shape, u)
    ensures AllGood(a + b, shape, u)
  {
  }

  lemma AppendCovers(a: seq<Piece>, s: set<Cell>, b: seq<Piece>, t: set<Cell>, shape: Shape, u: Universe)
    requires Covers(a, s, shape, u) && Covers(b, t, shape, u) && s !! t
    ensures Covers(a + b, s + t, shape, u)
  {
    FamilyAppend(a, b, u);
    UnionAppend(Family(a, u), Family(b, u));
    DisjointAppend(Family(a, u), Family(b, u));
    GoodAppend(a, b, shape, u);
  }

  // ---- request --------------------------------------------------------------------------

  /** The cell with these coordinates. */
  function PointCell(axes: seq<Parameter>, coords: seq<nat>): Cell
    requires WithinAxes(coords, axes)
  {
    map name | name in Names(axes) :: var k := Find(axes, name); axes[k].values[coords[k]]
  }

  function CellsAt(shape: Shape, idxs: set<nat>): set<Cell>
    requires shape.Valid() && shape.Indices(idxs)
  {
    set i | i in idxs :: PointCell(shape.axes, shape.cells[i])
  }

  lemma PointIsBox(axes: seq<Parameter>, coords: seq<nat>)
    requires CubeBox(axes) && WithinAxes(coords, axes)
    ensures CubeBox(PointOf(axes, coords)) && SubBox(PointOf(axes, coords), axes)
  {
  }

  lemma PointValues(axes: seq<Parameter>, coords: seq<nat>, i: nat)
    requires CubeBox(axes) && WithinAxes(coords, axes) && i < |axes|
    ensures var p, cell := PointOf(axes, coords), PointCell(axes, coords);
            p[i].name == axes[i].name && p[i].name in cell && p[i].values == [cell[p[i].name]]
  {
    FindAt(axes, i);
    assert axes[i].name in Names(axes);
  }

  lemma PointNames(axes: seq<Parameter>, coords: seq<nat>)
    requires CubeBox(axes) && WithinAxes(coords, axes)
    ensures Names(PointOf(axes, coords)) == Names(axes) == PointCell(axes, coords).Keys
  {
    PointIsBox(axes, coords);
    SameNames(PointOf(axes, coords), axes);
  }

  lemma NameAt(axes: seq<Parameter>, name: string)
    requires name in Names(axes)
    ensures Has(axes, name)
  {
  }

  lemma OnlyPointCell(axes: seq<Parameter>, coords: seq<nat>, c: Cell)
    requires CubeBox(axes) && WithinAxes(coords, axes) && InBox(c, PointOf(axes, coords))
    ensures c == PointCell(axes, coords)
  {
    var p, cell := PointOf(axes, coords), PointCell(axes, coords);
    PointNames(axes, coords);
    forall name | name in cell
      ensures c[name] == cell[name]
    {
      OnlyPointValue(axes, coords, c, name);
    }
  }

  lemma OnlyPointValue(axes: seq<Parameter>, coords: seq<nat>, c: Cell, name: string)
    requires CubeBox(axes) && WithinAxes(coords, axes) && InBox(c, PointOf(axes, coords)) && name in Names(axes)
    ensures name in c && c[name] == PointCell(axes, coords)[name]
  {
    var p := PointOf(axes, coords);
    NameAt(axes, name);
    var i := Find(axes, name);
    assert c[p[i].name] in p[i].values;
  }

  lemma PointCellInBox(axes: seq<Parameter>, coords: seq<nat>)
    requires CubeBox(axes) && WithinAxes(coords, axes)
    ensures InBox(PointCell(axes, coords), PointOf(axes, coords))
  {
    var p, cell := PointOf(axes, coords), PointCell(axes, coords);
    PointNames(axes, coords);
    forall i | 0 <= i < |p|
      ensures cell[p[i].name] in p[i].values
    {
      PointValues(axes, coords, i);
    }
  }

  lemma PointCells(axes: seq<Parameter>, coords: seq<nat>)
    requires CubeBox(axes) && WithinAxes(coords, axes)
    ensures Cells(PointOf(axes, coords)) == {PointCell(axes, coords)}
  {
    PointIsBox(axes, coords);
    forall c
      ensures c in Cells(PointOf(axes, coords)) <==> c in {PointCell(axes, coords)}
    {
      CellsAreTheBox(PointOf(axes, coords), c);
      PointCellInBox(axes, coords);
      if InBox(c, PointOf(axes, coords)) {
        OnlyPointCell(axes, coords, c);
      }
    }
  }

  /** Different coordinates, different cells. */
  lemma PointsDiffer(axes: seq<Parameter>, c: seq<nat>, d: seq<nat>, k: nat)
    requires CubeBox(axes) && WithinAxes(c, axes) && WithinAxes(d, axes) && k < |axes| && c[k] != d[k]
    ensures PointCell(axes, c) != PointCell(axes, d)
  {
    FindAt(axes, k);
    assert axes[k].name in Names(axes);
    assert PointCell(axes, c)[axes[k].name] == axes[k].values[c[k]];
    assert PointCell(axes, d)[axes[k].name] == axes[k].values[d[k]];
  }

  /** The cells of these indices are fields. */
  ghost predicate AreFields(shape: Shape, idxs: set<nat>, u: Universe) {
    && shape.Valid()
    && shape.Indices(idxs)
    && forall c :: c in CellsAt(shape, idxs) ==> u.Field(c)
  }

  lemma PieceCovers(p: Piece, s: set<Cell>, shape: Shape, u: Universe)
    requires Good(p, shape, u) && FieldsOf(p, u) == s
    ensures Covers([p], s, shape, u)
  {
    assert Family([p], u) == [s];
    assert UnionOf([s]) == s;
  }

  lemma PointGood(shape: Shape, i: nat, u: Universe)
    requires Sound(shape, u) && shape.Valid() && i < |shape.cells| && u.Field(PointCell(shape.axes, shape.cells[i]))
    ensures Good(Piece(shape.RequestOf(i), 1), shape, u)
    ensures FieldsOf(Piece(shape.RequestOf(i), 1), u) == {PointCell(shape.axes, shape.cells[i])}
  {
    PointIsBox(shape.axes, shape.cells[i]);
    PointCells(shape.axes, shape.cells[i]);
    assert FieldsOf(Piece(shape.RequestOf(i), 1), u) == {PointCell(shape.axes, shape.cells[i])};
  }

  lemma SingleCovers(shape: Shape, i: nat, u: Universe)
    requires Sound(shape, u) && AreFields(shape, {i}, u)
    ensures Covers([Piece(shape.RequestOf(i), 1)], CellsAt(shape, {i}), shape, u)
  {
    assert CellsAt(shape, {i}) == {PointCell(shape.axes, shape.cells[i])};
    PointGood(shape, i, u);
    PieceCovers(Piece(shape.RequestOf(i), 1), CellsAt(shape, {i}), shape, u);
  }

  /** The pieces gathered from the slices cover what the slices cover. */
  lemma {:induction false} GatherCovers(parts: seq<seq<Piece>>, sets: seq<set<Cell>>, shape: Shape, u: Universe)
    requires Sound(shape, u) && |sets| == |parts| && PairwiseDisjoint(sets)
    requires forall i :: 0 <= i < |parts| ==> Covers(parts[i], sets[i], shape, u)
    ensures Covers(Gather(parts, shape.singleLevel), UnionOf(sets), shape, u)
  {
    if parts == [] {
      assert Family([], u) == [];
    } else {
      var n := |parts| - 1;
      var before := Gather(parts[..n], shape.singleLevel);
      GatherCovers(parts[..n], sets[..n], shape, u);
      assert UnionOf(sets[..n]) !! sets[n] by {
        LastIsDisjoint(sets);
      }
      if parts[n] == [] {
        assert sets[n] == {};
      } else {
        AppendCovers(before, UnionOf(sets[..n]), parts[n], sets[n], shape, u);
        SettleCovers(before + parts[n], UnionOf(sets), shape, u);
      }
    }
  }

  lemma FieldsSubset(shape: Shape, idxs: set<nat>, part: set<nat>, u: Universe)
    requires AreFields(shape, idxs, u) && part <= idxs
    ensures AreFields(shape, part, u)
  {
    assert forall c :: c in CellsAt(shape, part) ==> c in CellsAt(shape, idxs);
  }

  /** The slices partition the cells. */
  lemma SlicesPartition(shape: Shape, idxs: set<nat>, axis: nat)
    requires CubeBox(shape.axes) && shape.Valid() && shape.Indices(idxs) && axis < |shape.axes|
    ensures PairwiseDisjoint(SliceCells(shape, idxs, axis))
    ensures UnionOf(SliceCells(shape, idxs, axis)) == CellsAt(shape, idxs)
  {
    var sets := SliceCells(shape, idxs, axis);
    forall a, b, x | 0 <= a < b < |sets| && x in sets[a] && x in sets[b]
      ensures false
    {
      var i :| i in Slice(shape, idxs, axis, a) && x == PointCell(shape.axes, shape.cells[i]);
      var j :| j in Slice(shape, idxs, axis, b) && x == PointCell(shape.axes, shape.cells[j]);
      PointsDiffer(shape.axes, shape.cells[i], shape.cells[j], axis);
    }
    forall x
      ensures x in UnionOf(sets) <==> x in CellsAt(shape, idxs)
    {
      InFamily(sets, x);
      if x in CellsAt(shape, idxs) {
        var i :| i in idxs && x == PointCell(shape.axes, shape.cells[i]);
        assert i in Slice(shape, idxs, axis, shape.cells[i][axis]);
        assert x in sets[shape.cells[i][axis]];
      }
    }
  }

  ghost function SliceCells(shape: Shape, idxs: set<nat>, axis: nat): (sets: seq<set<Cell>>)
    requires shape.Valid() && shape.Indices(idxs) && axis < |shape.axes|
    ensures |sets| == |shape.axes[axis].values|
    ensures forall c :: 0 <= c < |sets| ==> sets[c] == CellsAt(shape, Slice(shape, idxs, axis, c))
  {
    var n := |shape.axes[axis].values|;
    seq(n, c requires 0 <= c < n => CellsAt(shape, Slice(shape, idxs, axis, c)))
  }

  /** `request` covers exactly the cells it was given. */
  lemma {:induction false} CompactCovers(shape: Shape, idxs: set<nat>, u: Universe)
    requires Sound(shape, u) && AreFields(shape, idxs, u) && idxs != {}
    ensures Covers(Compact(shape, idxs), CellsAt(shape, idxs), shape, u)
    decreases |idxs|
  {
    if |idxs| == 1 {
      var i := TheIndex(idxs);
      SubsetSize({i}, idxs);
      SingleCovers(shape, i, u);
    } else {
      AxisExists(shape, idxs);
      var axis := PickAxis(shape, idxs, |shape.axes|).axis;
      var n := |shape.axes[axis].values|;
      var parts := seq(n, c requires 0 <= c < n =>
                       var slice := Slice(shape, idxs, axis, c);
                       if slice == {} then [] else Compact(shape, slice));
      var sets := SliceCells(shape, idxs, axis);
      forall c | 0 <= c < n
        ensures Covers(parts[c], sets[c], shape, u)
      {
        var slice := Slice(shape, idxs, axis, c);
        SliceSmaller(shape, idxs, axis, c);
        FieldsSubset(shape, idxs, slice, u);
        if slice == {} {
          assert Family([], u) == [];
        } else {
          CompactCovers(shape, slice, u);
        }
      }
      SlicesPartition(shape, idxs, axis);
      GatherCovers(parts, sets, shape, u);
    }
  }

  // ---- the theorem ----------------------------------------------------------------------

  lemma NumbersDiffer(shape: Shape, i: nat, j: nat)
    requires CubeBox(shape.axes) && shape.Valid() && i < |shape.cells| && j < |shape.cells| && i != j
    ensures PointCell(shape.axes, shape.cells[i]) != PointCell(shape.axes, shape.cells[j])
  {
    CellsDiffer(shape, i, j);
    var a :| 0 <= a < |shape.axes| && shape.cells[i][a] != shape.cells[j][a];
    PointsDiffer(shape.axes, shape.cells[i], shape.cells[j], a);
  }

  lemma CellsAtSize(shape: Shape, idxs: set<nat>)
    requires CubeBox(shape.axes) && shape.Valid() && shape.Indices(idxs)
    ensures |CellsAt(shape, idxs)| == |idxs|
  {
    var m := map i | i in idxs :: PointCell(shape.axes, shape.cells[i]);
    forall i, j | i in idxs && j in idxs && i != j
      ensures m[i] != m[j]
    {
      NumbersDiffer(shape, i, j);
    }
    ImageSize(idxs, m);
    assert CellsAt(shape, idxs) == Image(idxs, m);
  }

  function SumOfSizes(pieces: seq<Piece>): nat {
    if pieces == [] then 0 else SumOfSizes(pieces[..|pieces| - 1]) + pieces[|pieces| - 1].size
  }

  lemma {:induction false} SizesAddUp(pieces: seq<Piece>, shape: Shape, u: Universe)
    requires AllGood(pieces, shape, u)
    ensures SumOfSizes(pieces) == TotalSize(Family(pieces, u))
  {
    if pieces != [] {
      var n := |pieces| - 1;
      SizesAddUp(pieces[..n], shape, u);
      assert Family(pieces, u)[..n] == Family(pieces[..n], u);
    }
  }

  predicate NoWildValue(ps: seq<Parameter>) {
    forall i, v :: 0 <= i < |ps| && v in ps[i].values ==> v != "all" && v != "any"
  }

  /** For any non-empty set of fields of a cube whose values are distinct and in which counting can
      be relied on: disjoint boxes that denote exactly these fields, with sizes that add up to their
      number; and if no value is "all" or "any" and counting is exact, each size is the box's own count. */
  lemma RequestIsExact(shape: Shape, idxs: set<nat>, u: Universe)
    requires CubeBox(shape.axes) && Reliable(shape.axes, u) && u.singleLevel == shape.singleLevel
    requires AreFields(shape, idxs, u) && idxs != {}
    ensures Covers(Compact(shape, idxs), CellsAt(shape, idxs), shape, u)
    ensures SumOfSizes(Compact(shape, idxs)) == |idxs|
    ensures NoWildValue(shape.axes) && Regular(shape.axes, u) ==>
              forall k :: 0 <= k < |Compact(shape, idxs)| ==>
                var p := Compact(shape, idxs)[k]; p.size == CountOf(p.request.params, shape.singleLevel)
  {
    var pieces := Compact(shape, idxs);
    CompactCovers(shape, idxs, u);
    CellsAtSize(shape, idxs);
    DisjointSize(Family(pieces, u));
    SizesAddUp(pieces, shape, u);
    forall k | 0 <= k < |pieces| && NoWildValue(shape.axes) && Regular(shape.axes, u)
      ensures pieces[k].size == CountOf(pieces[k].request.params, shape.singleLevel)
    {
      OwnCount(pieces[k], shape, u);
    }
  }

  lemma OwnCount(p: Piece, shape: Shape, u: Universe)
    requires Sound(shape, u) && Good(p, shape, u) && NoWildValue(shape.axes) && Regular(shape.axes, u)
    ensures p.size == CountOf(p.request.params, shape.singleLevel)
  {
    NoWildBox(p.request.params, shape.axes);
    FaithfulSub(p.request.params, shape.axes, u);
    RegularCount(p.request.params, u);
  }

  lemma NoWildBox(ps: seq<Parameter>, axes: seq<Parameter>)
    requires SubBox(ps, axes) && NoWildValue(axes)
    ensures !HasWild(ps)
  {
    forall i | 0 <= i < |ps|
      ensures !Wild(ps[i])
    {
      assert |ps[i].values| == 1 ==> ps[i].values[0] in axes[i].values;
    }
  }
}
