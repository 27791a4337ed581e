/** A set of cells that is itself a box comes back as one request. */
module OneRequest {
  import opened Requests
  import opened Fields
  import opened Families
  import opened Compacting
  import opened ExactCover

  /** Counting is the number of fields on every box of the cube. */
  ghost predicate Exact(shape: Shape, u: Universe) {
    Sound(shape, u) && Regular(shape.axes, u) && NoWildValue(shape.axes)
  }

  lemma SettleOne(p: Piece, singleLevel: set<string>)
    ensures Settle([p], singleLevel) == [p]
  {
  }

  lemma SettleTwo(p: Piece, q: Piece, singleLevel: set<string>)
    requires RelationOf(p, q, singleLevel) == Adjacent && p.size + q.size > 0
    ensures Settle([p, q], singleLevel) == [MergePiece(p, q)]
  {
    var pieces, r := [p, q], MergePiece(p, q);
    var relations := Relations(pieces, singleLevel);
    assert relations == [Adjacent];
    assert SearchUpTo(pieces, relations, 0) == Nothing;
    assert SearchUpTo(pieces, relations, 1) == Best(0, p.size + q.size);
    assert pieces[..1][0 := r] == [r];
    assert MergeLast(pieces, singleLevel) == (true, [r]);
    SettleOne(r, singleLevel);
  }

  lemma BoundingCount(p: Piece, q: Piece, shape: Shape, u: Universe)
    requires Exact(shape, u) && Good(p, shape, u) && Good(q, shape, u)
    ensures var m := MergeParams(p.request.params, q.request.params);
            CountOf(m, shape.singleLevel) == |FieldCells(m, u)| && FieldsOf(p, u) + FieldsOf(q, u) <= FieldCells(m, u)
  {
    var m := MergeParams(p.request.params, q.request.params);
    BoundingPiece(p, q, shape, u);
    NoWildBox(m, shape.axes);
    FaithfulSub(m, shape.axes, u);
    RegularCount(m, u);
  }

  lemma CountsToSum(p: Piece, q: Piece, singleLevel: set<string>)
    requires CountOf(MergeParams(p.request.params, q.request.params), singleLevel) == p.size + q.size && q.size > 0
    ensures RelationOf(p, q, singleLevel) == Adjacent
  {
  }

  /** Two disjoint pieces are adjacent when their bounding box has no other field. */
  lemma FillsBoundingBox(p: Piece, q: Piece, shape: Shape, u: Universe)
    requires Exact(shape, u) && Good(p, shape, u) && Good(q, shape, u) && FieldsOf(p, u) !! FieldsOf(q, u)
    requires FieldsOf(MergePiece(p, q), u) <= FieldsOf(p, u) + FieldsOf(q, u)
    ensures RelationOf(p, q, shape.singleLevel) == Adjacent
  {
    BoundingCount(p, q, shape, u);
    DisjointUnionSize(FieldsOf(p, u), FieldsOf(q, u), FieldsOf(MergePiece(p, q), u));
    CountsToSum(p, q, shape.singleLevel);
  }

  /** A piece within `box` whose values along `axis` are among `seen`. */
  ghost predicate Tight(p: Piece, box: seq<Parameter>, axis: nat, seen: set<string>)
    requires axis < |box|
  {
    && SubBox(p.request.params, box)
    && forall v :: v in p.request.params[axis].values ==> v in seen
  }

  lemma MergeTight(p: Piece, q: Piece, box: seq<Parameter>, axis: nat, seen: set<string>, more: set<string>)
    requires CubeBox(p.request.params) && CubeBox(q.request.params) && axis < |box|
    requires Tight(p, box, axis, seen) && Tight(q, box, axis, more)
    ensures Tight(MergePiece(p, q), box, axis, seen + more)
  {
    var a, b := p.request.params, q.request.params;
    BoundingBox(a, b, box);
    InUnion(a[axis].values, b[axis].values);
  }

  /** The fields of a tight piece. */
  lemma TightFields(p: Piece, box: seq<Parameter>, axis: nat, seen: set<string>, u: Universe, c: Cell)
    requires CubeBox(box) && CubeBox(p.request.params) && axis < |box| && Tight(p, box, axis, seen)
             && c in FieldsOf(p, u)
    ensures c in FieldCells(box, u) && box[axis].name in c && c[box[axis].name] in seen
  {
    var a := p.request.params;
    CellsAreTheBox(a, c);
    CellsAreTheBox(box, c);
    SameNames(a, box);
    assert c[a[axis].name] in a[axis].values;
    forall i | 0 <= i < |box|
      ensures c[box[i].name] in box[i].values
    {
      assert c[a[i].name] in a[i].values;
    }
  }

  ghost function Seen(values: seq<string>, n: nat): set<string>
    requires n <= |values|
  {
    set v | v in values[..n]
  }

  /** The fields of `box` with the `i`-th value of the axis. */
  ghost predicate IsSliceOf(s: set<Cell>, box: seq<Parameter>, axis: nat, v: string, u: Universe)
    requires axis < |box|
  {
    forall c :: c in s <==> c in FieldCells(box, u) && box[axis].name in c && c[box[axis].name] == v
  }

  /** What the `i`-th slice gives: at most one piece, and tight. */
  ghost predicate IsPart(part: seq<Piece>, s: set<Cell>, box: seq<Parameter>, axis: nat, i: nat, shape: Shape,
                         u: Universe)
    requires axis < |box| && axis < |shape.axes| && i < |shape.axes[axis].values|
  {
    && Covers(part, s, shape, u)
    && |part| <= 1
    && (part != [] ==> Tight(part[0], box, axis, {shape.axes[axis].values[i]}))
    && IsSliceOf(s, box, axis, shape.axes[axis].values[i], u)
  }

  ghost predicate Parts(parts: seq<seq<Piece>>, sets: seq<set<Cell>>, box: seq<Parameter>, axis: nat,
                        shape: Shape, u: Universe) {
    && CubeBox(box) && SubBox(box, shape.axes) && axis < |box| == |shape.axes|
    && |sets| == |parts| <= |shape.axes[axis].values|
    && PairwiseDisjoint(sets)
    && (forall i :: 0 <= i < |parts| ==> IsPart(parts[i], sets[i], box, axis, i, shape, u))
  }

  /** Every field with a value already seen is in one of the slices. */
  lemma SeenCovered(parts: seq<seq<Piece>>, sets: seq<set<Cell>>, box: seq<Parameter>, axis: nat,
                    shape: Shape, u: Universe, c: Cell)
    requires Parts(parts, sets, box, axis, shape, u)
    requires c in FieldCells(box, u) && box[axis].name in c
    requires c[box[axis].name] in Seen(shape.axes[axis].values, |parts|)
    ensures c in UnionOf(sets)
  {
    var values := shape.axes[axis].values;
    var i :| 0 <= i < |parts| && values[..|parts|][i] == c[box[axis].name];
    assert IsPart(parts[i], sets[i], box, axis, i, shape, u);
    InFamily(sets, c);
  }

  lemma TwoBecomeOne(p: Piece, q: Piece, parts: seq<seq<Piece>>, sets: seq<set<Cell>>, box: seq<Parameter>, axis: nat,
                     seen: set<string>, more: set<string>, shape: Shape, u: Universe)
    requires Exact(shape, u) && Parts(parts, sets, box, axis, shape, u)
    requires Good(p, shape, u) && Good(q, shape, u) && FieldsOf(p, u) !! FieldsOf(q, u)
    requires UnionOf(sets) == FieldsOf(p, u) + FieldsOf(q, u)
    requires seen + more == Seen(shape.axes[axis].values, |parts|)
    requires Tight(p, box, axis, seen) && Tight(q, box, axis, more)
    ensures RelationOf(p, q, shape.singleLevel) == Adjacent
    ensures Tight(MergePiece(p, q), box, axis, seen + more)
  {
    var m := MergePiece(p, q);
    MergeTight(p, q, box, axis, seen, more);
    BoundingPiece(p, q, shape, u);
    forall c | c in FieldsOf(m, u)
      ensures c in FieldsOf(p, u) + FieldsOf(q, u)
    {
      TightFields(m, box, axis, seen + more, u, c);
      SeenCovered(parts, sets, box, axis, shape, u, c);
    }
    FillsBoundingBox(p, q, shape, u);
  }

  lemma PartsPrefix(parts: seq<seq<Piece>>, sets: seq<set<Cell>>, box: seq<Parameter>, axis: nat, n: nat,
                    shape: Shape, u: Universe)
    requires Parts(parts, sets, box, axis, shape, u) && n <= |parts|
    ensures Parts(parts[..n], sets[..n], box, axis, shape, u)
  {
  }

  lemma SeenStep(values: seq<string>, n: nat)
    requires n < |values|
    ensures Seen(values, n + 1) == Seen(values, n) + {values[n]}
  {
    assert values[..n + 1] == values[..n] + [values[n]];
  }

  lemma OnlyPiece(p: Piece, s: set<Cell>, shape: Shape, u: Universe)
    requires Covers([p], s, shape, u)
    ensures Good(p, shape, u) && FieldsOf(p, u) == s
  {
    assert Good([p][0], shape, u);
    assert Family([p], u) == [FieldsOf(p, u)];
    assert UnionOf([FieldsOf(p, u)]) == FieldsOf(p, u);
  }

  /** One more part, when there is a piece already. */
  lemma OneMorePart(parts: seq<seq<Piece>>, sets: seq<set<Cell>>, box: seq<Parameter>, axis: nat, p: Piece, q: Piece,
                    shape: Shape, u: Universe)
    requires Exact(shape, u) && Parts(parts, sets, box, axis, shape, u) && parts != [] && parts[|parts| - 1] == [q]
    requires Covers([p], UnionOf(sets[..|parts| - 1]), shape, u)
    requires Tight(p, box, axis, Seen(shape.axes[axis].values, |parts| - 1))
    ensures RelationOf(p, q, shape.singleLevel) == Adjacent && p.size + q.size > 0
    ensures Tight(MergePiece(p, q), box, axis, Seen(shape.axes[axis].values, |parts|))
  {
    var n := |parts| - 1;
    assert IsPart([q], sets[n], box, axis, n, shape, u) by {
      assert IsPart(parts[n], sets[n], box, axis, n, shape, u);
    }
    LastIsDisjoint(sets);
    TwoPieces(p, UnionOf(sets[..n]), q, sets[n], shape, u);
    SeenStep(shape.axes[axis].values, n);
    TwoBecomeOne(p, q, parts, sets, box, axis, Seen(shape.axes[axis].values, n),
                 {shape.axes[axis].values[n]}, shape, u);
  }

  lemma TwoPieces(p: Piece, s: set<Cell>, q: Piece, t: set<Cell>, shape: Shape, u: Universe)
    requires Covers([p], s, shape, u) && Covers([q], t, shape, u) && s !! t
    ensures Good(p, shape, u) && Good(q, shape, u) && FieldsOf(p, u) !! FieldsOf(q, u)
    ensures s + t == FieldsOf(p, u) + FieldsOf(q, u)
  {
    OnlyPiece(p, s, shape, u);
    OnlyPiece(q, t, shape, u);
  }

  lemma GatherSkips(parts: seq<seq<Piece>>, singleLevel: set<string>)
    requires parts != [] && |parts[|parts| - 1]| == 0
    ensures Gather(parts, singleLevel) == Gather(parts[..|parts| - 1], singleLevel)
  {
  }

  lemma GatherFirst(parts: seq<seq<Piece>>, q: Piece, singleLevel: set<string>)
    requires parts != [] && parts[|parts| - 1] == [q] && Gather(parts[..|parts| - 1], singleLevel) == []
    ensures Gather(parts, singleLevel) == [q]
  {
    assert [] + [q] == [q];
    SettleOne(q, singleLevel);
  }

  lemma GatherMerges(parts: seq<seq<Piece>>, p: Piece, q: Piece, singleLevel: set<string>)
    requires parts != [] && parts[|parts| - 1] == [q] && Gather(parts[..|parts| - 1], singleLevel) == [p]
    requires RelationOf(p, q, singleLevel) == Adjacent && p.size + q.size > 0
    ensures Gather(parts, singleLevel) == [MergePiece(p, q)]
  {
    assert [p] + [q] == [p, q];
    SettleTwo(p, q, singleLevel);
  }

  lemma AtMostOne<T>(s: seq<T>)
    requires |s| <= 1
    ensures s == [] || s == [s[0]]
  {
  }

  /** The parts of a box gather into at most one piece. */
  lemma {:induction false} GatherOne(parts: seq<seq<Piece>>, sets: seq<set<Cell>>, box: seq<Parameter>, axis: nat,
                                     shape: Shape, u: Universe) returns (r: seq<Piece>)
    requires Exact(shape, u) && Parts(parts, sets, box, axis, shape, u)
    ensures r == Gather(parts, shape.singleLevel)
    ensures |r| <= 1 && (r != [] ==> Tight(r[0], box, axis, Seen(shape.axes[axis].values, |parts|)))
  {
    if parts == [] {
      r := [];
    } else {
      var n := |parts| - 1;
      PartsPrefix(parts, sets, box, axis, n, shape, u);
      var before := GatherOne(parts[..n], sets[..n], box, axis, shape, u);
      SeenStep(shape.axes[axis].values, n);
      AtMostOne(before);
      AtMostOne(parts[n]);
      if parts[n] == [] {
        GatherSkips(parts, shape.singleLevel);
        r := before;
      } else if before == [] {
        GatherFirst(parts, parts[n][0], shape.singleLevel);
        r := parts[n];
      } else {
        var p, q := before[0], parts[n][0];
        GatherCovers(parts[..n], sets[..n], shape, u);
        OneMorePart(parts, sets, box, axis, p, q, shape, u);
        GatherMerges(parts, p, q, shape.singleLevel);
        r := [MergePiece(p, q)];
      }
    }
  }

  // ---- the theorem ----------------------------------------------------------------------

  /** The part of a box with one value of the axis. */
  function Fixed(box: seq<Parameter>, axis: nat, v: string): seq<Parameter>
    requires axis < |box|
  {
    box[axis := box[axis].(values := [v])]
  }

  lemma FixedIsBox(box: seq<Parameter>, axis: nat, v: string, u: Universe)
    requires CubeBox(box) && axis < |box| && v in box[axis].values
    ensures CubeBox(Fixed(box, axis, v)) && SubBox(Fixed(box, axis, v), box)
    ensures IsSliceOf(FieldCells(Fixed(box, axis, v), u), box, axis, v, u)
  {
    var name := box[axis].name;
    FindAt(box, axis);
    forall c
      ensures c in Cells(Fixed(box, axis, v)) <==> c in Cells(box) && name in c && c[name] == v
    {
      RestrictCell(box, name, [v], c);
    }
  }

  lemma SubBoxTransitive(a: seq<Parameter>, b: seq<Parameter>, c: seq<Parameter>)
    requires SubBox(a, b) && SubBox(b, c)
    ensures SubBox(a, c)
  {
  }

  lemma FixedIsTight(p: Piece, box: seq<Parameter>, axis: nat, v: string)
    requires axis < |box| && v in box[axis].values && SubBox(p.request.params, Fixed(box, axis, v))
    ensures Tight(p, box, axis, {v})
  {
    var f := Fixed(box, axis, v);
    forall i | 0 <= i < |box|
      ensures p.request.params[i].name == box[i].name
      ensures forall w :: w in p.request.params[i].values ==> w in box[i].values
    {
      assert p.request.params[i].name == f[i].name;
    }
  }

  /** A slice of the cells of a box holds the cells of a slice of the box. */
  lemma SliceOfBox(shape: Shape, idxs: set<nat>, box: seq<Parameter>, axis: nat, c: nat, u: Universe)
    requires CubeBox(shape.axes) && shape.Valid() && shape.Indices(idxs)
    requires CubeBox(box) && SubBox(box, shape.axes) && axis < |box| && c < |shape.axes[axis].values|
    requires CellsAt(shape, idxs) == FieldCells(box, u)
    ensures IsSliceOf(CellsAt(shape, Slice(shape, idxs, axis, c)), box, axis, shape.axes[axis].values[c], u)
  {
    var name, v := box[axis].name, shape.axes[axis].values[c];
    var slice := Slice(shape, idxs, axis, c);
    forall x
      ensures x in CellsAt(shape, slice) <==> x in FieldCells(box, u) && name in x && x[name] == v
    {
      if x in CellsAt(shape, idxs) {
        var i :| i in idxs && x == PointCell(shape.axes, shape.cells[i]);
        ValueAlong(shape, i, axis, c);
        if x in CellsAt(shape, slice) {
          var j :| j in slice && x == PointCell(shape.axes, shape.cells[j]);
          ValueAlong(shape, j, axis, c);
        }
      }
    }
  }

  lemma ValueAlong(shape: Shape, i: nat, axis: nat, c: nat)
    requires CubeBox(shape.axes) && shape.Valid() && i < |shape.cells| && axis < |shape.axes|
             && c < |shape.axes[axis].values|
    ensures var x, name := PointCell(shape.axes, shape.cells[i]), shape.axes[axis].name;
            name in x && (x[name] == shape.axes[axis].values[c] <==> shape.cells[i][axis] == c)
  {
    FindAt(shape.axes, axis);
    assert shape.axes[axis].name in Names(shape.axes);
  }

  /** A point of a box is a sub-box of it. */
  lemma PointWithin(shape: Shape, i: nat, box: seq<Parameter>)
    requires CubeBox(shape.axes) && shape.Valid() && i < |shape.cells|
    requires CubeBox(box) && SubBox(box, shape.axes) && PointCell(shape.axes, shape.cells[i]) in Cells(box)
    ensures SubBox(PointOf(shape.axes, shape.cells[i]), box)
  {
    var p, x := PointOf(shape.axes, shape.cells[i]), PointCell(shape.axes, shape.cells[i]);
    CellsAreTheBox(box, x);
    forall k | 0 <= k < |p|
      ensures p[k].name == box[k].name
      ensures forall v :: v in p[k].values ==> v in box[k].values
    {
      PointValues(shape.axes, shape.cells[i], k);
      assert x[box[k].name] in box[k].values;
    }
  }

  lemma OneCell(shape: Shape, i: nat, box: seq<Parameter>, u: Universe)
    requires Exact(shape, u) && AreFields(shape, {i}, u)
    requires CubeBox(box) && SubBox(box, shape.axes) && CellsAt(shape, {i}) == FieldCells(box, u)
    ensures SubBox(shape.RequestOf(i).params, box)
  {
    assert PointCell(shape.axes, shape.cells[i]) in CellsAt(shape, {i});
    PointWithin(shape, i, box);
  }

  lemma SliceValue(shape: Shape, slice: set<nat>, box: seq<Parameter>, axis: nat, c: nat, u: Universe)
    requires Exact(shape, u) && AreFields(shape, slice, u) && slice != {}
    requires CubeBox(box) && SubBox(box, shape.axes) && axis < |box| && c < |shape.axes[axis].values|
    requires IsSliceOf(CellsAt(shape, slice), box, axis, shape.axes[axis].values[c], u)
    ensures shape.axes[axis].values[c] in box[axis].values
  {
    var i :| i in slice;
    var x := PointCell(shape.axes, shape.cells[i]);
    assert x in CellsAt(shape, slice);
    CellsAreTheBox(box, x);
  }

  lemma SliceBox(shape: Shape, slice: set<nat>, box: seq<Parameter>, axis: nat, c: nat, u: Universe)
    requires Exact(shape, u) && AreFields(shape, slice, u) && slice != {}
    requires CubeBox(box) && SubBox(box, shape.axes) && axis < |box| && c < |shape.axes[axis].values|
    requires IsSliceOf(CellsAt(shape, slice), box, axis, shape.axes[axis].values[c], u)
    ensures var v := shape.axes[axis].values[c];
            && v in box[axis].values
            && CubeBox(Fixed(box, axis, v))
            && SubBox(Fixed(box, axis, v), shape.axes)
            && CellsAt(shape, slice) == FieldCells(Fixed(box, axis, v), u)
  {
    var v := shape.axes[axis].values[c];
    SliceValue(shape, slice, box, axis, c, u);
    FixedIsBox(box, axis, v, u);
    SubBoxTransitive(Fixed(box, axis, v), box, shape.axes);
  }

  /** The fields of a box within the cube come back as exactly one request, which denotes them. */
  lemma BoxIsOneRequest(shape: Shape, idxs: set<nat>, box: seq<Parameter>, u: Universe)
    requires Exact(shape, u) && AreFields(shape, idxs, u) && idxs != {}
    requires CubeBox(box) && SubBox(box, shape.axes) && CellsAt(shape, idxs) == FieldCells(box, u)
    ensures |Compact(shape, idxs)| == 1
    ensures FieldCells(Compact(shape, idxs)[0].request.params, u) == FieldCells(box, u)
  {
    var r := CompactBox(shape, idxs, box, u);
    CompactCovers(shape, idxs, u);
    OnlyPiece(r, CellsAt(shape, idxs), shape, u);
  }

  lemma {:induction false} CompactBox(shape: Shape, idxs: set<nat>, box: seq<Parameter>, u: Universe) returns (r: Piece)
    requires Exact(shape, u) && AreFields(shape, idxs, u) && idxs != {}
    requires CubeBox(box) && SubBox(box, shape.axes) && CellsAt(shape, idxs) == FieldCells(box, u)
    ensures Compact(shape, idxs) == [r] && SubBox(r.request.params, box)
    decreases |idxs|
  {
    if |idxs| == 1 {
      var i := TheIndex(idxs);
      SubsetSize({i}, idxs);
      OneCell(shape, i, box, u);
      r := Piece(shape.RequestOf(i), 1);
    } else {
      AxisExists(shape, idxs);
      var axis := PickAxis(shape, idxs, |shape.axes|).axis;
      var n := |shape.axes[axis].values|;
      var parts := seq(n, c requires 0 <= c < n =>
                       var slice := Slice(shape, idxs, axis, c);
                       if slice == {} then [] else Compact(shape, slice));
      var sets := SliceCells(shape, idxs, axis);
      forall c | 0 <= c < n
        ensures IsPart(parts[c], sets[c], box, axis, c, shape, u)
      {
        var slice := Slice(shape, idxs, axis, c);
        SliceOfBox(shape, idxs, box, axis, c, u);
        FieldsSubset(shape, idxs, slice, u);
        SliceSmaller(shape, idxs, axis, c);
        if slice == {} {
          assert Family([], u) == [];
        } else {
          SliceBox(shape, slice, box, axis, c, u);
          var p := CompactBox(shape, slice, Fixed(box, axis, shape.axes[axis].values[c]), u);
          SlicePart(shape, slice, p, box, axis, c, u);
        }
      }
      SlicesPartition(shape, idxs, axis);
      var pieces := GatherOne(parts, sets, box, axis, shape, u);
      assert pieces == Compact(shape, idxs);
      AtMostOne(pieces);
      r := pieces[0];
      WholeAxis(r, box, axis, Seen(shape.axes[axis].values, n));
    }
  }

  lemma SlicePart(shape: Shape, slice: set<nat>, p: Piece, box: seq<Parameter>, axis: nat, c: nat, u: Universe)
    requires Exact(shape, u) && AreFields(shape, slice, u) && slice != {}
    requires CubeBox(box) && SubBox(box, shape.axes) && axis < |box| && c < |shape.axes[axis].values|
    requires IsSliceOf(CellsAt(shape, slice), box, axis, shape.axes[axis].values[c], u)
    requires shape.axes[axis].values[c] in box[axis].values
    requires Compact(shape, slice) == [p] && SubBox(p.request.params, Fixed(box, axis, shape.axes[axis].values[c]))
    ensures IsPart([p], CellsAt(shape, slice), box, axis, c, shape, u)
  {
    FixedIsTight(p, box, axis, shape.axes[axis].values[c]);
    CompactCovers(shape, slice, u);
  }

  lemma WholeAxis(p: Piece, box: seq<Parameter>, axis: nat, seen: set<string>)
    requires axis < |box| && Tight(p, box, axis, seen)
    ensures SubBox(p.request.params, box)
  {
  }
}
