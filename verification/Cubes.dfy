/** The loops of `request`: slicing, choosing the axis, and merging the list of pieces in place. */
module Cubes {
  import opened Requests
  import opened Families
  import opened Compacting
  import opened Picking

  /** Every piece has the keys of the axes, in their order. */
  predicate Shaped(p: Piece, axes: seq<Parameter>) {
    |p.request.params| == |axes| && forall i :: 0 <= i < |axes| ==> p.request.params[i].name == axes[i].name
  }

  predicate AllShaped(pieces: seq<Piece>, axes: seq<Parameter>) {
    forall k :: 0 <= k < |pieces| ==> Shaped(pieces[k], axes)
  }

  lemma MergeShaped(p: Piece, q: Piece, axes: seq<Parameter>)
    requires Shaped(p, axes)
    ensures Shaped(MergePiece(p, q), axes)
  {
  }

  method GetRelation(base: Request, baseSize: nat, additional: Request, additionalSize: nat, singleLevel: set<string>)
    returns (r: Relation)
    requires DistinctNames(base.params)
    ensures r == RelationOf(Piece(base, baseSize), Piece(additional, additionalSize), singleLevel)
  {
    var tmp := new MarsRequest(base);
    tmp.Merge(additional);
    MergeNames(base.params, additional.params);
    var sizeAfter := tmp.Count(singleLevel);
    if sizeAfter == baseSize {
      return Embedded;
    }
    if baseSize + additionalSize == sizeAfter {
      return Adjacent;
    }
    return Disjoint;
  }

  lemma MergeNames(ps: seq<Parameter>, other: seq<Parameter>)
    requires DistinctNames(ps)
    ensures DistinctNames(MergeParams(ps, other))
  {
  }

  /** The growing list of pieces. */
  class PieceList {
    var pieces: seq<Piece>

    constructor ()
      ensures pieces == []
    {
      pieces := [];
    }

    method Append(more: seq<Piece>)
      modifies this
      ensures pieces == old(pieces) + more
    {
      pieces := pieces + more;
    }

    /** Whether the last piece could be merged into an adjacent one: the largest, if there are several. */
    method MergeLast(ghost axes: seq<Parameter>, singleLevel: set<string>) returns (merged: bool)
      requires pieces != [] && DistinctNames(axes) && AllShaped(pieces, axes)
      modifies this
      ensures (merged, pieces) == Compacting.MergeLast(old(pieces), singleLevel)
      ensures LastMerged(old(pieces), merged, pieces, singleLevel)
      ensures AllShaped(pieces, axes)
    {
      MergeLastMeaning(pieces, singleLevel);
      var last := |pieces| - 1;
      var relations := RelationsToLast(pieces, axes, singleLevel);
      var absorbed, candidate := FindCandidate(pieces, relations);
      if absorbed {
        pieces := pieces[..last];
        return false;
      }
      if candidate == -1 {
        return false;
      }
      var combined := MergeTwo(pieces[candidate], pieces[last]);
      MergeShaped(pieces[candidate], pieces[last], axes);
      pieces := pieces[..last][candidate := combined];
      return true;
    }

    /** `while (mergeLast(result)) {}` */
    method Settle(ghost axes: seq<Parameter>, singleLevel: set<string>)
      requires pieces != [] && DistinctNames(axes) && AllShaped(pieces, axes)
      modifies this
      ensures pieces == Compacting.Settle(old(pieces), singleLevel)
      ensures AllShaped(pieces, axes)
    {
      var merged := true;
      while merged
        invariant AllShaped(pieces, axes)
        invariant merged ==>
                    pieces != []
                    && Compacting.Settle(pieces, singleLevel) == Compacting.Settle(old(pieces), singleLevel)
        invariant !merged ==> pieces == Compacting.Settle(old(pieces), singleLevel)
        decreases if merged then |pieces| + 1 else 0
      {
        merged := MergeLast(axes, singleLevel);
      }
    }
  }

  method MergeTwo(base: Piece, additional: Piece) returns (r: Piece)
    ensures r == MergePiece(base, additional)
  {
    var target := new MarsRequest(base.request);
    target.Merge(additional.request);
    r := Piece(target.Value(), base.size + additional.size);
  }

  lemma DistinctShape(p: Piece, axes: seq<Parameter>)
    requires Shaped(p, axes) && DistinctNames(axes)
    ensures DistinctNames(p.request.params)
  {
  }

  /** `getRelation` has no effect, so it is asked about every piece first. */
  method RelationsToLast(pieces: seq<Piece>, ghost axes: seq<Parameter>, singleLevel: set<string>)
    returns (relations: seq<Relation>)
    requires pieces != [] && DistinctNames(axes) && AllShaped(pieces, axes)
    ensures relations == Relations(pieces, singleLevel)
  {
    var last := |pieces| - 1;
    relations := [];
    for j := 0 to last
      invariant |relations| == j
      invariant forall k :: 0 <= k < j ==> relations[k] == RelationOf(pieces[k], pieces[last], singleLevel)
    {
      DistinctShape(pieces[j], axes);
      var relation := GetRelation(pieces[j].request, pieces[j].size, pieces[last].request, pieces[last].size,
                                  singleLevel);
      relations := relations + [relation];
    }
    assert relations == Relations(pieces, singleLevel);
  }

  /** The loop of `mergeLast`: whether the last piece is embedded in another one, and else the largest
      adjacent one. */
  method FindCandidate(pieces: seq<Piece>, relations: seq<Relation>) returns (absorbed: bool, candidate: int)
    requires |relations| == |pieces| - 1
    ensures -1 <= candidate < |pieces| - 1
    ensures var s := SearchUpTo(pieces, relations, |pieces| - 1);
            if absorbed then s == Absorbed
            else if candidate == -1 then s == Nothing
            else s.Best? && s.index == candidate
  {
    var last := |pieces| - 1;
    var candidateSize: nat := 0;
    absorbed, candidate := false, -1;
    for j := 0 to last
      invariant SearchUpTo(pieces, relations, j) == Found(candidate, candidateSize)
      invariant -1 <= candidate < last && (candidate == -1 ==> candidateSize == 0)
    {
      if relations[j] == Embedded {
        StaysAbsorbed(pieces, relations, j + 1, last);
        return true, -1;
      }
      if relations[j] == Adjacent {
        var combined := pieces[j].size + pieces[last].size;
        if candidateSize < combined {
          candidate, candidateSize := j, combined;
        }
      }
    }
  }

  function Found(candidate: int, size: nat): Search {
    if candidate < 0 then Nothing else Best(candidate, size)
  }

  lemma {:induction false} StaysAbsorbed(pieces: seq<Piece>, relations: seq<Relation>, i: nat, j: nat)
    requires i <= j <= |relations| == |pieces| - 1 && SearchUpTo(pieces, relations, i).Absorbed?
    ensures SearchUpTo(pieces, relations, j).Absorbed?
    decreases j
  {
    if i < j {
      StaysAbsorbed(pieces, relations, i, j - 1);
    }
  }

  // ---- slicing --------------------------------------------------------------------------

  /** The cells of every coordinate that occurs along the axis. */
  method SliceAlongAxis(shape: Shape, idxs: set<nat>, axis: nat) returns (slices: map<nat, set<nat>>)
    requires shape.Valid() && shape.Indices(idxs) && axis < |shape.axes|
    ensures slices.Keys == CoordsAlong(shape, idxs, axis)
    ensures forall c :: c in slices ==> slices[c] == Slice(shape, idxs, axis, c)
  {
    slices := map[];
    var rest := idxs;
    while rest != {}
      invariant rest <= idxs
      invariant slices.Keys == CoordsAlong(shape, idxs - rest, axis)
      invariant forall c :: c in slices ==> slices[c] == Slice(shape, idxs - rest, axis, c)
      decreases rest
    {
      var i :| i in rest;
      var c := shape.cells[i][axis];
      ghost var done := idxs - rest;
      assert idxs - (rest - {i}) == done + {i};
      rest := rest - {i};
      SliceAdd(shape, done, i, axis);
      slices := slices[c := (if c in slices then slices[c] else {}) + {i}];
    }
    assert idxs - rest == idxs;
  }

  lemma SliceAdd(shape: Shape, done: set<nat>, i: nat, axis: nat)
    requires shape.Valid() && shape.Indices(done) && i < |shape.cells| && axis < |shape.axes|
    ensures CoordsAlong(shape, done + {i}, axis) == CoordsAlong(shape, done, axis) + {shape.cells[i][axis]}
    ensures forall c :: Slice(shape, done + {i}, axis, c) ==
                        Slice(shape, done, axis, c) + (if c == shape.cells[i][axis] then {i} else {})
    ensures shape.cells[i][axis] !in CoordsAlong(shape, done, axis) ==>
            Slice(shape, done, axis, shape.cells[i][axis]) == {}
  {
  }

  method PickBestAxis(shape: Shape, idxs: set<nat>) returns (best: nat)
    requires shape.Valid() && shape.Indices(idxs) && |idxs| > 1
    ensures PickAxis(shape, idxs, |shape.axes|) == Axis(best)
    ensures best < |shape.axes| && |CoordsAlong(shape, idxs, best)| > 1
    ensures forall a :: 0 <= a < |shape.axes| && |CoordsAlong(shape, idxs, a)| > 1 ==>
              && |CoordsAlong(shape, idxs, best)| <= |CoordsAlong(shape, idxs, a)|
              && (a < best ==> |CoordsAlong(shape, idxs, best)| < |CoordsAlong(shape, idxs, a)|)
  {
    var found, bestSlices: nat := false, 0;
    best := 0;
    for axis := 0 to |shape.axes|
      invariant found ==> best < axis && bestSlices == |CoordsAlong(shape, idxs, best)|
      invariant PickAxis(shape, idxs, axis) == if found then Axis(best) else NoAxis
    {
      var slices := SliceAlongAxis(shape, idxs, axis);
      var n := |slices.Keys|;
      if n > 1 && (!found || n < bestSlices) {
        found, best, bestSlices := true, axis, n;
      }
    }
    AxisExists(shape, idxs);
    PickIsBest(shape, idxs, |shape.axes|);
  }

  method RequestAt(shape: Shape, index: nat) returns (r: Request)
    requires shape.Valid() && index < |shape.cells|
    ensures r == shape.RequestOf(index)
  {
    var request := new MarsRequest(Request(shape.verb, []));
    var coords := shape.cells[index];
    var point := PointOf(shape.axes, coords);
    for i := 0 to |shape.axes|
      invariant request.verb == shape.verb && request.params == point[..i]
    {
      NextAxis(shape, index, i);
      request.SetValue(shape.axes[i].name, shape.axes[i].values[coords[i]]);
    }
    assert point[..|shape.axes|] == point;
    r := request.Value();
  }

  /** Setting the value along the next axis. */
  lemma NextAxis(shape: Shape, index: nat, i: nat)
    requires shape.Valid() && index < |shape.cells| && i < |shape.axes|
    ensures var point := PointOf(shape.axes, shape.cells[index]);
            SetValues(point[..i], shape.axes[i].name, [shape.axes[i].values[shape.cells[index][i]]]) == point[..i + 1]
  {
    var point := PointOf(shape.axes, shape.cells[index]);
    NewName(point, i);
    assert point[..i + 1] == point[..i] + [point[i]];
  }

  lemma NewName(ps: seq<Parameter>, i: nat)
    requires DistinctNames(ps) && i < |ps|
    ensures !Has(ps[..i], ps[i].name)
  {
  }

  // ---- request --------------------------------------------------------------------------

  lemma CompactOne(shape: Shape, idxs: set<nat>, i: nat)
    requires shape.Valid() && shape.Indices(idxs) && |idxs| <= 1 && i in idxs
    ensures Compact(shape, idxs) == [Piece(shape.RequestOf(i), 1)]
  {
    assert {i} <= idxs;
    SubsetSize({i}, idxs);
  }

  lemma GatherNext(parts: seq<seq<Piece>>, n: nat, singleLevel: set<string>)
    requires n < |parts|
    ensures var before := Gather(parts[..n], singleLevel);
            Gather(parts[..n + 1], singleLevel) ==
            if parts[n] == [] then before else Compacting.Settle(before + parts[n], singleLevel)
  {
    assert parts[..n + 1][..n] == parts[..n];
  }

  method RequestPieces(shape: Shape, idxs: set<nat>) returns (pieces: seq<Piece>)
    requires shape.Valid() && shape.Indices(idxs) && idxs != {}
    ensures pieces == Compact(shape, idxs)
    ensures AllShaped(pieces, shape.axes)
    decreases |idxs|, 2
  {
    if |idxs| <= 1 {
      var i :| i in idxs;
      CompactOne(shape, idxs, i);
      var r := RequestAt(shape, i);
      return [Piece(r, 1)];
    }
    var axis := PickBestAxis(shape, idxs);
    var slices := SliceAlongAxis(shape, idxs, axis);
    CompactMany(shape, idxs, axis);
    pieces := GatherSlices(shape, idxs, axis, slices);
  }

  /** The slices in the order of their coordinates, each one appended and merged on the fly. */
  method GatherSlices(shape: Shape, ghost idxs: set<nat>, axis: nat, slices: map<nat, set<nat>>)
    returns (pieces: seq<Piece>)
    requires shape.Valid() && shape.Indices(idxs) && axis < |shape.axes| && |CoordsAlong(shape, idxs, axis)| > 1
    requires slices.Keys == CoordsAlong(shape, idxs, axis)
    requires forall c :: c in slices ==> slices[c] == Slice(shape, idxs, axis, c)
    ensures pieces == Gather(PartsOf(shape, idxs, axis), shape.singleLevel)
    ensures AllShaped(pieces, shape.axes)
    decreases |idxs|, 1
  {
    ghost var parts := PartsOf(shape, idxs, axis);
    var result := new PieceList();
    for coord := 0 to |shape.axes[axis].values|
      invariant result.pieces == Gather(parts[..coord], shape.singleLevel)
      invariant AllShaped(result.pieces, shape.axes)
    {
      GatherNext(parts, coord, shape.singleLevel);
      OccursIff(shape, idxs, axis, coord);
      if coord in slices {
        TakeSlice(result, shape, idxs, axis, coord, slices[coord]);
      }
    }
    assert parts[..|parts|] == parts;
    pieces := result.pieces;
  }

  /** The recursion for one slice. */
  method TakeSlice(result: PieceList, shape: Shape, ghost idxs: set<nat>, axis: nat, ghost coord: nat, slice: set<nat>)
    requires shape.Valid() && shape.Indices(idxs) && axis < |shape.axes| && |CoordsAlong(shape, idxs, axis)| > 1
    requires coord < |shape.axes[axis].values| && slice == Slice(shape, idxs, axis, coord) && slice != {}
    requires AllShaped(result.pieces, shape.axes)
    modifies result
    ensures result.pieces
            == Compacting.Settle(old(result.pieces) + PartsOf(shape, idxs, axis)[coord], shape.singleLevel)
    ensures AllShaped(result.pieces, shape.axes)
    decreases |idxs|, 0
  {
    SliceSmaller(shape, idxs, axis, coord);
    var subRequests := RequestPieces(shape, slice);
    result.Append(subRequests);
    result.Settle(shape.axes, shape.singleLevel);
  }

  lemma OccursIff(shape: Shape, idxs: set<nat>, axis: nat, c: nat)
    requires shape.Valid() && shape.Indices(idxs) && axis < |shape.axes|
    ensures c in CoordsAlong(shape, idxs, axis) <==> Slice(shape, idxs, axis, c) != {}
  {
    if i :| i in Slice(shape, idxs, axis, c) {
      assert shape.cells[i][axis] == c;
    }
    if c in CoordsAlong(shape, idxs, axis) {
      var i :| i in idxs && shape.cells[i][axis] == c;
      assert i in Slice(shape, idxs, axis, c);
    }
  }
}
