/** How a set of cell numbers of a cube is turned into a short list of requests: slice along an
    axis, recurse, and merge what can be merged.  The functions say what the loops compute. */
module Compacting {
  import opened Requests
  import opened Families

  /** What stays fixed in a cube.  An axis is a key with all its values; `cells` gives the
      coordinates of every cell number, and `number` the way back.  The numbering is eckit's and is
      not part of the model: it may be any one-to-one numbering of the cells. */
  datatype Shape = Shape(verb: string, axes: seq<Parameter>, singleLevel: set<string>,
                         cells: seq<seq<nat>>, number: map<seq<nat>, nat>) {
    predicate Valid() {
      && DistinctNames(axes)
      && (forall i :: 0 <= i < |axes| ==> axes[i].flatten && axes[i].values != [])
      && (forall i :: 0 <= i < |cells| ==>
            |cells[i]| == |axes| && WithinAxes(cells[i], axes) && cells[i] in number && number[cells[i]] == i)
    }

    /** Every cell has a number. */
    ghost predicate Complete() {
      forall c :: WithinAxes(c, axes) ==> c in number && number[c] < |cells| && cells[number[c]] == c
    }

    predicate Indices(idxs: set<nat>) {
      forall i :: i in idxs ==> i < |cells|
    }

    /** `requestOf`: one value for every axis. */
    function RequestOf(index: nat): Request
      requires Valid() && index < |cells|
    {
      Request(verb, PointOf(axes, cells[index]))
    }
  }

  predicate WithinAxes(coords: seq<nat>, axes: seq<Parameter>) {
    |coords| == |axes| && forall i :: 0 <= i < |axes| ==> coords[i] < |axes[i].values|
  }

  function PointOf(axes: seq<Parameter>, coords: seq<nat>): (ps: seq<Parameter>)
    requires WithinAxes(coords, axes)
    ensures |ps| == |axes|
  {
    seq(|axes|, i requires 0 <= i < |axes| => Parameter(axes[i].name, true, [axes[i].values[coords[i]]]))
  }

  // ---- merging --------------------------------------------------------------------------

  /** A request and the number of cells it stands for. */
  datatype Piece = Piece(request: Request, size: nat)

  datatype Relation = Embedded | Adjacent | Disjoint

  function RelationOf(base: Piece, additional: Piece, singleLevel: set<string>): Relation {
    var sizeAfter := CountOf(MergeParams(base.request.params, additional.request.params), singleLevel);
    if sizeAfter == base.size then Embedded
    else if base.size + additional.size == sizeAfter then Adjacent
    else Disjoint
  }

  /** How the last piece stands to each of the others. */
  function Relations(pieces: seq<Piece>, singleLevel: set<string>): (r: seq<Relation>)
    requires pieces != []
    ensures |r| == |pieces| - 1
    ensures forall k :: 0 <= k < |r| ==> r[k] == RelationOf(pieces[k], pieces[|pieces| - 1], singleLevel)
  {
    var last := |pieces| - 1;
    seq(last, k requires 0 <= k < last => RelationOf(pieces[k], pieces[last], singleLevel))
  }

  /** The search of `mergeLast`: stopped by an embedding, or the largest adjacent piece if any. */
  datatype Search = Absorbed | Nothing | Best(index: nat, size: nat)

  function SearchUpTo(pieces: seq<Piece>, relations: seq<Relation>, j: nat): (s: Search)
    requires j <= |relations| == |pieces| - 1
    ensures s.Best? ==> s.index < j && relations[s.index] == Adjacent
    ensures s.Absorbed? ==> exists k :: 0 <= k < j && relations[k] == Embedded
  {
    if j == 0 then Nothing
    else
      var before := SearchUpTo(pieces, relations, j - 1);
      if before.Absorbed? then Absorbed
      else match relations[j - 1]
        case Embedded => Absorbed
        case Disjoint => before
        case Adjacent =>
          var combined := pieces[j - 1].size + pieces[|pieces| - 1].size;
          if combined > (if before.Best? then before.size else 0) then Best(j - 1, combined) else before
  }

  function MergePiece(base: Piece, additional: Piece): Piece {
    Piece(Merge(base.request, additional.request), base.size + additional.size)
  }

  /** `mergeLast`: whether the last piece was merged into another, and the list afterwards. */
  function MergeLast(pieces: seq<Piece>, singleLevel: set<string>): (r: (bool, seq<Piece>))
    requires pieces != []
    ensures r.0 ==> |r.1| == |pieces| - 1
    ensures r.1 != []
  {
    var last := |pieces| - 1;
    match SearchUpTo(pieces, Relations(pieces, singleLevel), last)
    case Absorbed => (false, pieces[..last])
    case Nothing => (false, pieces)
    case Best(k, _) => (true, pieces[..last][k := MergePiece(pieces[k], pieces[last])])
  }

  /** `while (mergeLast(result)) {}` */
  function Settle(pieces: seq<Piece>, singleLevel: set<string>): (r: seq<Piece>)
    requires pieces != []
    ensures r != []
    decreases |pieces|
  {
    var (merged, rest) := MergeLast(pieces, singleLevel);
    if merged then Settle(rest, singleLevel) else rest
  }

  /** Appending the pieces of each slice in turn, and merging on the fly. */
  function Gather(parts: seq<seq<Piece>>, singleLevel: set<string>): (r: seq<Piece>)
    ensures (exists i :: 0 <= i < |parts| && parts[i] != []) ==> r != []
  {
    if parts == [] then []
    else
      var n := |parts| - 1;
      assert forall i :: 0 <= i < n ==> parts[..n][i] == parts[i];
      var before := Gather(parts[..n], singleLevel);
      if parts[n] == [] then before else Settle(before + parts[n], singleLevel)
  }

  // ---- slicing --------------------------------------------------------------------------

  ghost function Slice(shape: Shape, idxs: set<nat>, axis: nat, coord: nat): set<nat>
    requires shape.Valid() && shape.Indices(idxs) && axis < |shape.axes|
  {
    set i | i in idxs && shape.cells[i][axis] == coord
  }

  /** The coordinates that occur along an axis: one slice each. */
  ghost function CoordsAlong(shape: Shape, idxs: set<nat>, axis: nat): set<nat>
    requires shape.Valid() && shape.Indices(idxs) && axis < |shape.axes|
  {
    set i | i in idxs :: shape.cells[i][axis]
  }

  /** `pickBestAxis` over the first `n` axes: the first one with the fewest slices, more than one. */
  datatype Choice = NoAxis | Axis(axis: nat)

  ghost function PickAxis(shape: Shape, idxs: set<nat>, n: nat): (c: Choice)
    requires shape.Valid() && shape.Indices(idxs) && n <= |shape.axes|
    ensures c.Axis? ==> c.axis < n && |CoordsAlong(shape, idxs, c.axis)| > 1
    ensures c.NoAxis? ==> forall a :: 0 <= a < n ==> |CoordsAlong(shape, idxs, a)| <= 1
  {
    if n == 0 then NoAxis
    else
      var before := PickAxis(shape, idxs, n - 1);
      var slices := |CoordsAlong(shape, idxs, n - 1)|;
      if slices > 1 && (before.NoAxis? || slices < |CoordsAlong(shape, idxs, before.axis)|) then Axis(n - 1) else before
  }

  /** Two different cells differ along some axis. */
  lemma CellsDiffer(shape: Shape, i: nat, j: nat)
    requires shape.Valid() && i < |shape.cells| && j < |shape.cells| && i != j
    ensures exists a :: 0 <= a < |shape.axes| && shape.cells[i][a] != shape.cells[j][a]
  {
    assert shape.cells[i] != shape.cells[j];
  }

  /** The assertion in `pickBestAxis` holds: with two cells or more some axis has two slices or more. */
  lemma AxisExists(shape: Shape, idxs: set<nat>)
    requires shape.Valid() && shape.Indices(idxs) && |idxs| > 1
    ensures PickAxis(shape, idxs, |shape.axes|).Axis?
  {
    var i, j := TwoElements(idxs);
    CellsDiffer(shape, i, j);
    var a :| 0 <= a < |shape.axes| && shape.cells[i][a] != shape.cells[j][a];
    var two := {shape.cells[i][a], shape.cells[j][a]};
    assert two <= CoordsAlong(shape, idxs, a);
    SubsetSize(two, CoordsAlong(shape, idxs, a));
  }

  /** A slice along an axis with two slices or more is smaller than the whole. */
  lemma SliceSmaller(shape: Shape, idxs: set<nat>, axis: nat, coord: nat)
    requires shape.Valid() && shape.Indices(idxs) && axis < |shape.axes|
    requires |CoordsAlong(shape, idxs, axis)| > 1
    ensures |Slice(shape, idxs, axis, coord)| < |idxs|
  {
    var slice := Slice(shape, idxs, axis, coord);
    SubsetSize(slice, idxs);
    if slice == idxs {
      SubsetSize(CoordsAlong(shape, idxs, axis), {coord});
      assert false;
    }
  }

  // ---- the whole ------------------------------------------------------------------------

  ghost function TheIndex(idxs: set<nat>): nat
    requires |idxs| == 1
  {
    var i :| i in idxs; i
  }

  /** `request`: the pieces for a non-empty set of cells. */
  ghost function Compact(shape: Shape, idxs: set<nat>): (r: seq<Piece>)
    requires shape.Valid() && shape.Indices(idxs) && idxs != {}
    ensures r != []
    decreases |idxs|
  {
    if |idxs| == 1 then [Piece(shape.RequestOf(TheIndex(idxs)), 1)]
    else
      AxisExists(shape, idxs);
      var axis := PickAxis(shape, idxs, |shape.axes|).axis;
      var n := |shape.axes[axis].values|;
      var parts := seq(n, c requires 0 <= c < n =>
                       var slice := Slice(shape, idxs, axis, c);
                       SliceSmaller(shape, idxs, axis, c);
                       if slice == {} then [] else Compact(shape, slice));
      var i :| i in idxs;
      assert i in Slice(shape, idxs, axis, shape.cells[i][axis]);
      assert parts[shape.cells[i][axis]] != [];
      Gather(parts, shape.singleLevel)
  }
}
