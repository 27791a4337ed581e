/** A cube of fields: which cells are vacant, and the requests for the vacant and the taken ones. */
module HyperCubes {
  import opened Requests
  import opened Fields
  import opened Families
  import opened Numbering
  import opened Compacting
  import opened ExactCover
  import opened Cubes
  import opened Results

  // ---- building a cube ------------------------------------------------------------------

  function Dims(axes: seq<Parameter>): (dims: seq<nat>)
    ensures |dims| == |axes| && forall i :: 0 <= i < |axes| ==> dims[i] == |axes[i].values|
  {
    seq(|axes|, i requires 0 <= i < |axes| => |axes[i].values|)
  }

  /** The axes of a request: the keys that have values, in the order of `order`. */
  function AxesOf(ps: seq<Parameter>, order: seq<string>): (axes: seq<Parameter>)
    ensures forall i :: 0 <= i < |axes| ==> axes[i].values != []
  {
    if order == [] then []
    else
      var n := |order| - 1;
      var before, values := AxesOf(ps, order[..n]), ValuesOf(ps, order[n]);
      if values == [] then before else before + [Parameter(order[n], true, values)]
  }

  lemma {:induction false} AxesOfValid(ps: seq<Parameter>, order: seq<string>)
    requires Distinct(order)
    ensures var axes := AxesOf(ps, order);
            && DistinctNames(axes)
            && forall i :: 0 <= i < |axes| ==>
                 axes[i].flatten && axes[i].values != [] && axes[i].name in order
                   && axes[i].values == ValuesOf(ps, axes[i].name)
    ensures forall name :: Has(AxesOf(ps, order), name) <==> name in order && ValuesOf(ps, name) != []
  {
    if order != [] {
      var n := |order| - 1;
      assert order == order[..n] + [order[n]] && order[n] !in order[..n];
      AxesOfValid(ps, order[..n]);
      var before, values := AxesOf(ps, order[..n]), ValuesOf(ps, order[n]);
      if values != [] {
        forall name
          ensures Has(before + [Parameter(order[n], true, values)], name) <==> Has(before, name) || name == order[n]
        {
          FindSnoc(before, Parameter(order[n], true, values), name);
        }
      }
    }
  }

  /** The positions of the keys that have values. */
  function KeysAt(ps: seq<Parameter>, order: seq<string>): set<nat> {
    set k: nat | k < |order| && ValuesOf(ps, order[k]) != []
  }

  /** The axes are the keys at these positions, with all their values. */
  ghost predicate AxesAt(at: seq<nat>, axes: seq<Parameter>, ps: seq<Parameter>, order: seq<string>) {
    && |at| == |axes|
    && forall i :: 0 <= i < |at| ==>
         at[i] < |order| && axes[i] == Parameter(order[at[i]], true, ValuesOf(ps, order[at[i]]))
  }

  lemma AxesAtNext(at: seq<nat>, axes: seq<Parameter>, ps: seq<Parameter>, order: seq<string>, n: nat)
    requires AxesAt(at, axes, ps, order) && n < |order|
    ensures AxesAt(at + [n], axes + [Parameter(order[n], true, ValuesOf(ps, order[n]))], ps, order)
  {
  }

  lemma AxesNext(ps: seq<Parameter>, order: seq<string>, n: nat)
    requires n < |order|
    ensures var before := AxesOf(ps, order[..n]);
            AxesOf(ps, order[..n + 1])
            == if n in KeysAt(ps, order) then before + [Parameter(order[n], true, ValuesOf(ps, order[n]))] else before
  {
    assert order[..n + 1][..n] == order[..n];
  }

  /** They are all the keys with values among the first `n`, in the given order. */
  ghost predicate AreAxes(at: seq<nat>, axes: seq<Parameter>, ps: seq<Parameter>, order: seq<string>, n: nat) {
    Positions(at, n, KeysAt(ps, order)) && AxesAt(at, axes, ps, order)
  }

  lemma AreAxesNext(at: seq<nat>, axes: seq<Parameter>, ps: seq<Parameter>, order: seq<string>, n: nat)
    requires AreAxes(at, axes, ps, order, n) && n < |order|
    ensures if n in KeysAt(ps, order) then
              AreAxes(at + [n], axes + [Parameter(order[n], true, ValuesOf(ps, order[n]))], ps, order, n + 1)
            else AreAxes(at, axes, ps, order, n + 1)
  {
    PositionsNext(at, n, KeysAt(ps, order));
    AxesAtNext(at, axes, ps, order, n);
  }

  lemma {:induction false} AxesMeaning(ps: seq<Parameter>, order: seq<string>, n: nat) returns (at: seq<nat>)
    requires n <= |order|
    ensures AreAxes(at, AxesOf(ps, order[..n]), ps, order, n)
  {
    at := [];
    if n > 0 {
      var before := AxesMeaning(ps, order, n - 1);
      AxesNext(ps, order, n - 1);
      AreAxesNext(before, AxesOf(ps, order[..n - 1]), ps, order, n - 1);
      at := if n - 1 in KeysAt(ps, order) then before + [n - 1] else before;
    }
  }

  /** The coordinates of every cell, row by row, and the way back. */
  function RowMajor(verb: string, axes: seq<Parameter>, singleLevel: set<string>): Shape
    requires forall i :: 0 <= i < |axes| ==> axes[i].values != []
  {
    var dims := Dims(axes);
    var cells := seq(Size(dims), i requires 0 <= i < Size(dims) => Coordinates(dims, i));
    Shape(verb, axes, singleLevel, cells, map c | c in cells && |c| == |dims| :: Index(dims, c))
  }

  lemma RowMajorValid(verb: string, axes: seq<Parameter>, singleLevel: set<string>)
    requires DistinctNames(axes) && forall i :: 0 <= i < |axes| ==> axes[i].flatten && axes[i].values != []
    ensures var s := RowMajor(verb, axes, singleLevel);
            s.Valid() && s.Complete() && |s.cells| == Size(Dims(axes))
  {
    var s, dims := RowMajor(verb, axes, singleLevel), Dims(axes);
    forall i | 0 <= i < |s.cells|
      ensures |s.cells[i]| == |axes| && WithinAxes(s.cells[i], axes) && s.cells[i] in s.number
              && s.number[s.cells[i]] == i
    {
      CoordinatesInRange(dims, i);
      IndexOfCoordinates(dims, i);
      assert s.cells[i] in s.cells;
    }
    forall c | WithinAxes(c, axes)
      ensures c in s.number && s.number[c] < |s.cells| && s.cells[s.number[c]] == c
    {
      assert InRange(dims, c);
      IndexInRange(dims, c);
      CoordinatesOfIndex(dims, c);
      assert s.cells[Index(dims, c)] == c;
      assert c in s.cells;
    }
  }

  // ---- looking a cell up ----------------------------------------------------------------

  function PositionOf(values: seq<string>, v: string): (k: nat)
    ensures k <= |values|
    ensures k < |values| ==> values[k] == v
    ensures forall j :: 0 <= j < k ==> values[j] != v
  {
    if values == [] || values[0] == v then 0 else 1 + PositionOf(values[1..], v)
  }

  /** An error for an axis that has no value or too many, otherwise the coordinates if all values are in the cube. */
  datatype Lookup = UserError | NotInCube | At(coords: seq<nat>)

  function CoordsOf(axes: seq<Parameter>, ps: seq<Parameter>): Lookup {
    if axes == [] then At([])
    else
      var v := ValuesOf(ps, axes[0].name);
      if |v| != 1 then UserError
      else
        var k := PositionOf(axes[0].values, v[0]);
        if k == |axes[0].values| then NotInCube
        else Behind([k], CoordsOf(axes[1..], ps))
  }

  function Behind(coords: seq<nat>, l: Lookup): Lookup {
    if l.At? then At(coords + l.coords) else l
  }

  /** The coordinates found are those of the values of the request. */
  lemma {:induction false} CoordsFound(axes: seq<Parameter>, ps: seq<Parameter>)
    ensures CoordsOf(axes, ps).At? ==>
              var c := CoordsOf(axes, ps).coords;
              && WithinAxes(c, axes)
              && forall i :: 0 <= i < |axes| ==> ValuesOf(ps, axes[i].name) == [axes[i].values[c[i]]]
  {
    if axes != [] {
      CoordsFound(axes[1..], ps);
      var v := ValuesOf(ps, axes[0].name);
      if CoordsOf(axes, ps).At? {
        var c := CoordsOf(axes, ps).coords;
        var rest := CoordsOf(axes[1..], ps).coords;
        assert v == [v[0]];
        forall i | 0 <= i < |axes|
          ensures c[i] < |axes[i].values| && ValuesOf(ps, axes[i].name) == [axes[i].values[c[i]]]
        {
          if i > 0 {
            assert axes[i] == axes[1..][i - 1] && c[i] == rest[i - 1];
          }
        }
      }
    }
  }

  lemma PositionUnique(values: seq<string>, k: nat)
    requires Distinct(values) && k < |values|
    ensures PositionOf(values, values[k]) == k
  {
  }

  /** With distinct values, a request with the values of a cell is found at that cell. */
  lemma {:induction false} CoordsComplete(axes: seq<Parameter>, ps: seq<Parameter>, c: seq<nat>)
    requires DistinctValues(axes) && WithinAxes(c, axes)
    requires forall i :: 0 <= i < |axes| ==> ValuesOf(ps, axes[i].name) == [axes[i].values[c[i]]]
    ensures CoordsOf(axes, ps) == At(c)
  {
    if axes != [] {
      assert forall i :: 0 <= i < |axes[1..]| ==> axes[1..][i] == axes[i + 1] && c[1..][i] == c[i + 1];
      CoordsComplete(axes[1..], ps, c[1..]);
      PositionUnique(axes[0].values, c[0]);
      assert [c[0]] + c[1..] == c;
    }
  }

  /** `indexOf` after `requestOf` is the identity. */
  lemma IndexOfRequestOf(shape: Shape, i: nat)
    requires shape.Valid() && CubeBox(shape.axes) && i < |shape.cells|
    ensures CoordsOf(shape.axes, shape.RequestOf(i).params) == At(shape.cells[i])
    ensures shape.number[shape.cells[i]] == i
  {
    var p := PointOf(shape.axes, shape.cells[i]);
    forall k | 0 <= k < |shape.axes|
      ensures ValuesOf(p, shape.axes[k].name) == [shape.axes[k].values[shape.cells[i][k]]]
    {
      assert p[k].name == shape.axes[k].name;
      FindAt(p, k);
    }
    CoordsComplete(shape.axes, p, shape.cells[i]);
  }

  /** `requestOf` after `indexOf` gives the values of the request along every axis. */
  lemma RequestOfIndexOf(shape: Shape, ps: seq<Parameter>)
    requires shape.Valid() && shape.Complete() && CoordsOf(shape.axes, ps).At?
    ensures var c := CoordsOf(shape.axes, ps).coords;
            && c in shape.number && shape.number[c] < |shape.cells|
            && forall i :: 0 <= i < |shape.axes| ==>
                 ValuesOf(shape.RequestOf(shape.number[c]).params, shape.axes[i].name)
                   == ValuesOf(ps, shape.axes[i].name)
  {
    CoordsFound(shape.axes, ps);
    var c := CoordsOf(shape.axes, ps).coords;
    var p := PointOf(shape.axes, c);
    assert WithinAxes(c, shape.axes);
    forall i | 0 <= i < |shape.axes|
      ensures ValuesOf(p, shape.axes[i].name) == ValuesOf(ps, shape.axes[i].name)
    {
      assert p[i].name == shape.axes[i].name;
      FindAt(p, i);
    }
  }

  // ---- ordinals -------------------------------------------------------------------------

  /** The number of vacant cells before `n`. */
  function CountBelow(vacant: seq<bool>, n: nat): nat
    requires n <= |vacant|
  {
    if n == 0 then 0 else CountBelow(vacant, n - 1) + (if vacant[n - 1] then 1 else 0)
  }

  function VacantIn(vacant: seq<bool>): set<nat> {
    set i | 0 <= i < |vacant| && vacant[i]
  }

  lemma {:induction false} CountBelowSize(vacant: seq<bool>, n: nat)
    requires n <= |vacant|
    ensures CountBelow(vacant, n) == |VacantIn(vacant[..n])|
  {
    if n == 0 {
      assert VacantIn(vacant[..0]) == {};
    } else {
      CountBelowSize(vacant, n - 1);
      assert VacantIn(vacant[..n]) == VacantIn(vacant[..n - 1]) + (if vacant[n - 1] then {n - 1} else {});
    }
  }

  /** Ordinals of vacant cells strictly increase with the cell. */
  lemma {:induction false} OrdinalsIncrease(vacant: seq<bool>, i: nat, j: nat)
    requires i < j <= |vacant| && vacant[i]
    ensures CountBelow(vacant, i) < CountBelow(vacant, j)
    decreases j
  {
    if j > i + 1 {
      OrdinalsIncrease(vacant, i, j - 1);
    }
  }

  /** Every ordinal below the count is that of a vacant cell. */
  lemma {:induction false} OrdinalsOnto(vacant: seq<bool>, n: nat, k: nat) returns (i: nat)
    requires n <= |vacant| && k < CountBelow(vacant, n)
    ensures i < n && vacant[i] && CountBelow(vacant, i) == k
  {
    if k < CountBelow(vacant, n - 1) {
      i := OrdinalsOnto(vacant, n - 1, k);
    } else {
      i := n - 1;
    }
  }

  ghost predicate IsOrdinal(vacant: seq<bool>, k: nat) {
    exists i :: 0 <= i < |vacant| && vacant[i] && CountBelow(vacant, i) == k
  }

  /** Without holes, `fieldOrdinal` numbers the vacant cells from 0 to their count, in order. */
  lemma OrdinalsAreABijection(vacant: seq<bool>)
    ensures forall i, j :: 0 <= i < j < |vacant| && vacant[i] && vacant[j] ==>
            CountBelow(vacant, i) < CountBelow(vacant, j)
    ensures forall k: nat :: IsOrdinal(vacant, k) <==> k < |VacantIn(vacant)|
  {
    CountBelowSize(vacant, |vacant|);
    assert vacant[..|vacant|] == vacant;
    forall i, j | 0 <= i < j <= |vacant| && vacant[i]
      ensures CountBelow(vacant, i) < CountBelow(vacant, j)
    {
      OrdinalsIncrease(vacant, i, j);
    }
    forall k: nat
      ensures IsOrdinal(vacant, k) <==> k < |VacantIn(vacant)|
    {
      if k < |VacantIn(vacant)| {
        var i := OrdinalsOnto(vacant, |vacant|, k);
      }
    }
  }

  // ---- the vacant and the taken cells ---------------------------------------------------

  /** The requests for a set of cells: none for the empty set. */
  ghost function RequestsFor(shape: Shape, idxs: set<nat>): seq<Request>
    requires shape.Valid() && shape.Indices(idxs)
  {
    if idxs == {} then [] else RequestsIn(Compact(shape, idxs))
  }

  function RequestsIn(pieces: seq<Piece>): (r: seq<Request>)
    ensures |r| == |pieces|
  {
    seq(|pieces|, k requires 0 <= k < |pieces| => pieces[k].request)
  }

  /** The fields that a list of requests denotes. */
  function Denoted(rs: seq<Request>, u: Universe): set<Cell> {
    if rs == [] then {} else Denoted(rs[..|rs| - 1], u) + FieldCells(rs[|rs| - 1].params, u)
  }

  predicate NoOverlap(rs: seq<Request>, u: Universe) {
    forall i, j :: 0 <= i < j < |rs| ==> FieldCells(rs[i].params, u) !! FieldCells(rs[j].params, u)
  }

  lemma {:induction false} DenotedIsUnion(pieces: seq<Piece>, u: Universe)
    ensures Denoted(RequestsIn(pieces), u) == UnionOf(Family(pieces, u))
  {
    if pieces != [] {
      var n := |pieces| - 1;
      DenotedIsUnion(pieces[..n], u);
      assert RequestsIn(pieces)[..n] == RequestsIn(pieces[..n]);
      assert Family(pieces, u)[..n] == Family(pieces[..n], u);
    }
  }

  lemma CoveringRequests(pieces: seq<Piece>, s: set<Cell>, shape: Shape, u: Universe)
    requires Covers(pieces, s, shape, u)
    ensures Denoted(RequestsIn(pieces), u) == s && NoOverlap(RequestsIn(pieces), u)
    ensures forall k :: 0 <= k < |pieces| ==> RequestsIn(pieces)[k].verb == shape.verb
  {
    DenotedIsUnion(pieces, u);
    forall i, j | 0 <= i < j < |pieces|
      ensures FieldsOf(pieces[i], u) !! FieldsOf(pieces[j], u)
    {
      assert Family(pieces, u)[i] !! Family(pieces, u)[j];
    }
    forall k | 0 <= k < |pieces|
      ensures pieces[k].request.verb == shape.verb
    {
      assert Good(pieces[k], shape, u);
    }
  }

  /** The requests for a set of fields denote exactly these fields, each one once. */
  lemma RequestsForExact(shape: Shape, idxs: set<nat>, u: Universe)
    requires Sound(shape, u) && AreFields(shape, idxs, u)
    ensures Denoted(RequestsFor(shape, idxs), u) == CellsAt(shape, idxs)
    ensures NoOverlap(RequestsFor(shape, idxs), u)
    ensures forall k :: 0 <= k < |RequestsFor(shape, idxs)| ==> RequestsFor(shape, idxs)[k].verb == shape.verb
  {
    if idxs == {} {
      assert CellsAt(shape, idxs) == {};
    } else {
      RequestIsExact(shape, idxs, u);
      CoveringRequests(Compact(shape, idxs), CellsAt(shape, idxs), shape, u);
    }
  }

  function UpTo(n: nat): (s: set<nat>)
    ensures forall i :: i in s <==> 0 <= i < n
  {
    if n == 0 then {} else UpTo(n - 1) + {n - 1}
  }

  function AllIndices(shape: Shape): (s: set<nat>)
    ensures forall i :: i in s <==> 0 <= i < |shape.cells|
  {
    UpTo(|shape.cells|)
  }

  lemma AllCells(shape: Shape)
    requires shape.Valid() && shape.Complete() && CubeBox(shape.axes)
    ensures CellsAt(shape, AllIndices(shape)) == Cells(shape.axes)
  {
    forall x
      ensures x in CellsAt(shape, AllIndices(shape)) <==> x in Cells(shape.axes)
    {
      CellsAreTheBox(shape.axes, x);
      if x in CellsAt(shape, AllIndices(shape)) {
        var i :| i in AllIndices(shape) && x == PointCell(shape.axes, shape.cells[i]);
        PointInAxes(shape.axes, shape.cells[i]);
      }
      if InBox(x, shape.axes) {
        var i := CellNumber(shape, x);
        assert i in AllIndices(shape);
      }
    }
  }

  lemma PointInAxes(axes: seq<Parameter>, coords: seq<nat>)
    requires CubeBox(axes) && WithinAxes(coords, axes)
    ensures InBox(PointCell(axes, coords), axes)
  {
    forall i | 0 <= i < |axes|
      ensures axes[i].name in PointCell(axes, coords) && PointCell(axes, coords)[axes[i].name] in axes[i].values
    {
      PointValues(axes, coords, i);
    }
  }

  function CoordsIn(axes: seq<Parameter>, x: Cell): (c: seq<nat>)
    ensures |c| == |axes|
  {
    seq(|axes|, k requires 0 <= k < |axes| =>
      PositionOf(axes[k].values, if axes[k].name in x then x[axes[k].name] else ""))
  }

  lemma CoordsInWithin(axes: seq<Parameter>, x: Cell)
    requires CubeBox(axes) && InBox(x, axes)
    ensures WithinAxes(CoordsIn(axes, x), axes)
    ensures forall k :: 0 <= k < |axes| ==> axes[k].values[CoordsIn(axes, x)[k]] == x[axes[k].name]
  {
    forall k | 0 <= k < |axes|
      ensures CoordsIn(axes, x)[k] < |axes[k].values| && axes[k].values[CoordsIn(axes, x)[k]] == x[axes[k].name]
    {
      assert x[axes[k].name] in axes[k].values;
    }
  }

  lemma CellNumber(shape: Shape, x: Cell) returns (i: nat)
    requires shape.Valid() && shape.Complete() && CubeBox(shape.axes) && InBox(x, shape.axes)
    ensures i < |shape.cells| && x == PointCell(shape.axes, shape.cells[i])
  {
    var c := CoordsIn(shape.axes, x);
    CoordsInWithin(shape.axes, x);
    i := shape.number[c];
    SamePoint(shape.axes, x, c);
  }

  lemma SamePoint(axes: seq<Parameter>, x: Cell, c: seq<nat>)
    requires CubeBox(axes) && InBox(x, axes) && WithinAxes(c, axes)
    requires forall k :: 0 <= k < |axes| ==> axes[k].values[c[k]] == x[axes[k].name]
    ensures x == PointCell(axes, c)
  {
    forall name | name in x
      ensures name in PointCell(axes, c) && PointCell(axes, c)[name] == x[name]
    {
      NameAt(axes, name);
    }
  }

  /** The requests for the vacant cells and those for the taken ones partition the fields of the cube. */
  lemma VacantAndTakenPartition(shape: Shape, vacant: set<nat>, u: Universe)
    requires shape.Valid() && shape.Complete() && Sound(shape, u) && u.all && shape.Indices(vacant)
    ensures var v, t := RequestsFor(shape, vacant), RequestsFor(shape, AllIndices(shape) - vacant);
            && NoOverlap(v, u) && NoOverlap(t, u)
            && Denoted(v, u) !! Denoted(t, u)
            && Denoted(v, u) + Denoted(t, u) == Cells(shape.axes)
  {
    var taken := AllIndices(shape) - vacant;
    RequestsForExact(shape, vacant, u);
    RequestsForExact(shape, taken, u);
    AllCells(shape);
    assert vacant + taken == AllIndices(shape);
    CellsAtUnion(shape, vacant, taken);
  }

  lemma CellsAtUnion(shape: Shape, s: set<nat>, t: set<nat>)
    requires shape.Valid() && CubeBox(shape.axes) && shape.Indices(s) && shape.Indices(t) && s !! t
    ensures CellsAt(shape, s + t) == CellsAt(shape, s) + CellsAt(shape, t)
    ensures CellsAt(shape, s) !! CellsAt(shape, t)
  {
    forall i, j | i in s && j in t
      ensures PointCell(shape.axes, shape.cells[i]) != PointCell(shape.axes, shape.cells[j])
    {
      NumbersDiffer(shape, i, j);
    }
  }

  // ---- the cube -------------------------------------------------------------------------

  class HyperCube {
    const shape: Shape
    var vacant: seq<bool>
    var count: nat

    /** `count` is kept equal to the number of vacant cells. */
    ghost predicate Valid()
      reads this
    {
      && shape.Valid() && shape.Complete()
      && |vacant| == |shape.cells|
      && count == |VacantIn(vacant)|
    }

    ghost function Vacant(): set<nat>
      reads this
    {
      VacantIn(vacant)
    }

    constructor (request: Request, axisOrder: seq<string>, singleLevel: set<string>)
      requires Distinct(axisOrder)
      ensures Valid()
      ensures shape == RowMajor(request.verb, AxesOf(request.params, axisOrder), singleLevel)
      ensures shape.verb == request.verb
      ensures exists at :: AreAxes(at, shape.axes, request.params, axisOrder, |axisOrder|)
      ensures Vacant() == AllIndices(shape)
    {
      var axes: seq<Parameter> := [];
      for i := 0 to |axisOrder|
        invariant axes == AxesOf(request.params, axisOrder[..i])
      {
        assert axisOrder[..i + 1][..i] == axisOrder[..i];
        var values := ValuesOf(request.params, axisOrder[i]);
        if values != [] {
          axes := axes + [Parameter(axisOrder[i], true, values)];
        }
      }
      assert axisOrder[..|axisOrder|] == axisOrder;
      AxesOfValid(request.params, axisOrder);
      ghost var at := AxesMeaning(request.params, axisOrder, |axisOrder|);
      RowMajorValid(request.verb, axes, singleLevel);
      var s := RowMajor(request.verb, axes, singleLevel);
      AllVacant(|s.cells|);
      shape := s;
      count := |s.cells|;
      vacant := seq(|s.cells|, i => true);
    }

    function Size(): nat {
      |shape.cells|
    }

    function CountVacant(): nat
      reads this
    {
      count
    }

    /** -1 when a value is not in the cube. */
    method IndexOf(r: Request) returns (res: Result<int>)
      requires Valid()
      ensures match CoordsOf(shape.axes, r.params)
              case UserError => res == Error
              case NotInCube => res == Ok(-1)
              case At(c) => c in shape.number && res == Ok(shape.number[c]) && shape.number[c] < |vacant|
    {
      var coords: seq<nat> := [];
      ghost var all := CoordsOf(shape.axes, r.params);
      for i := 0 to |shape.axes|
        invariant |coords| == i
        invariant all == Behind(coords, CoordsOf(shape.axes[i..], r.params))
      {
        var axis := shape.axes[i];
        assert shape.axes[i..][0] == axis && shape.axes[i..][1..] == shape.axes[i + 1..];
        var values := ValuesOf(r.params, axis.name);
        if |values| == 0 || |values| > 1 {
          return Error;
        }
        var n := PositionOf(axis.values, values[0]);
        if n == |axis.values| {
          return Ok(-1);
        }
        BehindTwice(coords, n, CoordsOf(shape.axes[i + 1..], r.params));
        coords := coords + [n];
      }
      assert coords + [] == coords;
      CoordsFound(shape.axes, r.params);
      res := Ok(shape.number[coords]);
    }

    method Contains(r: Request) returns (res: Result<bool>)
      requires Valid()
      ensures match CoordsOf(shape.axes, r.params)
              case UserError => res == Error
              case NotInCube => res == Ok(false)
              case At(c) => c in shape.number && res == Ok(shape.number[c] in Vacant())
    {
      var idx := IndexOf(r);
      if idx.Error? {
        return Error;
      }
      res := Ok(idx.value >= 0 && vacant[idx.value]);
    }

    /** `clear(idx)`: takes a vacant cell, and says whether it was vacant. */
    method ClearIndex(idx: int) returns (cleared: bool)
      requires Valid() && idx < |vacant|
      modifies this
      ensures Valid()
      ensures cleared == (idx in old(Vacant()))
      ensures Vacant() == old(Vacant()) - {idx}
      ensures CountVacant() == old(CountVacant()) - (if cleared then 1 else 0)
    {
      if idx < 0 {
        return false;
      }
      if !vacant[idx] {
        return false;
      }
      assert VacantIn(vacant[idx := false]) == VacantIn(vacant) - {idx};
      assert idx in VacantIn(vacant) && VacantIn(vacant) == VacantIn(vacant) - {idx} + {idx};
      vacant := vacant[idx := false];
      count := count - 1;
      return true;
    }

    method Clear(r: Request) returns (res: Result<bool>)
      requires Valid()
      modifies this
      ensures Valid()
      ensures match CoordsOf(shape.axes, r.params)
              case UserError => res == Error && Vacant() == old(Vacant())
              case NotInCube => res == Ok(false) && Vacant() == old(Vacant())
              case At(c) =>
                && c in shape.number
                && res == Ok(shape.number[c] in old(Vacant()))
                && Vacant() == old(Vacant()) - {shape.number[c]}
    {
      var idx := IndexOf(r);
      if idx.Error? {
        return Error;
      }
      var cleared := ClearIndex(idx.value);
      res := Ok(cleared);
    }

    /** The requests for the vacant cells, or for the others. */
    method AggregatedRequests(remaining: bool) returns (out: seq<Request>)
      requires Valid()
      ensures out == RequestsFor(shape, if remaining then Vacant() else AllIndices(shape) - Vacant())
    {
      EmptyIff(vacant);
      if CountVacant() == (if remaining then 0 else Size()) {
        return [];
      }
      var idxs := Selected(vacant, remaining);
      var pieces := RequestPieces(shape, idxs);
      out := RequestsOnly(pieces);
    }

    method VacantRequests() returns (out: seq<Request>)
      requires Valid()
      ensures out == RequestsFor(shape, Vacant())
    {
      out := AggregatedRequests(true);
    }

    method TakenRequests() returns (out: seq<Request>)
      requires Valid()
      ensures out == RequestsFor(shape, AllIndices(shape) - Vacant())
    {
      out := AggregatedRequests(false);
    }

    /** The assertion that the field is in the cube fails otherwise. */
    method FieldOrdinal(r: Request, noHoles: bool) returns (res: Result<nat>)
      requires Valid()
      ensures match CoordsOf(shape.axes, r.params)
              case At(c) => c in shape.number && shape.number[c] <= |vacant| &&
                            res == Ok(if noHoles then CountBelow(vacant, shape.number[c]) else shape.number[c])
              case _ => res == Error
    {
      var idx := IndexOf(r);
      if idx.Error? || idx.value < 0 {
        return Error;
      }
      if !noHoles {
        return Ok(idx.value);
      }
      var p := 0;
      for i := 0 to idx.value
        invariant p == CountBelow(vacant, i)
      {
        if vacant[i] {
          p := p + 1;
        }
      }
      res := Ok(p);
    }
  }

  /** The cells that are vacant, or those that are not. */
  method Selected(vacant: seq<bool>, remaining: bool) returns (idxs: set<nat>)
    ensures idxs == if remaining then VacantIn(vacant) else UpTo(|vacant|) - VacantIn(vacant)
  {
    idxs := {};
    for i := 0 to |vacant|
      invariant forall k :: k in idxs <==> 0 <= k < i && vacant[k] == remaining
    {
      if vacant[i] == remaining {
        idxs := idxs + {i};
      }
    }
  }

  method RequestsOnly(pieces: seq<Piece>) returns (out: seq<Request>)
    ensures out == RequestsIn(pieces)
  {
    out := [];
    for k := 0 to |pieces|
      invariant out == RequestsIn(pieces)[..k]
    {
      out := out + [pieces[k].request];
    }
  }

  lemma BehindTwice(coords: seq<nat>, n: nat, l: Lookup)
    ensures Behind(coords, Behind([n], l)) == Behind(coords + [n], l)
  {
    if l.At? {
      assert coords + ([n] + l.coords) == coords + [n] + l.coords;
    }
  }

  lemma AllVacant(n: nat)
    ensures VacantIn(seq(n, i => true)) == UpTo(n) && |UpTo(n)| == n
  {
    UpToSize(n);
  }

  lemma {:induction false} UpToSize(n: nat)
    ensures |UpTo(n)| == n
  {
    if n > 0 {
      UpToSize(n - 1);
    }
  }

  lemma EmptyIff(vacant: seq<bool>)
    ensures VacantIn(vacant) <= UpTo(|vacant|) && |UpTo(|vacant|)| == |vacant|
    ensures |VacantIn(vacant)| == 0 <==> VacantIn(vacant) == {}
    ensures |VacantIn(vacant)| == |vacant| <==> UpTo(|vacant|) - VacantIn(vacant) == {}
  {
    UpToSize(|vacant|);
    SubsetSize(VacantIn(vacant), UpTo(|vacant|));
  }
}
