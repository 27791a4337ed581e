/** When the compaction of the tools denotes exactly the fields it was given. */
module CompactionExact {
  import opened Requests
  import opened Fields
  import opened Families
  import opened Compacting
  import opened ExactCover
  import opened Cubes
  import opened HyperCubes
  import opened Results
  import opened Compaction

  // ---- boxes by name --------------------------------------------------------------------

  lemma InBoxByName(ps: seq<Parameter>, c: Cell)
    requires IsBox(ps)
    ensures c in Cells(ps) <==>
            && (forall name :: name in c <==> Has(ps, name))
            && (forall name :: name in c ==> c[name] in ValuesOf(ps, name))
  {
    CellsAreTheBox(ps, c);
    if c in Cells(ps) {
      NoWildSub(ps, c);
    }
    if (forall name :: name in c <==> Has(ps, name)) && (forall name :: name in c ==> c[name] in ValuesOf(ps, name)) {
      forall i | 0 <= i < |ps|
        ensures ps[i].name in c && c[ps[i].name] in ps[i].values
      {
        FindAt(ps, i);
      }
      forall name | name in c
        ensures name in Names(ps)
      {
        assert Has(ps, name);
      }
      assert c.Keys == Names(ps);
    }
  }

  /** The order of the keys does not matter. */
  lemma SameBoxCells(a: seq<Parameter>, b: seq<Parameter>)
    requires IsBox(a) && IsBox(b)
    requires forall name :: Has(a, name) <==> Has(b, name)
    requires forall name :: ValuesOf(a, name) == ValuesOf(b, name)
    ensures Cells(a) == Cells(b)
  {
    forall c
      ensures c in Cells(a) <==> c in Cells(b)
    {
      InBoxByName(a, c);
      InBoxByName(b, c);
    }
  }

  // ---- single-valued requests -----------------------------------------------------------

  predicate SingleValued(ps: seq<Parameter>) {
    IsBox(ps) && forall i :: 0 <= i < |ps| ==> |ps[i].values| == 1
  }

  /** The field of a single-valued request. */
  function FieldOf(ps: seq<Parameter>): Cell {
    map name | name in Names(ps) && ValuesOf(ps, name) != [] :: ValuesOf(ps, name)[0]
  }

  lemma SingleValue(ps: seq<Parameter>, name: string)
    requires SingleValued(ps)
    ensures Has(ps, name) <==> name in FieldOf(ps)
    ensures Has(ps, name) ==> ValuesOf(ps, name) == [FieldOf(ps)[name]]
  {
    if Has(ps, name) {
      assert ps[Find(ps, name)].name in Names(ps);
    }
  }

  lemma OneField(ps: seq<Parameter>)
    requires SingleValued(ps)
    ensures Cells(ps) == {FieldOf(ps)}
  {
    forall name {
      SingleValue(ps, name);
    }
    forall c
      ensures c in Cells(ps) <==> c == FieldOf(ps)
    {
      InBoxByName(ps, c);
    }
  }

  /** One value for each of the keys, and the cell is a field. */
  ghost predicate PlainRequest(r: Request, verb: string, keys: set<string>, u: Universe) {
    && r.verb == verb
    && SingleValued(r.params)
    && (forall name :: Has(r.params, name) <==> name in keys)
    && u.Field(FieldOf(r.params))
  }

  ghost predicate PlainGroup(reqs: seq<Request>, verb: string, keys: set<string>, u: Universe) {
    forall i :: 0 <= i < |reqs| ==> PlainRequest(reqs[i], verb, keys, u)
  }

  lemma PlainDenotes(r: Request, verb: string, keys: set<string>, u: Universe)
    requires PlainRequest(r, verb, keys, u)
    ensures FieldCells(r.params, u) == {FieldOf(r.params)}
  {
    OneField(r.params);
  }

  // ---- merging --------------------------------------------------------------------------

  lemma MergeByName(a: seq<Parameter>, b: seq<Parameter>, name: string)
    ensures Has(MergeParams(a, b), name) <==> Has(a, name)
    ensures Has(a, name) ==> ValuesOf(MergeParams(a, b), name) == Union(ValuesOf(a, name), ValuesOf(b, name))
  {
    FindSameNames(MergeParams(a, b), a, name);
  }

  lemma MergeIsBox(a: seq<Parameter>, b: seq<Parameter>)
    requires IsBox(a) && IsBox(b)
    ensures IsBox(MergeParams(a, b))
  {
    var m := MergeParams(a, b);
    forall i | 0 <= i < |m|
      ensures m[i].values != [] && Distinct(m[i].values)
    {
      var other := ValuesOf(b, a[i].name);
      assert Distinct(other);
      UnionDistinct(a[i].values, other);
    }
  }

  lemma MergeGrows(a: seq<Parameter>, b: seq<Parameter>)
    requires IsBox(a) && IsBox(b) && forall name :: Has(a, name) <==> Has(b, name)
    ensures IsBox(MergeParams(a, b)) && forall name :: Has(MergeParams(a, b), name) <==> Has(a, name)
    ensures Cells(a) + Cells(b) <= Cells(MergeParams(a, b))
  {
    var m := MergeParams(a, b);
    MergeIsBox(a, b);
    forall name
      ensures Has(m, name) <==> Has(a, name)
      ensures forall v :: v in ValuesOf(a, name) || v in ValuesOf(b, name) ==> v in ValuesOf(m, name)
    {
      MergeByName(a, b, name);
      InUnion(ValuesOf(a, name), ValuesOf(b, name));
    }
    forall c | c in Cells(a) + Cells(b)
      ensures c in Cells(m)
    {
      InBoxByName(a, c);
      InBoxByName(b, c);
      InBoxByName(m, c);
    }
  }

  ghost predicate BoxOf(m: Request, verb: string, keys: set<string>) {
    m.verb == verb && IsBox(m.params) && forall name :: Has(m.params, name) <==> name in keys
  }

  lemma MergeStep(m: Request, r: Request, verb: string, keys: set<string>, u: Universe)
    requires BoxOf(m, verb, keys) && PlainRequest(r, verb, keys, u)
    ensures BoxOf(Merge(m, r), verb, keys)
    ensures Cells(m.params) <= Cells(Merge(m, r).params) && FieldOf(r.params) in Cells(Merge(m, r).params)
  {
    MergeGrows(m.params, r.params);
    OneField(r.params);
  }

  /** The merged request is a box with the same keys that holds every request of the group. */
  lemma {:induction false} MergedBox(reqs: seq<Request>, verb: string, keys: set<string>, u: Universe)
    requires reqs != [] && PlainGroup(reqs, verb, keys, u)
    ensures BoxOf(MergedOf(reqs), verb, keys)
    ensures Denoted(reqs, u) <= FieldCells(MergedOf(reqs).params, u)
  {
    var n := |reqs| - 1;
    PlainLast(reqs, verb, keys, u);
    if n > 0 {
      MergedBox(reqs[..n], verb, keys, u);
      MergeStep(MergedOf(reqs[..n]), reqs[n], verb, keys, u);
      FieldsGrow(Denoted(reqs[..n], u), MergedOf(reqs[..n]).params, MergedOf(reqs).params, FieldOf(reqs[n].params), u);
    } else {
      OneField(reqs[0].params);
      assert Denoted(reqs[..0], u) == {};
    }
  }

  lemma FieldsGrow(s: set<Cell>, before: seq<Parameter>, after: seq<Parameter>, x: Cell, u: Universe)
    requires s <= FieldCells(before, u) && Cells(before) <= Cells(after) && x in Cells(after) && u.Field(x)
    ensures s + {x} <= FieldCells(after, u)
  {
  }

  // ---- what a group denotes -------------------------------------------------------------

  lemma OneRequestDenotes(r: Request, u: Universe)
    ensures Denoted([r], u) == FieldCells(r.params, u)
  {
    assert [r][..0] == [];
  }

  lemma {:induction false} DenotedSize(reqs: seq<Request>, verb: string, keys: set<string>, u: Universe)
    requires PlainGroup(reqs, verb, keys, u)
    ensures |Denoted(reqs, u)| <= |reqs|
  {
    if reqs != [] {
      var n := |reqs| - 1;
      DenotedSize(reqs[..n], verb, keys, u);
      PlainDenotes(reqs[n], verb, keys, u);
      OneElementMore(Denoted(reqs[..n], u), FieldOf(reqs[n].params));
    }
  }

  lemma OneElementMore<T>(s: set<T>, x: T)
    ensures |s + {x}| <= |s| + 1
  {
  }

  /** The merged request that counts as many fields as there are requests denotes the group if and only if
      its keys are counted value by value and no field is there twice. */
  lemma FullBranch(reqs: seq<Request>, verb: string, keys: set<string>, u: Universe)
    requires |reqs| > 1 && PlainGroup(reqs, verb, keys, u) && Reliable(MergedOf(reqs).params, u)
    requires CountOf(MergedOf(reqs).params, u.singleLevel) == |reqs|
    ensures Denoted([MergedOf(reqs)], u) == Denoted(reqs, u) <==>
            AllCounted(MergedOf(reqs).params) && |Denoted(reqs, u)| == |reqs|
  {
    MergedBox(reqs, verb, keys, u);
    OneRequestDenotes(MergedOf(reqs), u);
    DenotedSize(reqs, verb, keys, u);
    if AllCounted(MergedOf(reqs).params) {
      ReliableCount(MergedOf(reqs).params, u);
    } else {
      Undercounted(MergedOf(reqs).params, u);
    }
    SubsetSize(Denoted(reqs, u), FieldCells(MergedOf(reqs).params, u));
  }

  // ---- the sparse branch ----------------------------------------------------------------

  predicate AllAxes(keys: set<string>, order: seq<string>) {
    forall k :: k in keys ==> k in order
  }

  /** The axes are the keys of the merged request, in another order. */
  lemma AxesAreKeys(m: seq<Parameter>, keys: set<string>, order: seq<string>)
    requires IsBox(m) && Distinct(order) && AllAxes(keys, order) && forall name :: Has(m, name) <==> name in keys
    ensures var axes := AxesOf(m, order);
            && CubeBox(axes)
            && (forall name :: Has(axes, name) <==> Has(m, name))
            && (forall name :: ValuesOf(axes, name) == ValuesOf(m, name))
            && Cells(axes) == Cells(m)
  {
    var axes := AxesOf(m, order);
    AxesOfValid(m, order);
    forall name
      ensures Has(axes, name) <==> Has(m, name)
      ensures ValuesOf(axes, name) == ValuesOf(m, name)
    {
    }
    forall i | 0 <= i < |axes|
      ensures Distinct(axes[i].values)
    {
      assert axes[i].values == ValuesOf(m, axes[i].name);
    }
    SameBoxCells(axes, m);
  }

  /** A request of the group is found in the cube, at its field. */
  lemma FoundInCube(shape: Shape, ps: seq<Parameter>)
    requires shape.Valid() && shape.Complete() && CubeBox(shape.axes) && SingleValued(ps)
    requires forall name :: Has(shape.axes, name) <==> Has(ps, name)
    requires FieldOf(ps) in Cells(shape.axes)
    ensures CoordsOf(shape.axes, ps).At?
    ensures var c := CoordsOf(shape.axes, ps).coords;
            && WithinAxes(c, shape.axes)
            && c in shape.number && shape.number[c] < |shape.cells| && shape.cells[shape.number[c]] == c
            && PointCell(shape.axes, c) == FieldOf(ps)
  {
    var axes, x := shape.axes, FieldOf(ps);
    CellsAreTheBox(axes, x);
    var i := CellNumber(shape, x);
    var c := shape.cells[i];
    forall k | 0 <= k < |axes|
      ensures ValuesOf(ps, axes[k].name) == [axes[k].values[c[k]]]
    {
      FindAt(axes, k);
      SingleValue(ps, axes[k].name);
      PointValues(axes, c, k);
    }
    CoordsComplete(axes, ps, c);
  }

  ghost predicate CubeFor(shape: Shape, keys: set<string>) {
    shape.Valid() && shape.Complete() && CubeBox(shape.axes) && forall name :: Has(shape.axes, name) <==> name in keys
  }

  /** Clearing one request of the group takes its field. */
  lemma TakeOne(shape: Shape, r: Request, before: set<nat>, verb: string, keys: set<string>, u: Universe)
    returns (i: nat)
    requires CubeFor(shape, keys) && PlainRequest(r, verb, keys, u) && FieldOf(r.params) in Cells(shape.axes)
    requires shape.Indices(before)
    ensures shape.Indices(before + {i})
    ensures i < |shape.cells| && CoordsOf(shape.axes, r.params) == At(shape.cells[i])
    ensures shape.cells[i] in shape.number && shape.number[shape.cells[i]] == i
    ensures CellsAt(shape, before + {i}) == CellsAt(shape, before) + {FieldOf(r.params)}
  {
    FoundInCube(shape, r.params);
    i := shape.number[CoordsOf(shape.axes, r.params).coords];
    CellsAtAdd(shape, before, i);
  }

  /** Clearing the requests of a group takes exactly their fields. */
  lemma {:induction false} TakenAreFields(shape: Shape, reqs: seq<Request>, verb: string, keys: set<string>,
                                          u: Universe)
    returns (taken: set<nat>)
    requires CubeFor(shape, keys) && PlainGroup(reqs, verb, keys, u) && Denoted(reqs, u) <= Cells(shape.axes)
    ensures TakenBy(shape, reqs) == Ok(taken) && shape.Indices(taken)
    ensures CellsAt(shape, taken) == Denoted(reqs, u)
    ensures reqs != [] ==> taken != {}
  {
    if reqs == [] {
      taken := {};
      assert CellsAt(shape, {}) == {};
    } else {
      PlainLast(reqs, verb, keys, u);
      var before := TakenAreFields(shape, reqs[..|reqs| - 1], verb, keys, u);
      taken := TakenNext(shape, reqs, before, verb, keys, u);
    }
  }

  lemma InLarger<T>(s: set<T>, x: T, t: set<T>, larger: set<T>)
    requires t == s + {x} && t <= larger
    ensures x in larger
  {
  }

  lemma TakenNext(shape: Shape, reqs: seq<Request>, before: set<nat>, verb: string, keys: set<string>, u: Universe)
    returns (taken: set<nat>)
    requires CubeFor(shape, keys) && reqs != [] && PlainGroup(reqs, verb, keys, u)
             && Denoted(reqs, u) <= Cells(shape.axes)
    requires TakenBy(shape, reqs[..|reqs| - 1]) == Ok(before) && shape.Indices(before)
    requires CellsAt(shape, before) == Denoted(reqs[..|reqs| - 1], u)
    ensures TakenBy(shape, reqs) == Ok(taken) && shape.Indices(taken) && taken != {}
    ensures CellsAt(shape, taken) == Denoted(reqs, u)
  {
    var last := reqs[|reqs| - 1];
    PlainLast(reqs, verb, keys, u);
    InLarger(Denoted(reqs[..|reqs| - 1], u), FieldOf(last.params), Denoted(reqs, u), Cells(shape.axes));
    var i := TakeOne(shape, last, before, verb, keys, u);
    TakenStep(shape, reqs, before, i);
    taken := before + {i};
  }

  lemma TakenStep(shape: Shape, reqs: seq<Request>, before: set<nat>, i: nat)
    requires reqs != [] && TakenBy(shape, reqs[..|reqs| - 1]) == Ok(before) && i < |shape.cells|
    requires CoordsOf(shape.axes, reqs[|reqs| - 1].params) == At(shape.cells[i])
    requires shape.cells[i] in shape.number && shape.number[shape.cells[i]] == i
    ensures TakenBy(shape, reqs) == Ok(before + {i})
  {
  }

  lemma PlainLast(reqs: seq<Request>, verb: string, keys: set<string>, u: Universe)
    requires reqs != [] && PlainGroup(reqs, verb, keys, u)
    ensures var n := |reqs| - 1;
            && PlainGroup(reqs[..n], verb, keys, u)
            && PlainRequest(reqs[n], verb, keys, u)
            && Denoted(reqs, u) == Denoted(reqs[..n], u) + {FieldOf(reqs[n].params)}
  {
    PlainDenotes(reqs[|reqs| - 1], verb, keys, u);
  }

  lemma CellsAtAdd(shape: Shape, idxs: set<nat>, i: nat)
    requires shape.Valid() && shape.Indices(idxs) && i < |shape.cells|
    ensures shape.Indices(idxs + {i})
    ensures CellsAt(shape, idxs + {i}) == CellsAt(shape, idxs) + {PointCell(shape.axes, shape.cells[i])}
  {
  }

  lemma SparseBranch(reqs: seq<Request>, verb: string, keys: set<string>, order: seq<string>, u: Universe)
    returns (out: seq<Request>)
    requires |reqs| > 1 && Distinct(order) && AllAxes(keys, order) && PlainGroup(reqs, verb, keys, u)
    requires Reliable(MergedOf(reqs).params, u) && CountOf(MergedOf(reqs).params, u.singleLevel) != |reqs|
    ensures GroupOut(reqs, order, u.singleLevel) == Ok(out)
    ensures Denoted(out, u) == Denoted(reqs, u) && NoOverlap(out, u)
    ensures forall k :: 0 <= k < |out| ==> out[k].verb == verb
  {
    var m := MergedOf(reqs);
    MergedBox(reqs, verb, keys, u);
    var shape := CubeFits(m, verb, keys, order, u);
    var taken := TakenAreFields(shape, reqs, verb, keys, u);
    out := RequestsFor(shape, taken);
    AllFields(reqs, verb, keys, u);
    RequestsForExact(shape, taken, u);
  }

  /** Every cell that the group denotes is a field. */
  lemma AllFields(reqs: seq<Request>, verb: string, keys: set<string>, u: Universe)
    requires reqs != [] && PlainGroup(reqs, verb, keys, u)
    ensures forall c :: c in Denoted(reqs, u) ==> u.Field(c)
  {
    MergedBox(reqs, verb, keys, u);
  }

  lemma ReliableByName(a: seq<Parameter>, b: seq<Parameter>, u: Universe)
    requires DistinctNames(a) && DistinctNames(b) && forall name :: ValuesOf(a, name) == ValuesOf(b, name)
    ensures Reliable(a, u) == Reliable(b, u)
  {
    if HasWild(a) {
      WildByName(a, b);
    }
    if HasWild(b) {
      WildByName(b, a);
    }
  }

  lemma WildByName(a: seq<Parameter>, b: seq<Parameter>)
    requires DistinctNames(a) && HasWild(a) && forall name :: ValuesOf(a, name) == ValuesOf(b, name)
    ensures HasWild(b)
  {
    var i :| 0 <= i < |a| && Wild(a[i]);
    FindAt(a, i);
    assert ValuesOf(b, a[i].name) == a[i].values;
    assert Wild(b[Find(b, a[i].name)]);
  }

  lemma CubeFits(m: Request, verb: string, keys: set<string>, order: seq<string>, u: Universe) returns (shape: Shape)
    requires BoxOf(m, verb, keys) && Distinct(order) && AllAxes(keys, order) && Reliable(m.params, u)
    ensures shape == CubeOf(m, order, u.singleLevel)
    ensures CubeFor(shape, keys) && Sound(shape, u) && shape.verb == verb && Cells(shape.axes) == Cells(m.params)
  {
    var axes := AxesOf(m.params, order);
    AxesAreKeys(m.params, keys, order);
    ReliableByName(axes, m.params, u);
    assert RowMajor(m.verb, axes, u.singleLevel).Valid() && RowMajor(m.verb, axes, u.singleLevel).Complete() by {
      RowMajorValid(m.verb, axes, u.singleLevel);
    }
    shape := CubeOf(m, order, u.singleLevel);
    assert shape.axes == axes;
  }

  // ---- keys that are not axes -----------------------------------------------------------

  lemma MergeLastShaped(pieces: seq<Piece>, axes: seq<Parameter>, singleLevel: set<string>)
    requires pieces != [] && AllShaped(pieces, axes)
    ensures AllShaped(MergeLast(pieces, singleLevel).1, axes)
  {
    match SearchUpTo(pieces, Relations(pieces, singleLevel), |pieces| - 1)
    case Absorbed =>
    case Nothing =>
    case Best(k, _) => assert Shaped(MergePiece(pieces[k], pieces[|pieces| - 1]), axes);
  }

  lemma {:induction false} SettleShaped(pieces: seq<Piece>, axes: seq<Parameter>, singleLevel: set<string>)
    requires pieces != [] && AllShaped(pieces, axes)
    ensures AllShaped(Settle(pieces, singleLevel), axes)
    decreases |pieces|
  {
    MergeLastShaped(pieces, axes, singleLevel);
    var (merged, rest) := MergeLast(pieces, singleLevel);
    if merged {
      SettleShaped(rest, axes, singleLevel);
    }
  }

  lemma {:induction false} GatherShaped(parts: seq<seq<Piece>>, axes: seq<Parameter>, singleLevel: set<string>)
    requires forall i :: 0 <= i < |parts| ==> AllShaped(parts[i], axes)
    ensures AllShaped(Gather(parts, singleLevel), axes)
  {
    if parts != [] {
      var n := |parts| - 1;
      GatherShaped(parts[..n], axes, singleLevel);
      if parts[n] != [] {
        SettleShaped(Gather(parts[..n], singleLevel) + parts[n], axes, singleLevel);
      }
    }
  }

  /** Whatever counting says, the pieces have the keys of the axes. */
  lemma {:induction false} CompactShaped(shape: Shape, idxs: set<nat>)
    requires shape.Valid() && shape.Indices(idxs) && idxs != {}
    ensures AllShaped(Compact(shape, idxs), shape.axes)
    decreases |idxs|
  {
    if |idxs| > 1 {
      AxisExists(shape, idxs);
      var axis := PickAxis(shape, idxs, |shape.axes|).axis;
      var n := |shape.axes[axis].values|;
      var parts := seq(n, c requires 0 <= c < n =>
                       var slice := Slice(shape, idxs, axis, c);
                       if slice == {} then [] else Compact(shape, slice));
      forall c | 0 <= c < n
        ensures AllShaped(parts[c], shape.axes)
      {
        var slice := Slice(shape, idxs, axis, c);
        SliceSmaller(shape, idxs, axis, c);
        if slice != {} {
          CompactShaped(shape, slice);
        }
      }
      GatherShaped(parts, shape.axes, shape.singleLevel);
    }
  }

  lemma BoxLacks(ps: seq<Parameter>, axes: seq<Parameter>, key: string, c: Cell)
    requires DistinctNames(axes) && !Has(axes, key) && c in Cells(ps)
    requires |ps| == |axes| && forall i :: 0 <= i < |axes| ==> ps[i].name == axes[i].name
    ensures key !in c
  {
    CellsAreTheBox(ps, c);
    assert key !in Names(ps);
  }

  lemma {:induction false} PiecesLack(pieces: seq<Piece>, axes: seq<Parameter>, key: string, u: Universe, c: Cell)
    requires DistinctNames(axes) && !Has(axes, key) && AllShaped(pieces, axes) && c in Denoted(RequestsIn(pieces), u)
    ensures key !in c
  {
    var n := |pieces| - 1;
    assert RequestsIn(pieces)[..n] == RequestsIn(pieces[..n]);
    if c in Denoted(RequestsIn(pieces[..n]), u) {
      PiecesLack(pieces[..n], axes, key, u, c);
    } else {
      assert Shaped(pieces[n], axes);
      BoxLacks(pieces[n].request.params, axes, key, c);
    }
  }

  /** A key that is not an axis is missing from every request of the sparse branch. */
  lemma SparseLacks(reqs: seq<Request>, order: seq<string>, u: Universe, key: string, x: Cell)
    requires |reqs| > 1 && Distinct(order) && key !in order && key in x
    requires CountOf(MergedOf(reqs).params, u.singleLevel) != |reqs|
    requires GroupOut(reqs, order, u.singleLevel).Ok?
    ensures x !in Denoted(GroupOut(reqs, order, u.singleLevel).value, u)
  {
    var m := MergedOf(reqs);
    var shape := CubeOf(m, order, u.singleLevel);
    AxesOfValid(m.params, order);
    RowMajorValid(m.verb, AxesOf(m.params, order), u.singleLevel);
    TakenAreIndices(shape, reqs);
    var taken := TakenBy(shape, reqs).value;
    if x in Denoted(GroupOut(reqs, order, u.singleLevel).value, u) {
      assert taken != {};
      CompactShaped(shape, taken);
      PiecesLack(Compact(shape, taken), shape.axes, key, u, x);
    }
  }

  /** So the sparse branch loses every field of a group with such a key. */
  lemma ForeignKey(reqs: seq<Request>, verb: string, keys: set<string>, order: seq<string>, u: Universe, key: string)
    returns (x: Cell)
    requires |reqs| > 1 && Distinct(order) && PlainGroup(reqs, verb, keys, u) && key in keys && key !in order
    requires CountOf(MergedOf(reqs).params, u.singleLevel) != |reqs|
    requires GroupOut(reqs, order, u.singleLevel).Ok?
    ensures x in Denoted(reqs, u) && key in x && x !in Denoted(GroupOut(reqs, order, u.singleLevel).value, u)
  {
    x := FieldOf(reqs[|reqs| - 1].params);
    PlainLast(reqs, verb, keys, u);
    SingleValue(reqs[|reqs| - 1].params, key);
    SparseLacks(reqs, order, u, key, x);
  }

  // ---- the theorem for a group ----------------------------------------------------------

  /** What a caller can check before: one request; or the merged request counts as many fields as there are
      requests, every key is counted value by value, and no field is there twice; or every key is an axis. */
  ghost predicate Compactable(reqs: seq<Request>, keys: set<string>, order: seq<string>, u: Universe)
    requires reqs != []
  {
    || |reqs| == 1
    || (if CountOf(MergedOf(reqs).params, u.singleLevel) == |reqs| then
          AllCounted(MergedOf(reqs).params) && |Denoted(reqs, u)| == |reqs|
        else AllAxes(keys, order))
  }

  ghost predicate DenotesExactly(out: Result<seq<Request>>, reqs: seq<Request>, u: Universe) {
    out.Ok? && Denoted(out.value, u) == Denoted(reqs, u)
  }

  /** A group is compacted exactly if and only if it is compactable. */
  lemma GroupIsExact(reqs: seq<Request>, verb: string, keys: set<string>, order: seq<string>, u: Universe)
    requires reqs != [] && Distinct(order) && PlainGroup(reqs, verb, keys, u) && Reliable(MergedOf(reqs).params, u)
    ensures DenotesExactly(GroupOut(reqs, order, u.singleLevel), reqs, u) <==> Compactable(reqs, keys, order, u)
  {
    if |reqs| > 1 {
      if CountOf(MergedOf(reqs).params, u.singleLevel) == |reqs| {
        FullBranch(reqs, verb, keys, u);
      } else if AllAxes(keys, order) {
        var out := SparseBranch(reqs, verb, keys, order, u);
      } else {
        var key :| key in keys && key !in order;
        if GroupOut(reqs, order, u.singleLevel).Ok? {
          var x := ForeignKey(reqs, verb, keys, order, u, key);
        }
      }
    }
  }
}
