/** Which axis `request` slices along, which pieces it merges, and in which order the pieces stand. */
module Picking {
  import opened Requests
  import opened Families
  import opened Compacting

  // ---- the axis -------------------------------------------------------------------------

  /** It has the fewest slices above one, and is the first axis that has so few. */
  lemma {:induction false} PickIsBest(shape: Shape, idxs: set<nat>, n: nat)
    requires shape.Valid() && shape.Indices(idxs) && n <= |shape.axes| && PickAxis(shape, idxs, n).Axis?
    ensures var best := PickAxis(shape, idxs, n).axis;
            forall a :: 0 <= a < n && |CoordsAlong(shape, idxs, a)| > 1 ==>
              && |CoordsAlong(shape, idxs, best)| <= |CoordsAlong(shape, idxs, a)|
              && (a < best ==> |CoordsAlong(shape, idxs, best)| < |CoordsAlong(shape, idxs, a)|)
  {
    if PickAxis(shape, idxs, n - 1).Axis? {
      PickIsBest(shape, idxs, n - 1);
    }
  }

  /** There is only one such axis. */
  lemma BestIsUnique(shape: Shape, idxs: set<nat>, best: nat)
    requires shape.Valid() && shape.Indices(idxs) && |idxs| > 1
    requires best < |shape.axes| && |CoordsAlong(shape, idxs, best)| > 1
    requires forall a :: 0 <= a < |shape.axes| && |CoordsAlong(shape, idxs, a)| > 1 ==>
               && |CoordsAlong(shape, idxs, best)| <= |CoordsAlong(shape, idxs, a)|
               && (a < best ==> |CoordsAlong(shape, idxs, best)| < |CoordsAlong(shape, idxs, a)|)
    ensures PickAxis(shape, idxs, |shape.axes|) == Axis(best)
  {
    AxisExists(shape, idxs);
    PickIsBest(shape, idxs, |shape.axes|);
    var picked := PickAxis(shape, idxs, |shape.axes|).axis;
    assert |CoordsAlong(shape, idxs, picked)| == |CoordsAlong(shape, idxs, best)|;
  }

  /** The pieces for every slice along an axis. */
  ghost function PartsOf(shape: Shape, idxs: set<nat>, axis: nat): (parts: seq<seq<Piece>>)
    requires shape.Valid() && shape.Indices(idxs) && axis < |shape.axes| && |CoordsAlong(shape, idxs, axis)| > 1
    ensures |parts| == |shape.axes[axis].values|
  {
    seq(|shape.axes[axis].values|, c requires 0 <= c < |shape.axes[axis].values| =>
      var slice := Slice(shape, idxs, axis, c);
      if slice == {} then [] else Compact(shape, slice))
  }

  lemma CompactMany(shape: Shape, idxs: set<nat>, axis: nat)
    requires shape.Valid() && shape.Indices(idxs) && |idxs| > 1
    requires PickAxis(shape, idxs, |shape.axes|) == Axis(axis)
    ensures Compact(shape, idxs) == Gather(PartsOf(shape, idxs, axis), shape.singleLevel)
  {
    AxisExists(shape, idxs);
    var n := |shape.axes[axis].values|;
    assert PartsOf(shape, idxs, axis) == seq(n, c requires 0 <= c < n =>
                                             var slice := Slice(shape, idxs, axis, c);
                                             if slice == {} then [] else Compact(shape, slice));
  }

  // ---- the merged piece -----------------------------------------------------------------

  /** The count of the bounding box of a piece and the last one. */
  function Together(pieces: seq<Piece>, k: nat, singleLevel: set<string>): nat
    requires k < |pieces|
  {
    CountOf(MergeParams(pieces[k].request.params, pieces[|pieces| - 1].request.params), singleLevel)
  }

  predicate Embeds(pieces: seq<Piece>, k: nat, singleLevel: set<string>)
    requires k < |pieces|
  {
    Together(pieces, k, singleLevel) == pieces[k].size
  }

  predicate Adjoins(pieces: seq<Piece>, k: nat, singleLevel: set<string>)
    requires k < |pieces|
  {
    && !Embeds(pieces, k, singleLevel)
    && Together(pieces, k, singleLevel) == pieces[k].size + pieces[|pieces| - 1].size
  }

  lemma RelationMeaning(pieces: seq<Piece>, singleLevel: set<string>, k: nat)
    requires k < |pieces| - 1
    ensures Relations(pieces, singleLevel)[k] == Embedded <==> Embeds(pieces, k, singleLevel)
    ensures Relations(pieces, singleLevel)[k] == Adjacent <==> Adjoins(pieces, k, singleLevel)
    ensures Adjoins(pieces, k, singleLevel) ==> pieces[k].size + pieces[|pieces| - 1].size > 0
  {
  }

  /** The search finds an embedding if there is one, and else the first of the largest adjacent pieces. */
  lemma {:induction false} SearchMeaning(pieces: seq<Piece>, relations: seq<Relation>, n: nat)
    requires n <= |relations| == |pieces| - 1
    requires forall k :: 0 <= k < n && relations[k] == Adjacent ==> pieces[k].size + pieces[|pieces| - 1].size > 0
    ensures var s := SearchUpTo(pieces, relations, n);
            && (s.Absorbed? <==> exists k :: 0 <= k < n && relations[k] == Embedded)
            && (s.Nothing? ==> forall k :: 0 <= k < n ==> relations[k] == Disjoint)
            && (s.Best? ==>
                  && s.size == pieces[s.index].size + pieces[|pieces| - 1].size
                  && forall k :: 0 <= k < n && relations[k] == Adjacent ==>
                       && pieces[k].size <= pieces[s.index].size
                       && (k < s.index ==> pieces[k].size < pieces[s.index].size))
  {
    if n > 0 {
      SearchMeaning(pieces, relations, n - 1);
    }
  }

  /** The last piece is dropped when it is embedded in another one, and else merged into the first of the
      largest adjacent ones; with no adjacent one the list stays as it is. */
  lemma MergeLastMeaning(pieces: seq<Piece>, singleLevel: set<string>)
    requires pieces != []
    ensures LastMerged(pieces, MergeLast(pieces, singleLevel).0, MergeLast(pieces, singleLevel).1, singleLevel)
  {
    var last := |pieces| - 1;
    forall k | 0 <= k < last
      ensures Relations(pieces, singleLevel)[k] == Embedded <==> Embeds(pieces, k, singleLevel)
      ensures Relations(pieces, singleLevel)[k] == Adjacent <==> Adjoins(pieces, k, singleLevel)
      ensures Adjoins(pieces, k, singleLevel) ==> pieces[k].size + pieces[last].size > 0
    {
      RelationMeaning(pieces, singleLevel, k);
    }
    SearchMeaning(pieces, Relations(pieces, singleLevel), last);
    var s := SearchUpTo(pieces, Relations(pieces, singleLevel), last);
    if s.Best? {
      assert IsLargest(pieces, s.index, singleLevel);
      assert IsMerged(pieces, s.index, MergeLast(pieces, singleLevel).1);
    }
  }

  ghost predicate LastMerged(before: seq<Piece>, merged: bool, after: seq<Piece>, singleLevel: set<string>)
    requires before != []
  {
    var last := |before| - 1;
    if exists k :: 0 <= k < last && Embeds(before, k, singleLevel) then !merged && after == before[..last]
    else if exists k :: 0 <= k < last && Adjoins(before, k, singleLevel) then
      merged && exists k :: 0 <= k < last && IsLargest(before, k, singleLevel) && IsMerged(before, k, after)
    else !merged && after == before
  }

  /** The first of the largest pieces that the last one adjoins. */
  ghost predicate IsLargest(pieces: seq<Piece>, best: nat, singleLevel: set<string>)
    requires best < |pieces|
  {
    && Adjoins(pieces, best, singleLevel)
    && forall k :: 0 <= k < |pieces| - 1 && Adjoins(pieces, k, singleLevel) ==>
         pieces[k].size <= pieces[best].size && (k < best ==> pieces[k].size < pieces[best].size)
  }

  /** Piece `k` has taken in the last one, which is gone; the others are untouched. */
  ghost predicate IsMerged(before: seq<Piece>, k: nat, after: seq<Piece>)
    requires k < |before| - 1
  {
    var last := before[|before| - 1];
    && |after| == |before| - 1
    && after[k].request.verb == before[k].request.verb
    && after[k].request.params == MergeParams(before[k].request.params, last.request.params)
    && after[k].size == before[k].size + last.size
    && forall j :: 0 <= j < |after| && j != k ==> after[j] == before[j]
  }

  // ---- the order of the pieces ----------------------------------------------------------

  /** A piece has the keys of the axes, each with values. */
  predicate Lined(p: Piece, axes: seq<Parameter>) {
    && |p.request.params| == |axes|
    && forall i :: 0 <= i < |axes| ==> p.request.params[i].name == axes[i].name && p.request.params[i].values != []
  }

  predicate AllLined(pieces: seq<Piece>, axes: seq<Parameter>) {
    forall k :: 0 <= k < |pieces| ==> Lined(pieces[k], axes)
  }

  predicate Fixed(p: Piece, axis: nat, v: string) {
    axis < |p.request.params| && p.request.params[axis].values == [v]
  }

  predicate AllFixed(pieces: seq<Piece>, axis: nat, v: string) {
    forall k :: 0 <= k < |pieces| ==> Fixed(pieces[k], axis, v)
  }

  lemma MergeValues(p: Piece, q: Piece, axes: seq<Parameter>, i: nat)
    requires DistinctNames(axes) && Lined(p, axes) && Lined(q, axes) && i < |axes|
    ensures MergePiece(p, q).request.params[i].values
            == Union(p.request.params[i].values, q.request.params[i].values)
  {
    assert DistinctNames(q.request.params);
    FindAt(q.request.params, i);
  }

  /** Merging keeps the first value along every axis. */
  lemma MergeLined(p: Piece, q: Piece, axes: seq<Parameter>)
    requires DistinctNames(axes) && Lined(p, axes) && Lined(q, axes)
    ensures Lined(MergePiece(p, q), axes)
    ensures forall i :: 0 <= i < |axes| ==>
              MergePiece(p, q).request.params[i].values[0] == p.request.params[i].values[0]
  {
    forall i | 0 <= i < |axes|
      ensures var v := MergePiece(p, q).request.params[i].values; v != [] && v[0] == p.request.params[i].values[0]
    {
      MergeValues(p, q, axes, i);
    }
  }

  lemma MergeFixed(p: Piece, q: Piece, axes: seq<Parameter>, axis: nat, v: string)
    requires DistinctNames(axes) && Lined(p, axes) && Lined(q, axes) && axis < |axes|
    requires Fixed(p, axis, v) && Fixed(q, axis, v)
    ensures Fixed(MergePiece(p, q), axis, v)
  {
    MergeValues(p, q, axes, axis);
    assert Without([v], [v]) == [];
  }

  /** These pieces stand at the front of the others, but for what they have taken in. */
  predicate Keeps(after: seq<Piece>, before: seq<Piece>, axes: seq<Parameter>)
    requires AllLined(after, axes) && AllLined(before, axes)
  {
    && |after| <= |before|
    && forall k, i :: 0 <= k < |after| && 0 <= i < |axes| ==>
         after[k].request.params[i].values[0] == before[k].request.params[i].values[0]
  }

  lemma MergeLastKeeps(pieces: seq<Piece>, axes: seq<Parameter>, singleLevel: set<string>)
    requires pieces != [] && DistinctNames(axes) && AllLined(pieces, axes)
    ensures AllLined(MergeLast(pieces, singleLevel).1, axes)
    ensures Keeps(MergeLast(pieces, singleLevel).1, pieces, axes)
    ensures forall axis: nat, v :: axis < |axes| && AllFixed(pieces, axis, v) ==>
              AllFixed(MergeLast(pieces, singleLevel).1, axis, v)
  {
    var last := |pieces| - 1;
    var s := SearchUpTo(pieces, Relations(pieces, singleLevel), last);
    if s.Best? {
      MergeLined(pieces[s.index], pieces[last], axes);
      forall axis: nat, v | axis < |axes| && AllFixed(pieces, axis, v)
        ensures Fixed(MergePiece(pieces[s.index], pieces[last]), axis, v)
      {
        MergeFixed(pieces[s.index], pieces[last], axes, axis, v);
      }
    }
  }

  lemma {:induction false} SettleKeeps(pieces: seq<Piece>, axes: seq<Parameter>, singleLevel: set<string>)
    requires pieces != [] && DistinctNames(axes) && AllLined(pieces, axes)
    ensures AllLined(Settle(pieces, singleLevel), axes) && Keeps(Settle(pieces, singleLevel), pieces, axes)
    ensures forall axis: nat, v :: axis < |axes| && AllFixed(pieces, axis, v) ==>
              AllFixed(Settle(pieces, singleLevel), axis, v)
    decreases |pieces|
  {
    MergeLastKeeps(pieces, axes, singleLevel);
    if MergeLast(pieces, singleLevel).0 {
      SettleKeeps(MergeLast(pieces, singleLevel).1, axes, singleLevel);
    }
  }

  lemma {:induction false} GatherLined(parts: seq<seq<Piece>>, axes: seq<Parameter>, singleLevel: set<string>)
    requires DistinctNames(axes) && forall c :: 0 <= c < |parts| ==> AllLined(parts[c], axes)
    ensures AllLined(Gather(parts, singleLevel), axes)
  {
    if parts != [] {
      var n := |parts| - 1;
      GatherLined(parts[..n], axes, singleLevel);
      if parts[n] != [] {
        SettleKeeps(Gather(parts[..n], singleLevel) + parts[n], axes, singleLevel);
      }
    }
  }

  lemma {:induction false} GatherFixed(parts: seq<seq<Piece>>, axes: seq<Parameter>, singleLevel: set<string>,
                                       axis: nat, v: string)
    requires DistinctNames(axes) && forall c :: 0 <= c < |parts| ==> AllLined(parts[c], axes)
    requires axis < |axes| && forall c :: 0 <= c < |parts| ==> AllFixed(parts[c], axis, v)
    ensures AllFixed(Gather(parts, singleLevel), axis, v)
  {
    if parts != [] {
      var n := |parts| - 1;
      GatherFixed(parts[..n], axes, singleLevel, axis, v);
      GatherLined(parts[..n], axes, singleLevel);
      if parts[n] != [] {
        SettleKeeps(Gather(parts[..n], singleLevel) + parts[n], axes, singleLevel);
      }
    }
  }

  /** Every piece has values along every axis, and the one value of an axis along which all cells agree. */
  lemma {:induction false} CompactLined(shape: Shape, idxs: set<nat>)
    requires shape.Valid() && shape.Indices(idxs) && idxs != {}
    ensures AllLined(Compact(shape, idxs), shape.axes)
    ensures forall axis: nat, c: nat ::
              axis < |shape.axes| && c < |shape.axes[axis].values| && idxs == Slice(shape, idxs, axis, c) ==>
                AllFixed(Compact(shape, idxs), axis, shape.axes[axis].values[c])
    decreases |idxs|
  {
    if |idxs| == 1 {
      assert TheIndex(idxs) in idxs;
    } else {
      AxisExists(shape, idxs);
      var best := PickAxis(shape, idxs, |shape.axes|).axis;
      CompactMany(shape, idxs, best);
      var parts := PartsOf(shape, idxs, best);
      forall k | 0 <= k < |parts|
        ensures AllLined(parts[k], shape.axes)
        ensures forall axis: nat, c: nat ::
                  axis < |shape.axes| && c < |shape.axes[axis].values| && idxs == Slice(shape, idxs, axis, c) ==>
                    AllFixed(parts[k], axis, shape.axes[axis].values[c])
      {
        PartLined(shape, idxs, best, k);
      }
      GatherLined(parts, shape.axes, shape.singleLevel);
      forall axis: nat, c: nat | axis < |shape.axes| && c < |shape.axes[axis].values|
                                 && idxs == Slice(shape, idxs, axis, c)
        ensures AllFixed(Compact(shape, idxs), axis, shape.axes[axis].values[c])
      {
        GatherFixed(parts, shape.axes, shape.singleLevel, axis, shape.axes[axis].values[c]);
      }
    }
  }

  lemma {:induction false} PartLined(shape: Shape, idxs: set<nat>, best: nat, k: nat)
    requires shape.Valid() && shape.Indices(idxs) && best < |shape.axes| && |CoordsAlong(shape, idxs, best)| > 1
    requires k < |shape.axes[best].values|
    ensures AllLined(PartsOf(shape, idxs, best)[k], shape.axes)
    ensures AllFixed(PartsOf(shape, idxs, best)[k], best, shape.axes[best].values[k])
    ensures forall axis: nat, c: nat ::
              axis < |shape.axes| && c < |shape.axes[axis].values| && idxs == Slice(shape, idxs, axis, c) ==>
                AllFixed(PartsOf(shape, idxs, best)[k], axis, shape.axes[axis].values[c])
    decreases |idxs|, 0
  {
    var slice := Slice(shape, idxs, best, k);
    SliceSmaller(shape, idxs, best, k);
    if slice != {} {
      CompactLined(shape, slice);
      assert slice == Slice(shape, slice, best, k);
      forall axis: nat, c: nat | axis < |shape.axes| && c < |shape.axes[axis].values|
                                 && idxs == Slice(shape, idxs, axis, c)
        ensures AllFixed(Compact(shape, slice), axis, shape.axes[axis].values[c])
      {
        assert slice == Slice(shape, slice, axis, c);
      }
    }
  }

  lemma {:induction false} GatherInOrder(parts: seq<seq<Piece>>, shape: Shape, axis: nat) returns (cs: seq<nat>)
    requires DistinctNames(shape.axes) && axis < |shape.axes| && |parts| <= |shape.axes[axis].values|
    requires forall c :: 0 <= c < |parts| ==>
               AllLined(parts[c], shape.axes) && AllFixed(parts[c], axis, shape.axes[axis].values[c])
    ensures AllLined(Gather(parts, shape.singleLevel), shape.axes)
    ensures InOrder(Gather(parts, shape.singleLevel), shape.axes, axis, cs)
    ensures forall k :: 0 <= k < |cs| ==> cs[k] < |parts|
  {
    cs := [];
    if parts != [] {
      var n := |parts| - 1;
      cs := GatherInOrder(parts[..n], shape, axis);
      if parts[n] != [] {
        cs := OneSliceMore(Gather(parts[..n], shape.singleLevel), parts[n], shape, axis, n, cs);
      }
    }
  }

  /** The first values of the pieces along the axis are those at these places of the axis, which ascend. */
  predicate InOrder(pieces: seq<Piece>, axes: seq<Parameter>, axis: nat, cs: seq<nat>)
    requires AllLined(pieces, axes) && axis < |axes|
  {
    && |cs| == |pieces|
    && (forall k :: 0 <= k < |cs| ==>
          cs[k] < |axes[axis].values| && pieces[k].request.params[axis].values[0] == axes[axis].values[cs[k]])
    && forall j, k :: 0 <= j < k < |cs| ==> cs[j] <= cs[k]
  }

  lemma OneSliceMore(before: seq<Piece>, part: seq<Piece>, shape: Shape, axis: nat, n: nat, cs: seq<nat>)
    returns (ds: seq<nat>)
    requires DistinctNames(shape.axes) && axis < |shape.axes| && n < |shape.axes[axis].values|
    requires AllLined(before, shape.axes) && InOrder(before, shape.axes, axis, cs)
    requires forall k :: 0 <= k < |cs| ==> cs[k] < n
    requires part != [] && AllLined(part, shape.axes) && AllFixed(part, axis, shape.axes[axis].values[n])
    ensures AllLined(Settle(before + part, shape.singleLevel), shape.axes)
    ensures InOrder(Settle(before + part, shape.singleLevel), shape.axes, axis, ds)
    ensures forall k :: 0 <= k < |ds| ==> ds[k] <= n
  {
    SettleKeeps(before + part, shape.axes, shape.singleLevel);
    var all := cs + seq(|part|, k => n);
    SliceInOrder(before, part, shape.axes, axis, n, cs, all);
    FrontInOrder(Settle(before + part, shape.singleLevel), before + part, shape.axes, axis, all);
    ds := all[..|Settle(before + part, shape.singleLevel)|];
  }

  lemma SliceInOrder(before: seq<Piece>, part: seq<Piece>, axes: seq<Parameter>, axis: nat, n: nat, cs: seq<nat>,
                     all: seq<nat>)
    requires axis < |axes| && n < |axes[axis].values| && AllLined(before, axes) && InOrder(before, axes, axis, cs)
    requires forall k :: 0 <= k < |cs| ==> cs[k] < n
    requires AllLined(part, axes) && AllFixed(part, axis, axes[axis].values[n])
    requires |all| == |cs| + |part| && all[..|cs|] == cs && forall k :: |cs| <= k < |all| ==> all[k] == n
    ensures InOrder(before + part, axes, axis, all)
  {
    forall k | 0 <= k < |all|
      ensures all[k] == if k < |cs| then cs[k] else n
    {
      assert k < |cs| ==> all[..|cs|][k] == all[k];
    }
  }

  lemma FrontInOrder(after: seq<Piece>, before: seq<Piece>, axes: seq<Parameter>, axis: nat, all: seq<nat>)
    requires AllLined(after, axes) && AllLined(before, axes) && Keeps(after, before, axes)
    requires axis < |axes| && InOrder(before, axes, axis, all)
    ensures InOrder(after, axes, axis, all[..|after|])
  {
  }

  /** The pieces stand in the order of their lowest coordinates along the axis with the fewest slices. */
  lemma PiecesInOrder(shape: Shape, idxs: set<nat>, best: nat) returns (cs: seq<nat>)
    requires shape.Valid() && shape.Indices(idxs) && |idxs| > 1
    requires best < |shape.axes| && |CoordsAlong(shape, idxs, best)| > 1
    requires forall a :: 0 <= a < |shape.axes| && |CoordsAlong(shape, idxs, a)| > 1 ==>
               && |CoordsAlong(shape, idxs, best)| <= |CoordsAlong(shape, idxs, a)|
               && (a < best ==> |CoordsAlong(shape, idxs, best)| < |CoordsAlong(shape, idxs, a)|)
    ensures Compact(shape, idxs) == Gather(PartsOf(shape, idxs, best), shape.singleLevel)
    ensures AllLined(Compact(shape, idxs), shape.axes) && InOrder(Compact(shape, idxs), shape.axes, best, cs)
  {
    BestIsUnique(shape, idxs, best);
    CompactMany(shape, idxs, best);
    var parts := PartsOf(shape, idxs, best);
    forall k | 0 <= k < |parts|
      ensures AllLined(parts[k], shape.axes) && AllFixed(parts[k], best, shape.axes[best].values[k])
    {
      PartLined(shape, idxs, best, k);
    }
    cs := GatherInOrder(parts, shape, best);
  }
}
