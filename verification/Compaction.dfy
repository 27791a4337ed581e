/** The compaction step of the tools: requests with the same keys are merged into one when they fill a
    box, and otherwise described by the requests of a cube. */
module Compaction {
  import opened Requests
  import opened Compacting
  import opened Cubes
  import opened HyperCubes
  import opened Results
  import Picking

  // ---- the specification ----------------------------------------------------------------

  function MergedOf(reqs: seq<Request>): Request
    requires reqs != []
  {
    var n := |reqs| - 1;
    if n == 0 then reqs[0] else Merge(MergedOf(reqs[..n]), reqs[n])
  }

  /** The cells taken by clearing these requests, or an error. */
  function TakenBy(shape: Shape, reqs: seq<Request>): Result<set<nat>> {
    if reqs == [] then Ok({})
    else
      var n := |reqs| - 1;
      var before := TakenBy(shape, reqs[..n]);
      if before.Error? || CoordsOf(shape.axes, reqs[n].params).UserError? then Error
      else Ok(before.value + CellOf(shape, reqs[n].params))
  }

  /** The cell that a request takes, if it is in the cube. */
  function CellOf(shape: Shape, ps: seq<Parameter>): set<nat> {
    match CoordsOf(shape.axes, ps)
    case At(c) => if c in shape.number && shape.number[c] < |shape.cells| then {shape.number[c]} else {}
    case _ => {}
  }

  lemma {:induction false} TakenAreIndices(shape: Shape, reqs: seq<Request>)
    ensures TakenBy(shape, reqs).Ok? ==> shape.Indices(TakenBy(shape, reqs).value)
  {
    if reqs != [] {
      TakenAreIndices(shape, reqs[..|reqs| - 1]);
    }
  }

  function CubeOf(merged: Request, order: seq<string>, singleLevel: set<string>): Shape {
    RowMajor(merged.verb, AxesOf(merged.params, order), singleLevel)
  }

  /** What one group of requests with the same keys becomes. */
  ghost function GroupOut(reqs: seq<Request>, order: seq<string>, singleLevel: set<string>): Result<seq<Request>>
    requires reqs != [] && Distinct(order)
  {
    var merged := MergedOf(reqs);
    if |reqs| == 1 then Ok(reqs)
    else if CountOf(merged.params, singleLevel) == |reqs| then Ok([merged])
    else
      var shape := CubeOf(merged, order, singleLevel);
      AxesOfValid(merged.params, order);
      RowMajorValid(merged.verb, AxesOf(merged.params, order), singleLevel);
      TakenAreIndices(shape, reqs);
      match TakenBy(shape, reqs)
      case Error => Error
      case Ok(taken) => Ok(RequestsFor(shape, taken))
  }

  // ---- verbs ----------------------------------------------------------------------------

  predicate AllVerb(pieces: seq<Piece>, verb: string) {
    forall k :: 0 <= k < |pieces| ==> pieces[k].request.verb == verb
  }

  lemma {:induction false} SettleVerb(pieces: seq<Piece>, verb: string, singleLevel: set<string>)
    requires pieces != [] && AllVerb(pieces, verb)
    ensures AllVerb(Settle(pieces, singleLevel), verb)
    decreases |pieces|
  {
    var (merged, rest) := MergeLast(pieces, singleLevel);
    assert AllVerb(rest, verb);
    if merged {
      SettleVerb(rest, verb, singleLevel);
    }
  }

  lemma {:induction false} GatherVerb(parts: seq<seq<Piece>>, verb: string, singleLevel: set<string>)
    requires forall c :: 0 <= c < |parts| ==> AllVerb(parts[c], verb)
    ensures AllVerb(Gather(parts, singleLevel), verb)
  {
    if parts != [] {
      var n := |parts| - 1;
      GatherVerb(parts[..n], verb, singleLevel);
      if parts[n] != [] {
        SettleVerb(Gather(parts[..n], singleLevel) + parts[n], verb, singleLevel);
      }
    }
  }

  lemma {:induction false} CompactVerb(shape: Shape, idxs: set<nat>)
    requires shape.Valid() && shape.Indices(idxs) && idxs != {}
    ensures AllVerb(Compact(shape, idxs), shape.verb)
    decreases |idxs|
  {
    if |idxs| == 1 {
      assert TheIndex(idxs) in idxs;
    } else {
      AxisExists(shape, idxs);
      var best := PickAxis(shape, idxs, |shape.axes|).axis;
      Picking.CompactMany(shape, idxs, best);
      var parts := Picking.PartsOf(shape, idxs, best);
      forall c | 0 <= c < |parts|
        ensures AllVerb(parts[c], shape.verb)
      {
        var slice := Slice(shape, idxs, best, c);
        SliceSmaller(shape, idxs, best, c);
        if slice != {} {
          CompactVerb(shape, slice);
        }
      }
      GatherVerb(parts, shape.verb, shape.singleLevel);
    }
  }

  lemma {:induction false} MergedVerb(reqs: seq<Request>)
    requires reqs != []
    ensures MergedOf(reqs).verb == reqs[0].verb
  {
    if |reqs| > 1 {
      MergedVerb(reqs[..|reqs| - 1]);
    }
  }

  /** Whichever branch a group takes, it comes out with the verb of its first request. */
  lemma GroupVerb(reqs: seq<Request>, order: seq<string>, singleLevel: set<string>)
    requires reqs != [] && Distinct(order) && GroupOut(reqs, order, singleLevel).Ok?
    ensures forall q :: q in GroupOut(reqs, order, singleLevel).value ==> q.verb == reqs[0].verb
  {
    var merged := MergedOf(reqs);
    MergedVerb(reqs);
    if |reqs| > 1 && CountOf(merged.params, singleLevel) != |reqs| {
      var shape := CubeOf(merged, order, singleLevel);
      AxesOfValid(merged.params, order);
      RowMajorValid(merged.verb, AxesOf(merged.params, order), singleLevel);
      TakenAreIndices(shape, reqs);
      var taken := TakenBy(shape, reqs).value;
      if taken != {} {
        CompactVerb(shape, taken);
      }
    }
  }

  // ---- the merged request ---------------------------------------------------------------

  /** The keys and types are those of the first request, in its order.  A key has the values that some request
      of the group has for it, in the order in which they come up. */
  lemma {:induction false} MergedKeys(reqs: seq<Request>)
    requires reqs != []
    ensures var m := MergedOf(reqs).params;
            && |m| == |reqs[0].params|
            && forall i :: 0 <= i < |m| ==>
                 && m[i].name == reqs[0].params[i].name && m[i].flatten == reqs[0].params[i].flatten
                 && reqs[0].params[i].values <= m[i].values
  {
    if |reqs| > 1 {
      MergedKeys(reqs[..|reqs| - 1]);
    }
  }

  lemma {:induction false} MergedValues(reqs: seq<Request>, i: nat, v: string)
    requires reqs != [] && i < |reqs[0].params| == |MergedOf(reqs).params|
    ensures v in MergedOf(reqs).params[i].values <==>
            || v in reqs[0].params[i].values
            || exists k :: 0 < k < |reqs| && v in ValuesOf(reqs[k].params, reqs[0].params[i].name)
  {
    var n := |reqs| - 1;
    if n > 0 {
      MergedKeys(reqs[..n]);
      MergedValues(reqs[..n], i, v);
      InUnion(MergedOf(reqs[..n]).params[i].values, ValuesOf(reqs[n].params, reqs[0].params[i].name));
    }
  }

  /** What a further request adds goes after what is there. */
  lemma MergedGrows(reqs: seq<Request>, r: Request, i: nat)
    requires reqs != [] && i < |reqs[0].params|
    requires |MergedOf(reqs).params| == |MergedOf(reqs + [r]).params| == |reqs[0].params|
    ensures MergedOf(reqs).params[i].values <= MergedOf(reqs + [r]).params[i].values
  {
    assert (reqs + [r])[..|reqs|] == reqs;
  }

  /** One request for the whole group, with the verb of its first request, and the keys, in the order and with the
      types, of that request. */
  ghost predicate Combines(r: Request, reqs: seq<Request>)
    requires reqs != []
  {
    && r.verb == reqs[0].verb
    && |r.params| == |reqs[0].params|
    && forall i :: 0 <= i < |r.params| ==>
         && r.params[i].name == reqs[0].params[i].name
         && r.params[i].flatten == reqs[0].params[i].flatten
         && reqs[0].params[i].values <= r.params[i].values
         && forall v :: v in r.params[i].values <==>
                        || v in reqs[0].params[i].values
                        || exists k :: 0 < k < |reqs| && v in ValuesOf(reqs[k].params, reqs[0].params[i].name)
  }

  lemma MergedCombines(reqs: seq<Request>)
    requires reqs != []
    ensures Combines(MergedOf(reqs), reqs)
  {
    MergedVerb(reqs);
    MergedKeys(reqs);
    forall i, v | 0 <= i < |reqs[0].params|
      ensures v in MergedOf(reqs).params[i].values <==>
              || v in reqs[0].params[i].values
              || exists k :: 0 < k < |reqs| && v in ValuesOf(reqs[k].params, reqs[0].params[i].name)
    {
      MergedValues(reqs, i, v);
    }
  }

  // ---- the operation --------------------------------------------------------------------

  method MergeRequests(reqs: seq<Request>) returns (merged: Request)
    requires reqs != [] && DistinctNames(reqs[0].params)
    ensures merged == MergedOf(reqs) && DistinctNames(merged.params)
  {
    var m := new MarsRequest(reqs[0]);
    assert reqs[..1] == [reqs[0]];
    for i := 1 to |reqs|
      invariant m.Value() == MergedOf(reqs[..i]) && DistinctNames(m.params)
    {
      assert reqs[..i + 1][..i] == reqs[..i];
      MergeNames(m.params, reqs[i].params);
      m.Merge(reqs[i]);
    }
    assert reqs[..|reqs|] == reqs;
    merged := m.Value();
  }

  method CompactGroup(reqs: seq<Request>, order: seq<string>, singleLevel: set<string>)
    returns (out: Result<seq<Request>>)
    requires reqs != [] && Distinct(order) && DistinctNames(reqs[0].params)
    ensures out == GroupOut(reqs, order, singleLevel)
    ensures out.Ok? ==> forall q :: q in out.value ==> q.verb == reqs[0].verb
    ensures |reqs| == 1 ==> out == Ok(reqs)
    ensures |reqs| > 1 && CountOf(MergedOf(reqs).params, singleLevel) == |reqs| ==>
              out.Ok? && |out.value| == 1 && Combines(out.value[0], reqs)
  {
    if GroupOut(reqs, order, singleLevel).Ok? {
      GroupVerb(reqs, order, singleLevel);
    }
    MergedCombines(reqs);
    if |reqs| == 1 {
      return Ok(reqs);
    }
    var merged := MergeRequests(reqs);
    var count := CountParams(merged.params, singleLevel);
    CountOfDistinct(merged.params, singleLevel);
    if count == |reqs| {
      return Ok([merged]);
    }
    var h := new HyperCube(merged, order, singleLevel);
    var cleared := ClearAll(h, reqs);
    if cleared.Error? {
      return Error;
    }
    var requests := h.TakenRequests();
    TakenAreIndices(h.shape, reqs);
    assert AllIndices(h.shape) - h.Vacant() == TakenBy(h.shape, reqs).value;
    out := Ok(requests);
  }

  method ClearAll(h: HyperCube, reqs: seq<Request>) returns (res: Result<()>)
    requires h.Valid() && h.Vacant() == AllIndices(h.shape)
    modifies h
    ensures h.Valid()
    ensures res.Error? <==> TakenBy(h.shape, reqs).Error?
    ensures res.Ok? ==> h.Vacant() == AllIndices(h.shape) - TakenBy(h.shape, reqs).value
  {
    ghost var taken: set<nat> := {};
    for i := 0 to |reqs|
      invariant h.Valid()
      invariant TakenBy(h.shape, reqs[..i]) == Ok(taken) && h.Vacant() == AllIndices(h.shape) - taken
    {
      TakenNextRequest(h.shape, reqs, i, taken);
      var cleared := h.Clear(reqs[i]);
      if cleared.Error? {
        ErrorStays(h.shape, reqs, i + 1);
        return Error;
      }
      LeaveOut(AllIndices(h.shape), taken, CellOf(h.shape, reqs[i].params));
      taken := taken + CellOf(h.shape, reqs[i].params);
    }
    assert reqs[..|reqs|] == reqs;
    res := Ok(());
  }

  /** What clearing one more request takes. */
  lemma TakenNextRequest(shape: Shape, reqs: seq<Request>, i: nat, before: set<nat>)
    requires i < |reqs| && TakenBy(shape, reqs[..i]) == Ok(before)
    ensures TakenBy(shape, reqs[..i + 1]) ==
            if CoordsOf(shape.axes, reqs[i].params).UserError? then Error
            else Ok(before + CellOf(shape, reqs[i].params))
  {
    assert reqs[..i + 1][..i] == reqs[..i];
  }

  lemma LeaveOut<T>(all: set<T>, a: set<T>, b: set<T>)
    ensures all - a - b == all - (a + b)
  {
  }

  lemma {:induction false} ErrorStays(shape: Shape, reqs: seq<Request>, i: nat)
    requires i <= |reqs| && TakenBy(shape, reqs[..i]).Error?
    ensures TakenBy(shape, reqs).Error?
    decreases |reqs|
  {
    if i == |reqs| {
      assert reqs[..i] == reqs;
    } else {
      var n := |reqs| - 1;
      assert reqs[..n][..i] == reqs[..i];
      ErrorStays(shape, reqs[..n], i);
    }
  }

  // ---- all groups -----------------------------------------------------------------------

  /** The requests with exactly these keys, in order. */
  function WithKeys(requests: seq<Request>, keys: set<string>): seq<Request> {
    if requests == [] then []
    else
      var n := |requests| - 1;
      WithKeys(requests[..n], keys) + (if Names(requests[n].params) == keys then [requests[n]] else [])
  }

  function KeySets(requests: seq<Request>): set<set<string>> {
    if requests == [] then {}
    else KeySets(requests[..|requests| - 1]) + {Names(requests[|requests| - 1].params)}
  }

  lemma {:induction false} GroupsNotEmpty(requests: seq<Request>, keys: set<string>)
    ensures WithKeys(requests, keys) != [] <==> keys in KeySets(requests)
    ensures forall i :: 0 <= i < |WithKeys(requests, keys)| ==> WithKeys(requests, keys)[i] in requests
  {
    if requests != [] {
      GroupsNotEmpty(requests[..|requests| - 1], keys);
    }
  }

  ghost predicate AreGroups(requests: seq<Request>, groups: seq<set<string>>) {
    forall keys :: keys in groups ==> WithKeys(requests, keys) != []
  }

  /** The groups in this order, one after the other; an error of one is an error of all. */
  ghost function AllOut(requests: seq<Request>, groups: seq<set<string>>, order: seq<string>,
                        singleLevel: set<string>): Result<seq<Request>>
    requires Distinct(order) && AreGroups(requests, groups)
  {
    if groups == [] then Ok([])
    else
      var n := |groups| - 1;
      assert groups[n] in groups;
      match AllOut(requests, groups[..n], order, singleLevel)
      case Error => Error
      case Ok(before) =>
        match GroupOut(WithKeys(requests, groups[n]), order, singleLevel)
        case Error => Error
        case Ok(out) => Ok(before + out)
  }

  /** What comes out has the verb of the first request with its set of keys. */
  ghost predicate VerbOfGroup(requests: seq<Request>, verb: string) {
    exists keys :: WithKeys(requests, keys) != [] && WithKeys(requests, keys)[0].verb == verb
  }

  lemma {:induction false} AllOutVerb(requests: seq<Request>, groups: seq<set<string>>, order: seq<string>,
                                      singleLevel: set<string>)
    requires Distinct(order) && AreGroups(requests, groups) && AllOut(requests, groups, order, singleLevel).Ok?
    ensures forall q :: q in AllOut(requests, groups, order, singleLevel).value ==> VerbOfGroup(requests, q.verb)
  {
    if groups != [] {
      var n := |groups| - 1;
      assert groups[n] in groups;
      AllOutVerb(requests, groups[..n], order, singleLevel);
      GroupVerb(WithKeys(requests, groups[n]), order, singleLevel);
    }
  }

  /** So no verb comes up that was not given. */
  lemma VerbIsGiven(requests: seq<Request>, groups: seq<set<string>>, order: seq<string>, singleLevel: set<string>,
                    res: Result<seq<Request>>)
    requires Distinct(order) && CompactedInOrder(requests, groups, order, singleLevel, res) && res.Ok?
    ensures forall q :: q in res.value ==> exists i :: 0 <= i < |requests| && requests[i].verb == q.verb
  {
    AllOutVerb(requests, groups, order, singleLevel);
    forall q | q in res.value
      ensures exists i :: 0 <= i < |requests| && requests[i].verb == q.verb
    {
      var keys :| WithKeys(requests, keys) != [] && WithKeys(requests, keys)[0].verb == q.verb;
      GroupsNotEmpty(requests, keys);
      assert WithKeys(requests, keys)[0] in requests;
    }
  }

  method GroupByKeys(requests: seq<Request>) returns (groups: map<set<string>, seq<Request>>)
    ensures groups.Keys == KeySets(requests)
    ensures forall keys :: keys in groups ==> groups[keys] == WithKeys(requests, keys)
  {
    groups := map[];
    for i := 0 to |requests|
      invariant groups.Keys == KeySets(requests[..i])
      invariant forall keys :: keys in groups ==> groups[keys] == WithKeys(requests[..i], keys)
    {
      assert requests[..i + 1][..i] == requests[..i];
      var keys := Names(requests[i].params);
      GroupsNotEmpty(requests[..i], keys);
      var before := if keys in groups then groups[keys] else [];
      groups := groups[keys := before + [requests[i]]];
    }
    assert requests[..|requests|] == requests;
  }

  /** The groups are compacted in this order, all of them unless there is an error. */
  ghost predicate CompactedInOrder(requests: seq<Request>, groups: seq<set<string>>, order: seq<string>,
                                   singleLevel: set<string>, res: Result<seq<Request>>)
    requires Distinct(order)
  {
    && Distinct(groups) && AreGroups(requests, groups)
    && res == AllOut(requests, groups, order, singleLevel)
    && (res.Ok? ==> forall keys :: keys in KeySets(requests) ==> keys in groups)
  }

  /** The block that both tools run on a list of two or more requests.  The groups are taken in some order. */
  method CompactRequests(requests: seq<Request>, order: seq<string>, singleLevel: set<string>)
    returns (res: Result<seq<Request>>)
    requires Distinct(order) && forall i :: 0 <= i < |requests| ==> DistinctNames(requests[i].params)
    ensures |requests| <= 1 ==> res == Ok(requests)
    ensures |requests| > 1 ==> exists groups :: CompactedInOrder(requests, groups, order, singleLevel, res)
    ensures res.Ok? ==> forall q :: q in res.value ==> exists i :: 0 <= i < |requests| && requests[i].verb == q.verb
  {
    if |requests| <= 1 {
      return Ok(requests);
    }
    var coherent := GroupByKeys(requests);
    ghost var groups;
    res, groups := CompactGroups(requests, coherent, order, singleLevel);
    assert CompactedInOrder(requests, groups, order, singleLevel, res);
    if res.Ok? {
      VerbIsGiven(requests, groups, order, singleLevel, res);
    }
  }

  method CompactGroups(requests: seq<Request>, coherent: map<set<string>, seq<Request>>, order: seq<string>,
                       singleLevel: set<string>)
    returns (res: Result<seq<Request>>, ghost groups: seq<set<string>>)
    requires Distinct(order) && forall i :: 0 <= i < |requests| ==> DistinctNames(requests[i].params)
    requires coherent.Keys == KeySets(requests)
    requires forall keys :: keys in coherent ==> coherent[keys] == WithKeys(requests, keys)
    ensures Distinct(groups) && AreGroups(requests, groups) && res == AllOut(requests, groups, order, singleLevel)
    ensures res.Ok? ==> forall keys :: keys in KeySets(requests) ==> keys in groups
  {
    groups := [];
    var rest := coherent.Keys;
    var out: seq<Request> := [];
    while rest != {}
      invariant GroupsTaken(requests, coherent.Keys - rest, groups, order, singleLevel, out) && rest <= coherent.Keys
      decreases rest
    {
      var keys :| keys in rest;
      var one := CompactOne(requests, coherent[keys], keys, order, singleLevel);
      NextGroupTaken(requests, coherent.Keys - rest, groups, keys, order, singleLevel, out, one);
      assert coherent.Keys - rest + {keys} == coherent.Keys - (rest - {keys});
      groups := groups + [keys];
      rest := rest - {keys};
      if one.Error? {
        return Error, groups;
      }
      out := out + one.value;
    }
    res := Ok(out);
  }

  /** These groups, each once, with this result. */
  ghost predicate GroupsTaken(requests: seq<Request>, done: set<set<string>>, groups: seq<set<string>>,
                              order: seq<string>, singleLevel: set<string>, out: seq<Request>)
    requires Distinct(order)
  {
    && Distinct(groups) && AreGroups(requests, groups)
    && (forall keys :: keys in groups <==> keys in done)
    && AllOut(requests, groups, order, singleLevel) == Ok(out)
  }

  lemma NextGroupTaken(requests: seq<Request>, done: set<set<string>>, groups: seq<set<string>>, keys: set<string>,
                       order: seq<string>, singleLevel: set<string>, out: seq<Request>, one: Result<seq<Request>>)
    requires Distinct(order) && GroupsTaken(requests, done, groups, order, singleLevel, out) && keys !in done
    requires WithKeys(requests, keys) != [] && one == GroupOut(WithKeys(requests, keys), order, singleLevel)
    ensures Distinct(groups + [keys]) && AreGroups(requests, groups + [keys])
    ensures if one.Error? then AllOut(requests, groups + [keys], order, singleLevel) == Error
            else GroupsTaken(requests, done + {keys}, groups + [keys], order, singleLevel, out + one.value)
  {
    AllOutNext(requests, groups, keys, order, singleLevel);
    DistinctSnoc(groups, keys);
  }

  lemma DistinctSnoc<T>(s: seq<T>, x: T)
    requires Distinct(s) && x !in s
    ensures Distinct(s + [x])
  {
  }

  method CompactOne(ghost requests: seq<Request>, reqs: seq<Request>, ghost keys: set<string>, order: seq<string>,
                    singleLevel: set<string>)
    returns (one: Result<seq<Request>>)
    requires Distinct(order) && forall i :: 0 <= i < |requests| ==> DistinctNames(requests[i].params)
    requires keys in KeySets(requests) && reqs == WithKeys(requests, keys)
    ensures WithKeys(requests, keys) != [] && one == GroupOut(WithKeys(requests, keys), order, singleLevel)
  {
    GroupsNotEmpty(requests, keys);
    assert reqs[0] in requests;
    one := CompactGroup(reqs, order, singleLevel);
  }

  lemma AllOutNext(requests: seq<Request>, groups: seq<set<string>>, keys: set<string>, order: seq<string>,
                   singleLevel: set<string>)
    requires Distinct(order) && AreGroups(requests, groups) && WithKeys(requests, keys) != []
    ensures AreGroups(requests, groups + [keys])
    ensures AllOut(requests, groups + [keys], order, singleLevel) ==
            match AllOut(requests, groups, order, singleLevel)
            case Error => Error
            case Ok(before) =>
              match GroupOut(WithKeys(requests, keys), order, singleLevel)
              case Error => Error
              case Ok(out) => Ok(before + out)
  {
    assert (groups + [keys])[..|groups|] == groups;
  }
}
