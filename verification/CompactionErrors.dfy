/** When the compaction is an error. */
module CompactionErrors {
  import opened Requests
  import opened Compacting
  import opened HyperCubes
  import opened Compaction
  import opened Results

  /** The request has no value or several for a key that is an axis of the cube. */
  ghost predicate Ambiguous(r: Request, merged: Request, order: seq<string>) {
    exists key :: key in order && ValuesOf(merged.params, key) != [] && |ValuesOf(r.params, key)| != 1
  }

  lemma {:induction false} CoordsError(axes: seq<Parameter>, ps: seq<Parameter>)
    requires forall i :: 0 <= i < |axes| && |ValuesOf(ps, axes[i].name)| == 1 ==>
               ValuesOf(ps, axes[i].name)[0] in axes[i].values
    ensures CoordsOf(axes, ps).UserError? <==> exists i :: 0 <= i < |axes| && |ValuesOf(ps, axes[i].name)| != 1
  {
    if axes != [] && |ValuesOf(ps, axes[0].name)| == 1 {
      CoordsError(axes[1..], ps);
      if i :| 0 <= i < |axes[1..]| && |ValuesOf(ps, axes[1..][i].name)| != 1 {
        assert axes[i + 1] == axes[1..][i];
      }
      if i :| 0 <= i < |axes| && |ValuesOf(ps, axes[i].name)| != 1 {
        assert axes[i] == axes[1..][i - 1];
      }
    }
  }

  lemma {:induction false} TakenError(shape: Shape, reqs: seq<Request>)
    ensures TakenBy(shape, reqs).Error? <==>
            exists k :: 0 <= k < |reqs| && CoordsOf(shape.axes, reqs[k].params).UserError?
  {
    if reqs != [] {
      var n := |reqs| - 1;
      TakenError(shape, reqs[..n]);
      assert forall k :: 0 <= k < n ==> reqs[..n][k] == reqs[k];
    }
  }

  lemma {:induction false} FindSameKeys(a: seq<Parameter>, b: seq<Parameter>, name: string)
    requires |a| == |b| && forall i :: 0 <= i < |a| ==> a[i].name == b[i].name
    ensures Find(a, name) == Find(b, name)
  {
    if a != [] && a[0].name != name {
      FindSameKeys(a[1..], b[1..], name);
    }
  }

  /** The one value that a request of the group has for an axis is on the axis. */
  lemma ValueOnAxis(reqs: seq<Request>, k: nat, key: string)
    requires k < |reqs| && ValuesOf(MergedOf(reqs).params, key) != [] && |ValuesOf(reqs[k].params, key)| == 1
    ensures ValuesOf(reqs[k].params, key)[0] in ValuesOf(MergedOf(reqs).params, key)
  {
    MergedKeys(reqs);
    FindSameKeys(MergedOf(reqs).params, reqs[0].params, key);
    MergedValues(reqs, Find(reqs[0].params, key), ValuesOf(reqs[k].params, key)[0]);
  }

  /** A group is an error exactly when it is not full and one of its requests is ambiguous. */
  lemma GroupIsError(reqs: seq<Request>, order: seq<string>, singleLevel: set<string>)
    requires reqs != [] && Distinct(order)
    ensures GroupOut(reqs, order, singleLevel).Error? <==>
            && |reqs| > 1 && CountOf(MergedOf(reqs).params, singleLevel) != |reqs|
            && exists k :: 0 <= k < |reqs| && Ambiguous(reqs[k], MergedOf(reqs), order)
  {
    var merged := MergedOf(reqs);
    var axes := AxesOf(merged.params, order);
    AxesOfValid(merged.params, order);
    TakenError(CubeOf(merged, order, singleLevel), reqs);
    forall k | 0 <= k < |reqs|
      ensures CoordsOf(axes, reqs[k].params).UserError? <==> Ambiguous(reqs[k], merged, order)
    {
      AmbiguousIsError(reqs, k, order);
    }
  }

  lemma AmbiguousIsError(reqs: seq<Request>, k: nat, order: seq<string>)
    requires k < |reqs| && Distinct(order)
    ensures CoordsOf(AxesOf(MergedOf(reqs).params, order), reqs[k].params).UserError? <==>
            Ambiguous(reqs[k], MergedOf(reqs), order)
  {
    var merged := MergedOf(reqs);
    var axes := AxesOf(merged.params, order);
    AxesOfValid(merged.params, order);
    forall i | 0 <= i < |axes| && |ValuesOf(reqs[k].params, axes[i].name)| == 1
      ensures ValuesOf(reqs[k].params, axes[i].name)[0] in axes[i].values
    {
      ValueOnAxis(reqs, k, axes[i].name);
    }
    CoordsError(axes, reqs[k].params);
    if key :| key in order && ValuesOf(merged.params, key) != [] && |ValuesOf(reqs[k].params, key)| != 1 {
      assert Has(axes, key);
      assert axes[Find(axes, key)].name == key;
    }
  }

  ghost predicate GroupError(requests: seq<Request>, keys: set<string>, order: seq<string>, singleLevel: set<string>)
    requires Distinct(order)
  {
    WithKeys(requests, keys) != [] && GroupOut(WithKeys(requests, keys), order, singleLevel).Error?
  }

  ghost predicate SomeError(requests: seq<Request>, groups: seq<set<string>>, order: seq<string>,
                            singleLevel: set<string>)
    requires Distinct(order)
  {
    exists keys :: keys in groups && GroupError(requests, keys, order, singleLevel)
  }

  lemma SomeErrorLast(requests: seq<Request>, groups: seq<set<string>>, order: seq<string>, singleLevel: set<string>)
    requires Distinct(order) && groups != []
    ensures var n := |groups| - 1;
            SomeError(requests, groups, order, singleLevel) <==>
            SomeError(requests, groups[..n], order, singleLevel)
            || GroupError(requests, groups[n], order, singleLevel)
  {
    assert groups == groups[..|groups| - 1] + [groups[|groups| - 1]];
  }

  lemma {:induction false} AllOutError(requests: seq<Request>, groups: seq<set<string>>, order: seq<string>,
                                       singleLevel: set<string>)
    requires Distinct(order) && AreGroups(requests, groups)
    ensures AllOut(requests, groups, order, singleLevel).Error? <==> SomeError(requests, groups, order, singleLevel)
  {
    if groups != [] {
      AllOutError(requests, groups[..|groups| - 1], order, singleLevel);
      LastGroup(requests, groups, order, singleLevel);
      SomeErrorLast(requests, groups, order, singleLevel);
    }
  }

  lemma LastGroup(requests: seq<Request>, groups: seq<set<string>>, order: seq<string>, singleLevel: set<string>)
    requires Distinct(order) && AreGroups(requests, groups) && groups != []
    ensures var n := |groups| - 1;
            AllOut(requests, groups, order, singleLevel).Error? <==>
            AllOut(requests, groups[..n], order, singleLevel).Error?
            || GroupError(requests, groups[n], order, singleLevel)
  {
    assert groups[|groups| - 1] in groups;
  }

  /** Several requests that do not fill a box, one of them ambiguous. */
  ghost predicate GroupFails(reqs: seq<Request>, order: seq<string>, singleLevel: set<string>) {
    && |reqs| > 1 && CountOf(MergedOf(reqs).params, singleLevel) != |reqs|
    && exists k :: 0 <= k < |reqs| && Ambiguous(reqs[k], MergedOf(reqs), order)
  }

  lemma ErrorIsFailure(requests: seq<Request>, keys: set<string>, order: seq<string>, singleLevel: set<string>)
    requires Distinct(order) && keys in KeySets(requests)
    ensures GroupError(requests, keys, order, singleLevel) <==>
            GroupFails(WithKeys(requests, keys), order, singleLevel)
  {
    GroupsNotEmpty(requests, keys);
    GroupIsError(WithKeys(requests, keys), order, singleLevel);
  }

  /** The compaction is an error exactly when one of its groups is. */
  lemma CompactionIsError(requests: seq<Request>, groups: seq<set<string>>, order: seq<string>,
                          singleLevel: set<string>, res: Result<seq<Request>>)
    requires Distinct(order) && CompactedInOrder(requests, groups, order, singleLevel, res)
    ensures res.Error? <==>
            exists keys :: keys in KeySets(requests) && GroupFails(WithKeys(requests, keys), order, singleLevel)
  {
    AllOutError(requests, groups, order, singleLevel);
    if res.Error? {
      var keys :| keys in groups && GroupError(requests, keys, order, singleLevel);
      GroupsNotEmpty(requests, keys);
      ErrorIsFailure(requests, keys, order, singleLevel);
    } else {
      forall keys | keys in KeySets(requests)
        ensures !GroupFails(WithKeys(requests, keys), order, singleLevel)
      {
        ErrorIsFailure(requests, keys, order, singleLevel);
      }
    }
  }
}
