/** The whole compaction step: all groups together. */
module CompactionTheorem {
  import opened Requests
  import opened Fields
  import opened HyperCubes
  import opened Results
  import opened Compaction
  import opened CompactionExact

  /** Every request has one value for each of its keys, and is a field. */
  ghost predicate PlainInput(requests: seq<Request>, verb: string, u: Universe) {
    forall i :: 0 <= i < |requests| ==> PlainRequest(requests[i], verb, Names(requests[i].params), u)
  }

  lemma {:induction false} GroupIsPlain(requests: seq<Request>, verb: string, keys: set<string>, u: Universe)
    requires PlainInput(requests, verb, u)
    ensures PlainGroup(WithKeys(requests, keys), verb, keys, u)
  {
    if requests != [] {
      GroupIsPlain(requests[..|requests| - 1], verb, keys, u);
    }
  }

  lemma CellKeys(r: Request, verb: string, u: Universe)
    requires PlainRequest(r, verb, Names(r.params), u)
    ensures FieldOf(r.params).Keys == Names(r.params)
  {
    forall name
      ensures name in FieldOf(r.params) <==> name in Names(r.params)
    {
      SingleValue(r.params, name);
    }
  }

  lemma DenotedSnoc(rs: seq<Request>, r: Request, u: Universe)
    ensures Denoted(rs + [r], u) == Denoted(rs, u) + FieldCells(r.params, u)
  {
    assert (rs + [r])[..|rs|] == rs;
  }

  /** The cells of a group have the keys of the group, and a field is denoted in its own group only. */
  lemma {:induction false} DenotedInGroup(requests: seq<Request>, verb: string, keys: set<string>, u: Universe, c: Cell)
    requires PlainInput(requests, verb, u)
    ensures c in Denoted(WithKeys(requests, keys), u) <==> c in Denoted(requests, u) && c.Keys == keys
  {
    if requests != [] {
      var n := |requests| - 1;
      var r := requests[n];
      DenotedInGroup(requests[..n], verb, keys, u, c);
      PlainDenotes(r, verb, Names(r.params), u);
      CellKeys(r, verb, u);
      var before := WithKeys(requests[..n], keys);
      DenotedSnoc(before, r, u);
      assert before + [] == before;
    }
  }

  // ---- lists of requests one after the other --------------------------------------------

  lemma {:induction false} DenotedAppend(a: seq<Request>, b: seq<Request>, u: Universe)
    ensures Denoted(a + b, u) == Denoted(a, u) + Denoted(b, u)
  {
    if b == [] {
      assert a + b == a;
    } else {
      assert (a + b)[..|a + b| - 1] == a + b[..|b| - 1];
      DenotedAppend(a, b[..|b| - 1], u);
    }
  }

  lemma {:induction false} DenotedHolds(rs: seq<Request>, i: nat, u: Universe)
    requires i < |rs|
    ensures FieldCells(rs[i].params, u) <= Denoted(rs, u)
  {
    if i < |rs| - 1 {
      DenotedHolds(rs[..|rs| - 1], i, u);
    }
  }

  lemma OverlapAppend(a: seq<Request>, b: seq<Request>, u: Universe)
    requires NoOverlap(a, u) && NoOverlap(b, u) && Denoted(a, u) !! Denoted(b, u)
    ensures NoOverlap(a + b, u)
  {
    forall i, j | 0 <= i < |a| && 0 <= j < |b|
      ensures FieldCells(a[i].params, u) !! FieldCells(b[j].params, u)
    {
      DenotedHolds(a, i, u);
      DenotedHolds(b, j, u);
    }
  }

  // ---- the theorem ----------------------------------------------------------------------

  /** What is asked of every group. */
  ghost predicate GroupsCompactable(requests: seq<Request>, groups: seq<set<string>>, order: seq<string>, u: Universe) {
    && AreGroups(requests, groups)
    && forall keys :: keys in groups ==>
         && WithKeys(requests, keys) != []
         && Reliable(MergedOf(WithKeys(requests, keys)).params, u)
         && Compactable(WithKeys(requests, keys), keys, order, u)
  }

  /** One group: exact, and without overlaps. */
  lemma OneGroup(requests: seq<Request>, verb: string, keys: set<string>, order: seq<string>, u: Universe)
    returns (out: seq<Request>)
    requires PlainInput(requests, verb, u) && Distinct(order) && WithKeys(requests, keys) != []
    requires Reliable(MergedOf(WithKeys(requests, keys)).params, u)
             && Compactable(WithKeys(requests, keys), keys, order, u)
    ensures GroupOut(WithKeys(requests, keys), order, u.singleLevel) == Ok(out)
    ensures Denoted(out, u) == Denoted(WithKeys(requests, keys), u) && NoOverlap(out, u)
  {
    var reqs := WithKeys(requests, keys);
    GroupIsPlain(requests, verb, keys, u);
    GroupIsExact(reqs, verb, keys, order, u);
    if |reqs| == 1 || CountOf(MergedOf(reqs).params, u.singleLevel) == |reqs| {
      out := GroupOut(reqs, order, u.singleLevel).value;
    } else {
      out := SparseBranch(reqs, verb, keys, order, u);
    }
  }

  lemma {:induction false} GroupsAreExact(requests: seq<Request>, groups: seq<set<string>>, verb: string,
                                          order: seq<string>, u: Universe)
    returns (out: seq<Request>)
    requires PlainInput(requests, verb, u) && Distinct(order) && Distinct(groups)
             && GroupsCompactable(requests, groups, order, u)
    ensures AllOut(requests, groups, order, u.singleLevel) == Ok(out)
    ensures NoOverlap(out, u)
    ensures forall c :: c in Denoted(out, u) <==> c in Denoted(requests, u) && c.Keys in groups
  {
    if groups == [] {
      out := [];
    } else {
      var n := |groups| - 1;
      assert groups == groups[..n] + [groups[n]] && groups[n] !in groups[..n];
      var before := GroupsAreExact(requests, groups[..n], verb, order, u);
      var one := OneGroup(requests, verb, groups[n], order, u);
      AllOutNext(requests, groups[..n], groups[n], order, u.singleLevel);
      out := before + one;
      DenotedAppend(before, one, u);
      forall c
        ensures c in Denoted(one, u) <==> c in Denoted(requests, u) && c.Keys == groups[n]
      {
        DenotedInGroup(requests, verb, groups[n], u, c);
      }
      OverlapAppend(before, one, u);
    }
  }

  /** If every group is compactable, the compaction denotes exactly the given fields, each one once. */
  lemma CompactionIsExact(requests: seq<Request>, groups: seq<set<string>>, verb: string, order: seq<string>,
                          u: Universe)
    requires PlainInput(requests, verb, u) && Distinct(order) && Distinct(groups)
             && GroupsCompactable(requests, groups, order, u)
    requires forall keys :: keys in KeySets(requests) ==> keys in groups
    ensures DenotesExactly(AllOut(requests, groups, order, u.singleLevel), requests, u)
    ensures NoOverlap(AllOut(requests, groups, order, u.singleLevel).value, u)
  {
    var out := GroupsAreExact(requests, groups, verb, order, u);
    forall c | c in Denoted(requests, u)
      ensures c.Keys in groups
    {
      DenotedInGroup(requests, verb, c.Keys, u, c);
      GroupsNotEmpty(requests, c.Keys);
    }
    assert Denoted(out, u) == Denoted(requests, u);
  }

  /** What a caller can check of the input: every group is compactable. */
  ghost predicate AllCompactable(requests: seq<Request>, order: seq<string>, u: Universe) {
    forall keys :: keys in KeySets(requests) ==>
      && WithKeys(requests, keys) != []
      && Reliable(MergedOf(WithKeys(requests, keys)).params, u)
      && Compactable(WithKeys(requests, keys), keys, order, u)
  }

  /** Whatever order the groups are taken in, the result denotes exactly the given fields, each one once. */
  lemma CompactedIsExact(requests: seq<Request>, groups: seq<set<string>>, verb: string, order: seq<string>,
                         u: Universe, res: Result<seq<Request>>)
    requires PlainInput(requests, verb, u) && Distinct(order) && AllCompactable(requests, order, u)
    requires CompactedInOrder(requests, groups, order, u.singleLevel, res)
    ensures DenotesExactly(res, requests, u) && NoOverlap(res.value, u)
  {
    forall keys | keys in groups
      ensures keys in KeySets(requests)
    {
      GroupsNotEmpty(requests, keys);
    }
    var out := GroupsAreExact(requests, groups, verb, order, u);
    CompactionIsExact(requests, groups, verb, order, u);
  }

  // ---- when a group is not compactable --------------------------------------------------

  /** The groups that were taken before an error, or all of them: each adds what it denotes, and nothing else. */
  lemma {:induction false} AllOutParts(requests: seq<Request>, groups: seq<set<string>>, order: seq<string>,
                                       u: Universe)
    requires Distinct(order) && AreGroups(requests, groups) && AllOut(requests, groups, order, u.singleLevel).Ok?
    ensures forall keys :: keys in groups ==> GroupOk(requests, keys, order, u)
    ensures forall x :: x in Denoted(AllOut(requests, groups, order, u.singleLevel).value, u) <==>
              exists keys :: keys in groups && FromGroup(requests, keys, order, u, x)
  {
    if groups != [] {
      var n := |groups| - 1;
      assert groups == groups[..n] + [groups[n]] && groups[n] in groups;
      AllOutParts(requests, groups[..n], order, u);
      var before := AllOut(requests, groups[..n], order, u.singleLevel).value;
      DenotedAppend(before, GroupOut(WithKeys(requests, groups[n]), order, u.singleLevel).value, u);
    }
  }

  ghost predicate GroupOk(requests: seq<Request>, keys: set<string>, order: seq<string>, u: Universe)
    requires Distinct(order)
  {
    WithKeys(requests, keys) != [] && GroupOut(WithKeys(requests, keys), order, u.singleLevel).Ok?
  }

  ghost predicate FromGroup(requests: seq<Request>, keys: set<string>, order: seq<string>, u: Universe, x: Cell)
    requires Distinct(order)
  {
    GroupOk(requests, keys, order, u) && x in Denoted(GroupOut(WithKeys(requests, keys), order, u.singleLevel).value, u)
  }

  /** A field with a key that is no axis comes from the group with its keys. */
  lemma ForeignCell(requests: seq<Request>, verb: string, keys: set<string>, order: seq<string>, u: Universe,
                    key: string, x: Cell)
    requires PlainInput(requests, verb, u) && Distinct(order) && FromGroup(requests, keys, order, u, x)
    requires key in x && key !in order
    ensures x.Keys == keys
  {
    var reqs := WithKeys(requests, keys);
    GroupIsPlain(requests, verb, keys, u);
    MergedBox(reqs, verb, keys, u);
    if |reqs| == 1 {
      PlainCellKeys(reqs, verb, keys, u, x);
    } else if CountOf(MergedOf(reqs).params, u.singleLevel) == |reqs| {
      OneRequestDenotes(MergedOf(reqs), u);
      BoxCellKeys(MergedOf(reqs), verb, keys, u, x);
    } else {
      SparseLacks(reqs, order, u, key, x);
    }
  }

  lemma BoxCellKeys(m: Request, verb: string, keys: set<string>, u: Universe, x: Cell)
    requires BoxOf(m, verb, keys) && x in FieldCells(m.params, u)
    ensures x.Keys == keys
  {
    NoWildSub(m.params, x);
  }

  lemma PlainCellKeys(reqs: seq<Request>, verb: string, keys: set<string>, u: Universe, x: Cell)
    requires reqs != [] && PlainGroup(reqs, verb, keys, u) && x in Denoted(reqs, u)
    ensures x.Keys == keys
  {
    MergedBox(reqs, verb, keys, u);
    BoxCellKeys(MergedOf(reqs), verb, keys, u, x);
  }

  /** A cell with the keys of the group that the group denotes, or its result, but not both. */
  lemma GroupFails(requests: seq<Request>, verb: string, keys: set<string>, order: seq<string>, u: Universe)
    returns (x: Cell)
    requires PlainInput(requests, verb, u) && Distinct(order) && GroupOk(requests, keys, order, u)
    requires Reliable(MergedOf(WithKeys(requests, keys)).params, u)
             && !Compactable(WithKeys(requests, keys), keys, order, u)
    ensures x.Keys == keys
    ensures FromGroup(requests, keys, order, u, x) <==> x !in Denoted(WithKeys(requests, keys), u)
    ensures x in Denoted(WithKeys(requests, keys), u) ==> exists key :: key in x && key !in order
  {
    var reqs := WithKeys(requests, keys);
    GroupIsPlain(requests, verb, keys, u);
    if CountOf(MergedOf(reqs).params, u.singleLevel) == |reqs| {
      FullBranch(reqs, verb, keys, u);
      MergedBox(reqs, verb, keys, u);
      OneRequestDenotes(MergedOf(reqs), u);
      x :| x in FieldCells(MergedOf(reqs).params, u) && x !in Denoted(reqs, u);
      BoxCellKeys(MergedOf(reqs), verb, keys, u, x);
    } else {
      var key :| key in keys && key !in order;
      x := ForeignKey(reqs, verb, keys, order, u, key);
      PlainCellKeys(reqs, verb, keys, u, x);
    }
  }

  /** Then the whole result is not exact: no other group loses or adds that cell. */
  lemma FailureShows(requests: seq<Request>, groups: seq<set<string>>, verb: string, keys: set<string>,
                     order: seq<string>, u: Universe)
    requires PlainInput(requests, verb, u) && Distinct(order) && AreGroups(requests, groups) && keys in groups
    requires AllOut(requests, groups, order, u.singleLevel).Ok?
    requires Reliable(MergedOf(WithKeys(requests, keys)).params, u)
             && !Compactable(WithKeys(requests, keys), keys, order, u)
    ensures Denoted(AllOut(requests, groups, order, u.singleLevel).value, u) != Denoted(requests, u)
  {
    AllOutParts(requests, groups, order, u);
    var x := GroupFails(requests, verb, keys, order, u);
    DenotedInGroup(requests, verb, keys, u, x);
    if x in Denoted(requests, u) {
      var key :| key in x && key !in order;
      forall other | other in groups && FromGroup(requests, other, order, u, x)
        ensures false
      {
        ForeignCell(requests, verb, other, order, u, key, x);
      }
    }
  }

  /** The merged request of every group can be counted. */
  ghost predicate AllReliable(requests: seq<Request>, u: Universe) {
    forall keys :: keys in KeySets(requests) && WithKeys(requests, keys) != [] ==>
      Reliable(MergedOf(WithKeys(requests, keys)).params, u)
  }

  /** The whole step denotes exactly the given fields if and only if every group is compactable. */
  lemma CompactedExactly(requests: seq<Request>, groups: seq<set<string>>, verb: string, order: seq<string>,
                         u: Universe, res: Result<seq<Request>>)
    requires PlainInput(requests, verb, u) && Distinct(order) && AllReliable(requests, u)
    requires CompactedInOrder(requests, groups, order, u.singleLevel, res)
    ensures DenotesExactly(res, requests, u) <==> AllCompactable(requests, order, u)
  {
    if AllCompactable(requests, order, u) {
      CompactedIsExact(requests, groups, verb, order, u, res);
    } else if res.Ok? {
      var keys :| keys in KeySets(requests) &&
        !(WithKeys(requests, keys) != [] && Reliable(MergedOf(WithKeys(requests, keys)).params, u)
          && Compactable(WithKeys(requests, keys), keys, order, u));
      GroupsNotEmpty(requests, keys);
      FailureShows(requests, groups, verb, keys, order, u);
    }
  }

  // ---- distinct requests ----------------------------------------------------------------

  lemma {:induction false} ApartFromAll(rs: seq<Request>, s: set<Cell>, u: Universe)
    requires forall i :: 0 <= i < |rs| ==> FieldCells(rs[i].params, u) !! s
    ensures Denoted(rs, u) !! s
  {
    if rs != [] {
      ApartFromAll(rs[..|rs| - 1], s, u);
    }
  }

  lemma {:induction false} DistinctSize(reqs: seq<Request>, verb: string, keys: set<string>, u: Universe)
    requires PlainGroup(reqs, verb, keys, u) && NoOverlap(reqs, u)
    ensures |Denoted(reqs, u)| == |reqs|
  {
    if reqs != [] {
      var n := |reqs| - 1;
      DistinctSize(reqs[..n], verb, keys, u);
      PlainDenotes(reqs[n], verb, keys, u);
      ApartFromAll(reqs[..n], FieldCells(reqs[n].params, u), u);
    }
  }

  /** Pairwise distinct requests whose keys are all axes: only a key that is counted once stands in the way, and
      only when the count is the number of requests all the same. */
  lemma {:induction false} DistinctIsCompactable(reqs: seq<Request>, verb: string, keys: set<string>,
                                                 order: seq<string>, u: Universe)
    requires reqs != [] && PlainGroup(reqs, verb, keys, u) && NoOverlap(reqs, u) && AllAxes(keys, order)
    ensures Compactable(reqs, keys, order, u) <==>
            |reqs| == 1 || CountOf(MergedOf(reqs).params, u.singleLevel) != |reqs| || AllCounted(MergedOf(reqs).params)
  {
    DistinctSize(reqs, verb, keys, u);
  }
}
