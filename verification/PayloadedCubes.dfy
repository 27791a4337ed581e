/** A cube that keeps one payload for every taken cell: the first one offered, or the last one that
    replaced it. */
module PayloadedCubes {
  import opened Requests
  import opened HyperCubes
  import opened Results

  type Replaces<!T> = (T, T) -> bool

  /** Irreflexive and transitive among these payloads. */
  ghost predicate StrictOrder<T>(toReplace: Replaces<T>, among: iset<T>) {
    && (forall x :: x in among ==> !toReplace(x, x))
    && (forall x, y, z ::
          x in among && y in among && z in among && toReplace(x, y) && toReplace(y, z) ==> toReplace(x, z))
  }

  ghost predicate StrictOrderOn<T>(toReplace: Replaces<T>, payloads: seq<T>) {
    StrictOrder(toReplace, iset x | x in payloads)
  }

  /** What is stored after these payloads were offered for one cell. */
  function Stored<T>(offers: seq<T>, toReplace: Replaces<T>): T
    requires offers != []
  {
    var n := |offers| - 1;
    if n == 0 then offers[0]
    else
      var before := Stored(offers[..n], toReplace);
      if toReplace(before, offers[n]) then offers[n] else before
  }

  lemma StoredNext<T>(before: seq<T>, payload: T, toReplace: Replaces<T>)
    ensures Stored(before + [payload], toReplace) ==
            if before == [] || toReplace(Stored(before, toReplace), payload) then payload else Stored(before, toReplace)
  {
    assert (before + [payload])[..|before|] == before;
  }

  /** Every entry is what its offers leave. */
  ghost predicate AllStored<T>(entries: map<nat, T>, offered: map<nat, seq<T>>, toReplace: Replaces<T>) {
    && offered.Keys == entries.Keys
    && forall i :: i in entries ==> offered[i] != [] && entries[i] == Stored(offered[i], toReplace)
  }

  lemma AllStoredNext<T>(entries: map<nat, T>, offered: map<nat, seq<T>>, toReplace: Replaces<T>, idx: nat, payload: T)
    requires AllStored(entries, offered, toReplace)
    ensures var next := (if idx in offered then offered[idx] else []) + [payload];
            AllStored(entries[idx := Stored(next, toReplace)], offered[idx := next], toReplace)
  {
  }

  lemma AllStoredAgain<T>(entries: map<nat, T>, offered: map<nat, seq<T>>, toReplace: Replaces<T>, idx: nat, payload: T)
    requires AllStored(entries, offered, toReplace) && idx in entries
    ensures var now := if toReplace(entries[idx], payload) then payload else entries[idx];
            AllStored(entries[idx := now], offered[idx := offered[idx] + [payload]], toReplace)
  {
    StoredNext(offered[idx], payload, toReplace);
  }

  lemma SameEntry<K, V>(m: map<K, V>, k: K)
    requires k in m
    ensures m[k := m[k]] == m
  {
  }

  /** With a strict order, no payload that was offered would replace the stored one. */
  lemma {:induction false} StoredIsUnbeaten<T>(offers: seq<T>, toReplace: Replaces<T>)
    requires offers != [] && StrictOrderOn(toReplace, offers)
    ensures Stored(offers, toReplace) in offers && Unbeaten(offers, toReplace)
  {
    var n := |offers| - 1;
    if n > 0 {
      assert offers == offers[..n] + [offers[n]];
      StoredIsUnbeaten(offers[..n], toReplace);
    }
  }

  /** No payload that was offered would replace the stored one. */
  ghost predicate Unbeaten<T>(offers: seq<T>, toReplace: Replaces<T>)
    requires offers != []
  {
    forall p :: p in offers ==> !toReplace(Stored(offers, toReplace), p)
  }

  /** Whatever is offered from among these payloads. */
  ghost predicate AlwaysUnbeaten<T(!new)>(toReplace: Replaces<T>, among: iset<T>) {
    forall offers: seq<T> :: offers != [] && (forall p :: p in offers ==> p in among) ==> Unbeaten(offers, toReplace)
  }

  /** The stored payload is never one that an offered payload would replace if and only if replacing is a
      strict order. */
  lemma UnbeatenExactly<T(!new)>(toReplace: Replaces<T>, among: iset<T>)
    ensures AlwaysUnbeaten(toReplace, among) <==> StrictOrder(toReplace, among)
  {
    if StrictOrder(toReplace, among) {
      forall offers: seq<T> | offers != [] && forall p :: p in offers ==> p in among
        ensures Unbeaten(offers, toReplace)
      {
        StoredIsUnbeaten(offers, toReplace);
      }
    }
    if AlwaysUnbeaten(toReplace, among) {
      forall x | x in among
        ensures !toReplace(x, x)
      {
        assert Unbeaten([x], toReplace);
        assert x in [x];
      }
      forall x, y, z | x in among && y in among && z in among && toReplace(x, y) && toReplace(y, z)
        ensures toReplace(x, z)
      {
        StoredOfThree(x, y, z, toReplace);
        assert Unbeaten([x, z, y], toReplace);
        assert z in [x, z, y];
      }
    }
  }

  /** What is left of three offers when the second does not replace the first and the third does. */
  lemma StoredOfThree<T>(x: T, y: T, z: T, toReplace: Replaces<T>)
    requires toReplace(x, y)
    ensures !toReplace(x, z) ==> Stored([x, z, y], toReplace) == y
  {
    assert [x, z, y][..2] == [x, z] && [x, z][..1] == [x];
    assert Stored([x], toReplace) == x;
  }

  /** In particular it fails whenever replacing has a cycle. */
  lemma CycleIsBeaten<T(!new)>(toReplace: Replaces<T>, among: iset<T>, x: T, y: T, z: T)
    requires x in among && y in among && z in among && toReplace(x, y) && toReplace(y, z) && toReplace(z, x)
    ensures !AlwaysUnbeaten(toReplace, among)
  {
    UnbeatenExactly(toReplace, among);
  }

  class HyperCubePayloaded<T> {
    const cube: HyperCube
    const toReplace: Replaces<T>
    var entries: map<nat, T>
    /** Everything that was ever offered for a cell, in order. */
    ghost var offered: map<nat, seq<T>>

    /** The entries are those of the taken cells. */
    ghost predicate Valid()
      reads this, cube
    {
      && cube.Valid()
      && entries.Keys == AllIndices(cube.shape) - cube.Vacant()
      && AllStored(entries, offered, toReplace)
    }

    constructor (request: Request, axisOrder: seq<string>, singleLevel: set<string>, toReplace: Replaces<T>)
      requires Distinct(axisOrder)
      ensures Valid() && fresh(cube) && entries == map[] && offered == map[]
      ensures cube.shape == RowMajor(request.verb, AxesOf(request.params, axisOrder), singleLevel)
      ensures this.toReplace == toReplace
    {
      cube := new HyperCube(request, axisOrder, singleLevel);
      this.toReplace := toReplace;
      entries := map[];
      offered := map[];
    }

    /** The assertion that the field is in the cube fails otherwise. */
    method Add(request: Request, payload: T) returns (res: Result<()>)
      requires Valid()
      modifies this, cube
      ensures Valid()
      ensures !CoordsOf(cube.shape.axes, request.params).At? ==>
                res == Error && entries == old(entries) && offered == old(offered)
                  && cube.Vacant() == old(cube.Vacant())
      ensures CoordsOf(cube.shape.axes, request.params).At? ==>
                var c := CoordsOf(cube.shape.axes, request.params).coords;
                && res == Ok(())
                && c in cube.shape.number
                && var idx := cube.shape.number[c];
                   var before := if idx in old(offered) then old(offered)[idx] else [];
                   && offered == old(offered)[idx := before + [payload]]
                   && entries == old(entries)[idx := Stored(before + [payload], toReplace)]
                   && cube.Vacant() == old(cube.Vacant()) - {idx}
      ensures cube.CountVacant() + |entries| == cube.Size()
    {
      var found := cube.IndexOf(request);
      CountEntries();
      if found.Error? || !(0 <= found.value < cube.Size()) {
        return Error;
      }
      AddAt(found.value, payload);
      CountEntries();
      res := Ok(());
    }

    method AddAt(idx: nat, payload: T)
      requires Valid() && idx < cube.Size()
      modifies this, cube
      ensures Valid()
      ensures var before := if idx in old(offered) then old(offered)[idx] else [];
              && offered == old(offered)[idx := before + [payload]]
              && entries == old(entries)[idx := Stored(before + [payload], toReplace)]
      ensures cube.Vacant() == old(cube.Vacant()) - {idx}
    {
      StoredNext(if idx in offered then offered[idx] else [], payload, toReplace);
      assert [] + [payload] == [payload];
      if idx !in entries {
        AddFirst(idx, payload);
      } else {
        assert idx !in cube.Vacant();
        AddAgain(idx, payload);
      }
    }

    method AddFirst(idx: nat, payload: T)
      requires Valid() && idx < cube.Size() && idx !in entries
      modifies this, cube
      ensures Valid()
      ensures offered == old(offered)[idx := [payload]] && entries == old(entries)[idx := payload]
      ensures cube.Vacant() == old(cube.Vacant()) - {idx}
    {
      AllStoredNext(entries, offered, toReplace, idx, payload);
      assert Stored([payload], toReplace) == payload && [] + [payload] == [payload];
      entries := entries[idx := payload];
      offered := offered[idx := [payload]];
      var cleared := cube.ClearIndex(idx);
    }

    method AddAgain(idx: nat, payload: T)
      requires Valid() && idx in entries
      modifies this`entries, this`offered
      ensures Valid()
      ensures offered == old(offered)[idx := old(offered)[idx] + [payload]]
      ensures entries
              == old(entries)[idx := if toReplace(old(entries)[idx], payload) then payload else old(entries)[idx]]
    {
      AllStoredAgain(entries, offered, toReplace, idx, payload);
      SameEntry(entries, idx);
      if toReplace(entries[idx], payload) {
        entries := entries[idx := payload];
      }
      offered := offered[idx := offered[idx] + [payload]];
    }

    lemma CountEntries()
      requires Valid()
      ensures cube.CountVacant() + |entries| == cube.Size()
    {
      EmptyIff(cube.vacant);
      assert |entries| == |entries.Keys|;
      assert cube.Vacant() + entries.Keys == AllIndices(cube.shape);
    }

    method Find(idx: nat) returns (found: bool, payload: Option<T>)
      requires Valid()
      ensures found == (idx in entries)
      ensures payload == if found then Some(entries[idx]) else None
    {
      if idx !in entries {
        return false, None;
      }
      return true, Some(entries[idx]);
    }

    /** With a strict order, nothing ever offered for a cell would replace what is stored. */
    lemma EntriesAreUnbeaten(i: nat, p: T)
      requires Valid() && i in entries && p in offered[i] && StrictOrderOn(toReplace, offered[i])
      ensures entries[i] in offered[i] && !toReplace(entries[i], p)
    {
      StoredIsUnbeaten(offered[i], toReplace);
    }
  }
}
