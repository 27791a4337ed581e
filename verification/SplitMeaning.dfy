/** What the pieces of `split` and `flatten` hold, key by key. */
module SplitMeaning {
  import opened Requests
  import opened Families
  import opened Numbering
  import opened Splitting

  // ---- which keys are split -------------------------------------------------------------

  /** The positions of the keys that have values. */
  function ValuedAt(ps: seq<Parameter>, keys: seq<string>): set<nat> {
    set k: nat | k < |keys| && ValuesOf(ps, keys[k]) != []
  }

  /** These expansions are those of the keys at these positions. */
  ghost predicate Expands(exp: seq<Expansion>, ps: seq<Parameter>, keys: seq<string>, at: seq<nat>) {
    && |exp| == |at|
    && forall i :: 0 <= i < |at| ==> at[i] < |keys| && exp[i] == Expansion(keys[at[i]], ValuesOf(ps, keys[at[i]]))
  }

  lemma ExpandsNext(exp: seq<Expansion>, ps: seq<Parameter>, keys: seq<string>, at: seq<nat>, n: nat)
    requires Expands(exp, ps, keys, at) && n < |keys|
    ensures Expands(exp + [Expansion(keys[n], ValuesOf(ps, keys[n]))], ps, keys, at + [n])
  {
  }

  lemma ExpansionsNext(ps: seq<Parameter>, keys: seq<string>, n: nat)
    requires n < |keys|
    ensures var before := Expansions(ps, keys[..n]);
            Expansions(ps, keys[..n + 1])
            == if n in ValuedAt(ps, keys) then before + [Expansion(keys[n], ValuesOf(ps, keys[n]))] else before
  {
    assert keys[..n + 1][..n] == keys[..n];
  }

  /** The positions that are kept so far, and what is expanded at these positions. */
  ghost predicate Gathered(at: seq<nat>, exp: seq<Expansion>, ps: seq<Parameter>, keys: seq<string>, n: nat) {
    Positions(at, n, ValuedAt(ps, keys)) && Expands(exp, ps, keys, at)
  }

  lemma GatherNext(at: seq<nat>, exp: seq<Expansion>, ps: seq<Parameter>, keys: seq<string>, n: nat)
    requires Gathered(at, exp, ps, keys, n) && n < |keys|
    ensures if n in ValuedAt(ps, keys) then
              Gathered(at + [n], exp + [Expansion(keys[n], ValuesOf(ps, keys[n]))], ps, keys, n + 1)
            else Gathered(at, exp, ps, keys, n + 1)
  {
    PositionsNext(at, n, ValuedAt(ps, keys));
    ExpandsNext(exp, ps, keys, at, n);
  }

  lemma {:induction false} ExpansionsMeaning(ps: seq<Parameter>, keys: seq<string>, n: nat) returns (at: seq<nat>)
    requires n <= |keys|
    ensures Gathered(at, Expansions(ps, keys[..n]), ps, keys, n)
  {
    at := [];
    if n > 0 {
      var before := ExpansionsMeaning(ps, keys, n - 1);
      ExpansionsNext(ps, keys, n - 1);
      GatherNext(before, Expansions(ps, keys[..n - 1]), ps, keys, n - 1);
      at := if n - 1 in ValuedAt(ps, keys) then before + [n - 1] else before;
    }
  }

  /** The positions of the flattenable keys. */
  function FlattenableAt(params: seq<string>, flattenable: set<string>): set<nat> {
    set k: nat | k < |params| && params[k] in flattenable
  }

  lemma {:induction false} FlattenKeysLast(params: seq<string>, last: string, flattenable: set<string>)
    ensures FlattenKeys(params + [last], flattenable)
            == FlattenKeys(params, flattenable) + (if last in flattenable then [last] else [])
  {
    if params != [] {
      assert (params + [last])[1..] == params[1..] + [last];
      FlattenKeysLast(params[1..], last, flattenable);
    } else {
      assert [last][1..] == [];
    }
  }

  lemma FlattenKeysNext(params: seq<string>, flattenable: set<string>, n: nat)
    requires n < |params|
    ensures var before := FlattenKeys(params[..n], flattenable);
            FlattenKeys(params[..n + 1], flattenable)
            == if n in FlattenableAt(params, flattenable) then before + [params[n]] else before
  {
    assert params[..n + 1] == params[..n] + [params[n]];
    FlattenKeysLast(params[..n], params[n], flattenable);
  }

  lemma {:induction false} FlattenKeysMeaning(params: seq<string>, flattenable: set<string>, n: nat)
    returns (at: seq<nat>)
    requires n <= |params|
    ensures TakenAt(at, FlattenKeys(params[..n], flattenable), params, FlattenableAt(params, flattenable), n)
  {
    at := [];
    if n > 0 {
      var before := FlattenKeysMeaning(params, flattenable, n - 1);
      FlattenKeysNext(params, flattenable, n - 1);
      TakenAtNext(before, FlattenKeys(params[..n - 1], flattenable), params, FlattenableAt(params, flattenable),
                   n - 1);
      at := if n - 1 in FlattenableAt(params, flattenable) then before + [n - 1] else before;
    }
  }

  // ---- the pieces -----------------------------------------------------------------------

  lemma {:induction false} DimsAt(exp: seq<Expansion>, i: nat)
    requires i < |exp|
    ensures DimsOf(exp)[i] == |exp[i].values|
  {
    if i > 0 {
      DimsAt(exp[1..], i - 1);
    }
  }

  lemma {:induction false} AssignOther(proto: seq<Parameter>, exp: seq<Expansion>, coords: seq<nat>, name: string)
    requires InRange(DimsOf(exp), coords) && forall i :: 0 <= i < |exp| ==> exp[i].key != name
    ensures ValuesOf(Assign(proto, exp, coords), name) == ValuesOf(proto, name)
    ensures Has(Assign(proto, exp, coords), name) == Has(proto, name)
    decreases |exp|
  {
    if exp != [] {
      TailInRange(DimsOf(exp), coords);
      DimsAt(exp, 0);
      var v := [exp[0].values[coords[0]]];
      SetGet(proto, exp[0].key, v, name);
      AssignOther(SetValues(proto, exp[0].key, v), exp[1..], coords[1..], name);
    }
  }

  lemma {:induction false} AssignAt(proto: seq<Parameter>, exp: seq<Expansion>, coords: seq<nat>, i: nat)
    requires InRange(DimsOf(exp), coords) && DistinctExpansions(exp) && i < |exp|
    ensures coords[i] < |exp[i].values|
    ensures ValuesOf(Assign(proto, exp, coords), exp[i].key) == [exp[i].values[coords[i]]]
    decreases |exp|
  {
    TailInRange(DimsOf(exp), coords);
    DimsAt(exp, i);
    DimsAt(exp, 0);
    var v := [exp[0].values[coords[0]]];
    if i > 0 {
      AssignAt(SetValues(proto, exp[0].key, v), exp[1..], coords[1..], i - 1);
    } else {
      SetGet(proto, exp[0].key, v, exp[0].key);
      AssignOther(SetValues(proto, exp[0].key, v), exp[1..], coords[1..], exp[0].key);
    }
  }

  /** A piece has the value at the coordinate for every split key, and what the request has for the others. */
  ghost predicate IsPiece(piece: Request, r: Request, keys: seq<string>, at: seq<nat>, coords: seq<nat>) {
    && piece.verb == r.verb
    && |coords| == |at|
    && (forall i :: 0 <= i < |at| ==>
          && at[i] < |keys| && coords[i] < |ValuesOf(r.params, keys[at[i]])|
          && ValuesOf(piece.params, keys[at[i]]) == [ValuesOf(r.params, keys[at[i]])[coords[i]]])
    && forall name :: (forall i :: 0 <= i < |at| ==> at[i] < |keys| && name != keys[at[i]]) ==>
         ValuesOf(piece.params, name) == ValuesOf(r.params, name) && Has(piece.params, name) == Has(r.params, name)
  }

  /** As many values as each of them has. */
  ghost predicate AreDims(dims: seq<nat>, r: Request, keys: seq<string>, at: seq<nat>) {
    && |dims| == |at|
    && forall i :: 0 <= i < |at| ==> at[i] < |keys| && dims[i] == |ValuesOf(r.params, keys[at[i]])|
  }

  lemma ExpandedDims(r: Request, keys: seq<string>, at: seq<nat>, exp: seq<Expansion>)
    requires Expands(exp, r.params, keys, at) && Ascending(at)
    ensures AreDims(DimsOf(exp), r, keys, at)
  {
    forall i | 0 <= i < |at|
      ensures DimsOf(exp)[i] == |ValuesOf(r.params, keys[at[i]])|
    {
      DimsAt(exp, i);
    }
  }

  lemma ExpandedPiece(r: Request, keys: seq<string>, at: seq<nat>, exp: seq<Expansion>, coords: seq<nat>)
    requires Distinct(keys) && Expands(exp, r.params, keys, at) && Ascending(at) && InRange(DimsOf(exp), coords)
    ensures IsPiece(Request(r.verb, Assign(r.params, exp, coords)), r, keys, at, coords)
  {
    assert DistinctExpansions(exp);
    forall i | 0 <= i < |at|
      ensures coords[i] < |ValuesOf(r.params, keys[at[i]])|
      ensures ValuesOf(Assign(r.params, exp, coords), keys[at[i]]) == [ValuesOf(r.params, keys[at[i]])[coords[i]]]
    {
      AssignAt(r.params, exp, coords, i);
    }
    forall name | forall i :: 0 <= i < |at| ==> at[i] < |keys| && name != keys[at[i]]
      ensures ValuesOf(Assign(r.params, exp, coords), name) == ValuesOf(r.params, name)
      ensures Has(Assign(r.params, exp, coords), name) == Has(r.params, name)
    {
      AssignOther(r.params, exp, coords, name);
    }
  }

  /** There is one piece for each choice of one value for every key that has values, in row-major order: the last key
      varies fastest. */
  lemma SplitPieces(r: Request, keys: seq<string>) returns (at: seq<nat>, dims: seq<nat>)
    requires Distinct(keys)
    ensures Positions(at, |keys|, ValuedAt(r.params, keys)) && AreDims(dims, r, keys, at)
    ensures |Split(r, keys)| == Size(dims)
    ensures forall coords :: InRange(dims, coords) ==>
              && Index(dims, coords) < |Split(r, keys)|
              && IsPiece(Split(r, keys)[Index(dims, coords)], r, keys, at, coords)
  {
    at := ExpansionsMeaning(r.params, keys, |keys|);
    assert keys[..|keys|] == keys;
    var exp := Expansions(r.params, keys);
    dims := DimsOf(exp);
    ExpandedDims(r, keys, at, exp);
    ExpandSize(r.params, exp);
    forall coords | InRange(dims, coords)
      ensures Index(dims, coords) < |Split(r, keys)|
      ensures IsPiece(Split(r, keys)[Index(dims, coords)], r, keys, at, coords)
    {
      SplitIsLexicographic(r.params, exp, coords);
      ExpandedPiece(r, keys, at, exp, coords);
    }
  }

  lemma {:induction false} ListsAt(ps: seq<Parameter>, keys: seq<string>, i: nat)
    requires i < |keys|
    ensures |Lists(ps, keys)| == |keys| && Lists(ps, keys)[i] == Expansion(keys[i], ValuesOf(ps, keys[i]))
    decreases |keys|
  {
    if i > 0 {
      ListsAt(ps, keys[1..], i - 1);
    } else if |keys| > 1 {
      ListsAt(ps, keys[1..], 0);
    }
  }

  lemma {:induction false} NamesAt(ps: seq<Parameter>)
    ensures |NamesInOrder(ps)| == |ps| && forall i :: 0 <= i < |ps| ==> NamesInOrder(ps)[i] == ps[i].name
  {
    if ps != [] {
      NamesAt(ps[..|ps| - 1]);
    }
  }

  lemma FlattenedExpands(r: Request, flattenable: set<string>, names: seq<string>, at: seq<nat>)
    requires names == NamesInOrder(r.params)
    requires ElementsAt(FlattenKeys(names, flattenable), names, at)
    ensures Expands(Lists(r.params, FlattenKeys(names, flattenable)), r.params, names, at)
  {
    var keys := FlattenKeys(names, flattenable);
    forall i | 0 <= i < |at|
      ensures |Lists(r.params, keys)| == |keys|
      ensures Lists(r.params, keys)[i] == Expansion(names[at[i]], ValuesOf(r.params, names[at[i]]))
    {
      ListsAt(r.params, keys, i);
    }
  }

  /** `flatten` calls back once for each choice of one value for every flattenable key of the request, in row-major
      order; not at all if one of them has no values. */
  lemma FlattenedPieces(r: Request, flattenable: set<string>) returns (names: seq<string>, at: seq<nat>, dims: seq<nat>)
    requires DistinctNames(r.params)
    ensures |names| == |r.params| && forall i :: 0 <= i < |names| ==> names[i] == r.params[i].name
    ensures Positions(at, |names|, FlattenableAt(names, flattenable)) && AreDims(dims, r, names, at)
    ensures |Flattened(r, flattenable)| == Size(dims)
    ensures forall coords :: InRange(dims, coords) ==>
              && Index(dims, coords) < |Flattened(r, flattenable)|
              && IsPiece(Flattened(r, flattenable)[Index(dims, coords)], r, names, at, coords)
  {
    NamesAt(r.params);
    names := NamesInOrder(r.params);
    at := FlattenKeysMeaning(names, flattenable, |names|);
    assert names[..|names|] == names;
    FlattenedExpands(r, flattenable, names, at);
    var exp := Lists(r.params, FlattenKeys(names, flattenable));
    dims := DimsOf(exp);
    ExpandedDims(r, names, at, exp);
    ExpandSize(r.params, exp);
    forall coords | InRange(dims, coords)
      ensures Index(dims, coords) < |Flattened(r, flattenable)|
      ensures IsPiece(Flattened(r, flattenable)[Index(dims, coords)], r, names, at, coords)
    {
      SplitIsLexicographic(r.params, exp, coords);
      ExpandedPiece(r, names, at, exp, coords);
    }
  }
}
