/** Splitting a request along keys, flattening it, and merging the pieces back. */
module Splitting {
  import opened Requests
  import opened Fields
  import opened Families
  import opened Numbering

  /** A key and the values to expand it into. */
  datatype Expansion = Expansion(key: string, values: seq<string>)

  /** `expand_along_keys`: the parameters of every piece. */
  function Expand(proto: seq<Parameter>, exp: seq<Expansion>): seq<seq<Parameter>>
    decreases |exp|, 0
  {
    if exp == [] then [proto] else ExpandFrom(proto, exp[0].key, exp[0].values, exp[1..])
  }

  function ExpandFrom(proto: seq<Parameter>, key: string, values: seq<string>,
                      rest: seq<Expansion>): seq<seq<Parameter>>
    decreases |rest|, 1, |values|
  {
    if values == [] then []
    else Expand(SetValues(proto, key, [values[0]]), rest) + ExpandFrom(proto, key, values[1..], rest)
  }

  /** The keys that have values, with their values. */
  function Expansions(ps: seq<Parameter>, keys: seq<string>): seq<Expansion> {
    if keys == [] then []
    else
      var n := |keys| - 1;
      var before, v := Expansions(ps, keys[..n]), ValuesOf(ps, keys[n]);
      if v == [] then before else before + [Expansion(keys[n], v)]
  }

  function WithVerb(verb: string, pieces: seq<seq<Parameter>>): (r: seq<Request>)
    ensures |r| == |pieces| && forall k :: 0 <= k < |r| ==> r[k] == Request(verb, pieces[k])
  {
    seq(|pieces|, k requires 0 <= k < |pieces| => Request(verb, pieces[k]))
  }

  /** `split` */
  function Split(r: Request, keys: seq<string>): seq<Request> {
    WithVerb(r.verb, Expand(r.params, Expansions(r.params, keys)))
  }

  // ---- setting values -------------------------------------------------------------------

  lemma SetTwice(ps: seq<Parameter>, key: string, v: seq<string>, w: seq<string>)
    ensures SetValues(SetValues(ps, key, v), key, w) == SetValues(ps, key, w)
  {
    SetFind(ps, key, v, key);
  }

  lemma SetFind(ps: seq<Parameter>, key: string, v: seq<string>, name: string)
    ensures Has(ps, key) ==> Find(SetValues(ps, key, v), name) == Find(ps, name)
    ensures !Has(ps, key) ==>
              Find(SetValues(ps, key, v), name)
              == if Has(ps, name) then Find(ps, name) else if name == key then |ps| else |ps| + 1
  {
    if Has(ps, key) {
      FindSameNames(SetValues(ps, key, v), ps, name);
    } else {
      FindSnoc(ps, Parameter(key, true, v), name);
    }
  }

  /** What setting one key does to the values of the keys. */
  lemma SetGet(ps: seq<Parameter>, key: string, v: seq<string>, name: string)
    ensures ValuesOf(SetValues(ps, key, v), name) == if name == key then v else ValuesOf(ps, name)
    ensures Has(SetValues(ps, key, v), name) <==> Has(ps, name) || name == key
  {
    SetFind(ps, key, v, name);
  }

  lemma SetSame(ps: seq<Parameter>, key: string)
    requires Has(ps, key)
    ensures SetValues(ps, key, ValuesOf(ps, key)) == ps
  {
  }

  // ---- the pieces are the lexicographic product -----------------------------------------

  function DimsOf(exp: seq<Expansion>): (dims: seq<nat>)
    ensures |dims| == |exp|
  {
    if exp == [] then [] else [|exp[0].values|] + DimsOf(exp[1..])
  }

  /** Every key set to one of its values. */
  function Assign(proto: seq<Parameter>, exp: seq<Expansion>, coords: seq<nat>): seq<Parameter>
    requires InRange(DimsOf(exp), coords)
    decreases |exp|
  {
    if exp == [] then proto
    else
      TailInRange(DimsOf(exp), coords);
      Assign(SetValues(proto, exp[0].key, [exp[0].values[coords[0]]]), exp[1..], coords[1..])
  }

  lemma {:induction false} ExpandSize(proto: seq<Parameter>, exp: seq<Expansion>)
    ensures |Expand(proto, exp)| == Size(DimsOf(exp))
    decreases |exp|, 0
  {
    if exp != [] {
      ExpandFromSize(proto, exp[0].key, exp[0].values, exp[1..]);
    }
  }

  lemma {:induction false} ExpandFromSize(proto: seq<Parameter>, key: string, values: seq<string>, rest: seq<Expansion>)
    ensures |ExpandFrom(proto, key, values, rest)| == |values| * Size(DimsOf(rest))
    decreases |rest|, 1, |values|
  {
    if values != [] {
      ExpandSize(SetValues(proto, key, [values[0]]), rest);
      ExpandFromSize(proto, key, values[1..], rest);
      OneMore(|values[1..]|, Size(DimsOf(rest)));
    }
  }

  lemma PreviousRow(q: int, n: int, r: int)
    requires q > 0 && n > 0 && r >= 0
    ensures q * n + r >= n && q * n + r - n == (q - 1) * n + r
  {
    assert q * n == (q - 1) * n + n;
    assert (q - 1) * n >= 0;
  }

  /** Piece `q * n + r` of the expansion of a key is piece `r` for its value number `q`. */
  lemma {:induction false} ExpandFromAt(proto: seq<Parameter>, key: string, values: seq<string>, rest: seq<Expansion>,
                                        q: nat, r: nat, n: nat, at: nat)
    requires n == Size(DimsOf(rest)) && q < |values| && r < n && at == q * n + r
    ensures at < |ExpandFrom(proto, key, values, rest)|
    ensures r < |Expand(SetValues(proto, key, [values[q]]), rest)|
    ensures ExpandFrom(proto, key, values, rest)[at] == Expand(SetValues(proto, key, [values[q]]), rest)[r]
    decreases |values|
  {
    var first, others := Expand(SetValues(proto, key, [values[0]]), rest), ExpandFrom(proto, key, values[1..], rest);
    ExpandSize(SetValues(proto, key, [values[0]]), rest);
    if q > 0 {
      PreviousRow(q, n, r);
      ExpandFromAt(proto, key, values[1..], rest, q - 1, r, n, at - n);
      assert values[1..][q - 1] == values[q];
    }
    AppendAt(first, others, at);
  }

  /** The pieces in order: piece number `Index(coords)` has the values at these coordinates. */
  lemma {:induction false} SplitIsLexicographic(proto: seq<Parameter>, exp: seq<Expansion>, coords: seq<nat>)
    requires InRange(DimsOf(exp), coords)
    ensures Index(DimsOf(exp), coords) < |Expand(proto, exp)| == Size(DimsOf(exp))
    ensures Expand(proto, exp)[Index(DimsOf(exp), coords)] == Assign(proto, exp, coords)
    decreases |exp|
  {
    ExpandSize(proto, exp);
    IndexInRange(DimsOf(exp), coords);
    if exp != [] {
      var q, next := coords[0], SetValues(proto, exp[0].key, [exp[0].values[coords[0]]]);
      TailInRange(DimsOf(exp), coords);
      SplitIsLexicographic(next, exp[1..], coords[1..]);
      IndexInRange(DimsOf(exp[1..]), coords[1..]);
      ExpandFromAt(proto, exp[0].key, exp[0].values, exp[1..], q, Index(DimsOf(exp[1..]), coords[1..]),
                   Size(DimsOf(exp[1..])), Index(DimsOf(exp), coords));
    }
  }

  // ---- merging the pieces gives the request back ----------------------------------------

  function MergeAll(pieces: seq<seq<Parameter>>): seq<Parameter>
    requires pieces != []
  {
    var n := |pieces| - 1;
    if n == 0 then pieces[0] else MergeParams(MergeAll(pieces[..n]), pieces[n])
  }

  /** Same keys with the same types, in the same order. */
  predicate SameKeys(a: seq<Parameter>, b: seq<Parameter>) {
    |a| == |b| && forall i :: 0 <= i < |a| ==> a[i].name == b[i].name && a[i].flatten == b[i].flatten
  }

  predicate AllSameKeys(pieces: seq<seq<Parameter>>, ps: seq<Parameter>) {
    forall k :: 0 <= k < |pieces| ==> SameKeys(pieces[k], ps)
  }

  lemma MergeAt(a: seq<Parameter>, b: seq<Parameter>, i: nat)
    requires DistinctNames(b) && SameKeys(a, b) && i < |a|
    ensures MergeParams(a, b)[i] == a[i].(values := Union(a[i].values, b[i].values))
  {
    FindAt(b, i);
  }

  lemma {:induction false} WithoutAppend(s: seq<string>, t: seq<string>, a: seq<string>)
    ensures Without(s + t, a) == Without(s, a) + Without(t, a)
  {
    if t == [] {
      assert s + t == s;
    } else {
      var n := |t| - 1;
      assert (s + t)[..|s + t| - 1] == s + t[..n];
      WithoutAppend(s, t[..n], a);
    }
  }

  lemma {:induction false} WithoutBoth(s: seq<string>, a: seq<string>, b: seq<string>)
    ensures Without(Without(s, b), a) == Without(s, Union(a, b))
  {
    if s != [] {
      var n := |s| - 1;
      WithoutBoth(s[..n], a, b);
      InUnion(a, b);
      WithoutAppend(Without(s[..n], b), if s[n] in b then [] else [s[n]], a);
      assert [s[n]][..0] == [];
      assert Without([s[n]], a) == if s[n] in a then [] else [s[n]];
    }
  }

  lemma UnionAssociative(a: seq<string>, b: seq<string>, c: seq<string>)
    ensures Union(Union(a, b), c) == Union(a, Union(b, c))
  {
    WithoutAppend(b, Without(c, b), a);
    WithoutBoth(c, a, b);
  }

  lemma MergeKeepsKeys(a: seq<Parameter>, b: seq<Parameter>)
    ensures SameKeys(MergeParams(a, b), a)
    ensures DistinctNames(a) ==> DistinctNames(MergeParams(a, b))
  {
  }

  lemma MergeAssociativeAt(a: seq<Parameter>, b: seq<Parameter>, c: seq<Parameter>, i: nat)
    requires DistinctNames(b) && DistinctNames(c) && SameKeys(a, b) && SameKeys(b, c) && i < |a|
    requires SameKeys(MergeParams(a, b), c) && DistinctNames(MergeParams(b, c)) && SameKeys(a, MergeParams(b, c))
    ensures MergeParams(MergeParams(a, b), c)[i] == MergeParams(a, MergeParams(b, c))[i]
  {
    MergeAt(a, b, i);
    MergeAt(b, c, i);
    MergeAt(MergeParams(a, b), c, i);
    MergeAt(a, MergeParams(b, c), i);
    UnionAssociative(a[i].values, b[i].values, c[i].values);
  }

  /** Merging is associative. */
  lemma MergeAssociative(a: seq<Parameter>, b: seq<Parameter>, c: seq<Parameter>)
    requires DistinctNames(b) && DistinctNames(c) && SameKeys(a, b) && SameKeys(b, c)
    ensures MergeParams(MergeParams(a, b), c) == MergeParams(a, MergeParams(b, c))
  {
    MergeKeepsKeys(a, b);
    MergeKeepsKeys(b, c);
    forall i | 0 <= i < |a|
      ensures MergeParams(MergeParams(a, b), c)[i] == MergeParams(a, MergeParams(b, c))[i]
    {
      MergeAssociativeAt(a, b, c, i);
    }
  }

  lemma {:induction false} MergeAllKeys(pieces: seq<seq<Parameter>>, ps: seq<Parameter>)
    requires pieces != [] && AllSameKeys(pieces, ps)
    ensures SameKeys(MergeAll(pieces), ps)
  {
    var n := |pieces| - 1;
    if n > 0 {
      MergeAllKeys(pieces[..n], ps);
    }
  }

  lemma MergeAllLast(pieces: seq<seq<Parameter>>)
    requires |pieces| > 1
    ensures MergeAll(pieces) == MergeParams(MergeAll(pieces[..|pieces| - 1]), pieces[|pieces| - 1])
  {
  }

  /** Merging two lists one after the other is merging their results. */
  lemma {:induction false} MergeAllAppend(a: seq<seq<Parameter>>, b: seq<seq<Parameter>>, ps: seq<Parameter>)
    requires a != [] && b != [] && DistinctNames(ps) && AllSameKeys(a, ps) && AllSameKeys(b, ps)
    ensures MergeAll(a + b) == MergeParams(MergeAll(a), MergeAll(b))
    decreases |b|
  {
    var n := |b| - 1;
    AppendLast(a, b);
    MergeAllLast(a + b);
    if n > 0 {
      MergeAllAppend(a, b[..n], ps);
      MergeAllLast(b);
      AppendedKeys(a, b[..n], b[n], ps);
      MergeAssociative(MergeAll(a), MergeAll(b[..n]), b[n]);
    }
  }

  lemma AppendedKeys(a: seq<seq<Parameter>>, b: seq<seq<Parameter>>, c: seq<Parameter>, ps: seq<Parameter>)
    requires a != [] && b != [] && DistinctNames(ps) && AllSameKeys(a, ps) && AllSameKeys(b, ps) && SameKeys(c, ps)
    ensures SameKeys(MergeAll(a), MergeAll(b)) && SameKeys(MergeAll(b), c)
    ensures DistinctNames(MergeAll(b)) && DistinctNames(c)
  {
    MergeAllKeys(a, ps);
    MergeAllKeys(b, ps);
  }

  lemma SetKeeps(ps: seq<Parameter>, key: string, v: seq<string>)
    requires Has(ps, key)
    ensures SameKeys(SetValues(ps, key, v), ps)
    ensures DistinctNames(ps) ==> DistinctNames(SetValues(ps, key, v))
  {
  }

  /** Every key of the expansion is a key of the request. */
  ghost predicate Keyed(ps: seq<Parameter>, exp: seq<Expansion>) {
    forall e :: e in exp ==> Has(ps, e.key)
  }

  lemma KeyedSet(ps: seq<Parameter>, key: string, v: seq<string>, exp: seq<Expansion>)
    requires Keyed(ps, exp)
    ensures Keyed(SetValues(ps, key, v), exp)
  {
    forall e | e in exp
      ensures Has(SetValues(ps, key, v), e.key)
    {
      SetGet(ps, key, v, e.key);
    }
  }

  lemma {:induction false} ExpandKeys(proto: seq<Parameter>, exp: seq<Expansion>)
    requires Keyed(proto, exp)
    ensures AllSameKeys(Expand(proto, exp), proto)
    decreases |exp|, 0
  {
    if exp != [] {
      assert exp[0] in exp;
      ExpandFromKeys(proto, exp[0].key, exp[0].values, exp[1..]);
    }
  }

  lemma {:induction false} ExpandFromKeys(proto: seq<Parameter>, key: string, values: seq<string>, rest: seq<Expansion>)
    requires Has(proto, key) && Keyed(proto, rest)
    ensures AllSameKeys(ExpandFrom(proto, key, values, rest), proto)
    decreases |rest|, 1, |values|
  {
    if values != [] {
      var next := SetValues(proto, key, [values[0]]);
      SetKeeps(proto, key, [values[0]]);
      KeyedSet(proto, key, [values[0]], rest);
      ExpandKeys(next, rest);
      ExpandFromKeys(proto, key, values[1..], rest);
    }
  }

  ghost predicate DistinctExpansions(exp: seq<Expansion>) {
    forall i, j :: 0 <= i < j < |exp| ==> exp[i].key != exp[j].key
  }

  /** Distinct keys, each with the non-empty list of distinct values it has in the request. */
  ghost predicate FullExpansion(ps: seq<Parameter>, exp: seq<Expansion>) {
    && DistinctExpansions(exp)
    && (forall e :: e in exp ==>
          Has(ps, e.key) && e.values == ValuesOf(ps, e.key) && e.values != [] && Distinct(e.values))
  }

  lemma FullAfterSet(ps: seq<Parameter>, exp: seq<Expansion>, v: seq<string>)
    requires exp != [] && FullExpansion(ps, exp)
    ensures FullExpansion(SetValues(ps, exp[0].key, v), exp[1..])
  {
    forall e | e in exp[1..]
      ensures Has(SetValues(ps, exp[0].key, v), e.key)
              && ValuesOf(SetValues(ps, exp[0].key, v), e.key) == ValuesOf(ps, e.key)
    {
      SetGet(ps, exp[0].key, v, e.key);
    }
  }

  lemma {:induction false} WithoutSelf(s: seq<string>, a: seq<string>)
    requires forall x :: x in s ==> x in a
    ensures Without(s, a) == []
  {
    if s != [] {
      WithoutSelf(s[..|s| - 1], a);
    }
  }

  lemma {:induction false} WithoutNone(s: seq<string>, a: seq<string>)
    requires forall x :: x in s ==> x !in a
    ensures Without(s, a) == s
  {
    if s != [] {
      WithoutNone(s[..|s| - 1], a);
      assert s == s[..|s| - 1] + [s[|s| - 1]];
    }
  }

  /** Two requests that differ in the values of one key merge into the request with both lists. */
  lemma MergeOneKey(ps: seq<Parameter>, key: string, v: seq<string>, w: seq<string>)
    requires DistinctNames(ps) && Has(ps, key) && forall x :: x in w ==> x !in v
    ensures MergeParams(SetValues(ps, key, v), SetValues(ps, key, w)) == SetValues(ps, key, v + w)
  {
    var a, b := SetValues(ps, key, v), SetValues(ps, key, w);
    SetKeeps(ps, key, v);
    SetKeeps(ps, key, w);
    forall i | 0 <= i < |ps|
      ensures MergeParams(a, b)[i] == SetValues(ps, key, v + w)[i]
    {
      MergeAt(a, b, i);
      if i == Find(ps, key) {
        WithoutNone(w, v);
      } else {
        WithoutSelf(ps[i].values, ps[i].values);
      }
    }
  }

  /** Merging all the pieces, in order, gives the request back, with its values in their order. */
  lemma {:induction false} MergeAllExpand(proto: seq<Parameter>, exp: seq<Expansion>)
    requires DistinctNames(proto) && FullExpansion(proto, exp)
    ensures Expand(proto, exp) != [] && MergeAll(Expand(proto, exp)) == proto
    decreases |exp|, 0
  {
    if exp != [] {
      assert exp[0] in exp;
      MergeAllExpandFrom(proto, exp, exp[0].values);
      SetSame(proto, exp[0].key);
    }
  }

  lemma {:induction false} MergeAllExpandFrom(proto: seq<Parameter>, exp: seq<Expansion>, values: seq<string>)
    requires DistinctNames(proto) && exp != [] && FullExpansion(proto, exp) && values != [] && Distinct(values)
    ensures var key := exp[0].key;
            var pieces := ExpandFrom(proto, key, values, exp[1..]);
            pieces != [] && MergeAll(pieces) == SetValues(proto, key, values)
    decreases |exp|, 0, |values|
  {
    var key, rest := exp[0].key, exp[1..];
    var first, others := Expand(SetValues(proto, key, [values[0]]), rest), ExpandFrom(proto, key, values[1..], rest);
    MergeFirst(proto, exp, values[0]);
    if |values| == 1 {
      assert others == [] && first + others == first && values == [values[0]];
    } else {
      MergeAllExpandFrom(proto, exp, values[1..]);
      PiecesKeys(proto, exp, values);
      MergeBoth(proto, key, values, first, others);
    }
  }

  /** The pieces for one value of the key. */
  lemma {:induction false} MergeFirst(proto: seq<Parameter>, exp: seq<Expansion>, value: string)
    requires DistinctNames(proto) && exp != [] && FullExpansion(proto, exp)
    ensures var next := SetValues(proto, exp[0].key, [value]);
            Expand(next, exp[1..]) != [] && MergeAll(Expand(next, exp[1..])) == next
    decreases |exp|, 0, 0
  {
    assert exp[0] in exp;
    SetKeeps(proto, exp[0].key, [value]);
    FullAfterSet(proto, exp, [value]);
    MergeAllExpand(SetValues(proto, exp[0].key, [value]), exp[1..]);
  }

  lemma MergeBoth(proto: seq<Parameter>, key: string, values: seq<string>, first: seq<seq<Parameter>>,
                  others: seq<seq<Parameter>>)
    requires DistinctNames(proto) && Has(proto, key) && values != [] && Distinct(values)
    requires first != [] && AllSameKeys(first, proto) && MergeAll(first) == SetValues(proto, key, [values[0]])
    requires others != [] && AllSameKeys(others, proto) && MergeAll(others) == SetValues(proto, key, values[1..])
    ensures MergeAll(first + others) == SetValues(proto, key, values)
  {
    MergeAllAppend(first, others, proto);
    MergeOneKey(proto, key, [values[0]], values[1..]);
    assert [values[0]] + values[1..] == values;
  }

  lemma PiecesKeys(proto: seq<Parameter>, exp: seq<Expansion>, values: seq<string>)
    requires exp != [] && FullExpansion(proto, exp) && values != []
    ensures AllSameKeys(Expand(SetValues(proto, exp[0].key, [values[0]]), exp[1..]), proto)
    ensures AllSameKeys(ExpandFrom(proto, exp[0].key, values[1..], exp[1..]), proto)
    ensures Has(proto, exp[0].key)
  {
    assert exp[0] in exp;
    RestKeyed(proto, exp);
    ExpandFromKeys(proto, exp[0].key, values[1..], exp[1..]);
    KeyedSet(proto, exp[0].key, [values[0]], exp[1..]);
    SetKeeps(proto, exp[0].key, [values[0]]);
    ExpandKeys(SetValues(proto, exp[0].key, [values[0]]), exp[1..]);
  }

  lemma RestKeyed(proto: seq<Parameter>, exp: seq<Expansion>)
    requires exp != [] && FullExpansion(proto, exp)
    ensures Keyed(proto, exp[1..])
  {
  }

  /** The expansions are those of the keys that have values. */
  lemma {:induction false} ExpansionOf(ps: seq<Parameter>, keys: seq<string>, e: Expansion)
    requires e in Expansions(ps, keys)
    ensures e.key in keys && e.values == ValuesOf(ps, e.key) && e.values != []
  {
    var n := |keys| - 1;
    if e in Expansions(ps, keys[..n]) {
      ExpansionOf(ps, keys[..n], e);
    }
  }

  lemma {:induction false} ExpansionsDistinct(ps: seq<Parameter>, keys: seq<string>)
    requires Distinct(keys)
    ensures DistinctExpansions(Expansions(ps, keys))
  {
    if keys != [] {
      var n := |keys| - 1;
      var before := Expansions(ps, keys[..n]);
      LastIsNew(keys);
      ExpansionsDistinct(ps, keys[..n]);
      forall e | e in before
        ensures e.key != keys[n]
      {
        ExpansionOf(ps, keys[..n], e);
      }
      OneMoreExpansion(before, Expansion(keys[n], ValuesOf(ps, keys[n])));
    }
  }

  lemma OneMoreExpansion(before: seq<Expansion>, e: Expansion)
    requires DistinctExpansions(before) && forall d :: d in before ==> d.key != e.key
    ensures DistinctExpansions(before + [e])
  {
    forall i, j | 0 <= i < j < |before + [e]|
      ensures (before + [e])[i].key != (before + [e])[j].key
    {
      assert before[i] in before;
      assert j < |before| ==> before[i].key != before[j].key;
    }
  }

  lemma ExpansionsFull(ps: seq<Parameter>, keys: seq<string>)
    requires Distinct(keys) && forall k :: k in keys ==> Distinct(ValuesOf(ps, k))
    ensures FullExpansion(ps, Expansions(ps, keys))
    ensures forall e :: e in Expansions(ps, keys) ==> e.key in keys
  {
    ExpansionsDistinct(ps, keys);
    forall e | e in Expansions(ps, keys)
      ensures e.key in keys && Has(ps, e.key) && e.values == ValuesOf(ps, e.key) && e.values != [] && Distinct(e.values)
    {
      ExpansionOf(ps, keys, e);
    }
  }

  function ParamsOf(rs: seq<Request>): (r: seq<seq<Parameter>>)
    ensures |r| == |rs| && forall k :: 0 <= k < |r| ==> r[k] == rs[k].params
  {
    seq(|rs|, k requires 0 <= k < |rs| => rs[k].params)
  }

  lemma PiecesOfSplit(r: Request, keys: seq<string>)
    ensures ParamsOf(Split(r, keys)) == Expand(r.params, Expansions(r.params, keys))
  {
  }

  /** Splitting along distinct keys and merging the pieces in order is the identity. */
  lemma SplitThenMerge(r: Request, keys: seq<string>)
    requires DistinctNames(r.params) && Distinct(keys) && forall k :: k in keys ==> Distinct(ValuesOf(r.params, k))
    ensures Split(r, keys) != [] && MergeAll(ParamsOf(Split(r, keys))) == r.params
    ensures forall k :: 0 <= k < |Split(r, keys)| ==> Split(r, keys)[k].verb == r.verb
  {
    ExpansionsFull(r.params, keys);
    MergeAllExpand(r.params, Expansions(r.params, keys));
    PiecesOfSplit(r, keys);
  }

  // ---- the pieces partition the cells ---------------------------------------------------

  function CellSets(pieces: seq<seq<Parameter>>): (fs: seq<set<Cell>>)
    ensures |fs| == |pieces| && forall k :: 0 <= k < |fs| ==> fs[k] == Cells(pieces[k])
  {
    seq(|pieces|, k requires 0 <= k < |pieces| => Cells(pieces[k]))
  }

  /** The cells of a request with one key set to some of its values. */
  lemma CellsWith(ps: seq<Parameter>, key: string, values: seq<string>, c: Cell)
    requires DistinctNames(ps) && Has(ps, key) && forall x :: x in values ==> x in ValuesOf(ps, key)
    ensures c in Cells(SetValues(ps, key, values)) <==> c in Cells(ps) && key in c && c[key] in values
  {
    RestrictCell(ps, key, values, c);
  }

  ghost predicate Partitions(pieces: seq<seq<Parameter>>, s: set<Cell>) {
    PairwiseDisjoint(CellSets(pieces)) && UnionOf(CellSets(pieces)) == s
  }

  lemma CellSetsAppend(a: seq<seq<Parameter>>, b: seq<seq<Parameter>>)
    ensures CellSets(a + b) == CellSets(a) + CellSets(b)
  {
  }

  lemma PartitionAppend(a: seq<seq<Parameter>>, s: set<Cell>, b: seq<seq<Parameter>>, t: set<Cell>)
    requires Partitions(a, s) && Partitions(b, t) && s !! t
    ensures Partitions(a + b, s + t)
  {
    CellSetsAppend(a, b);
    UnionAppend(CellSets(a), CellSets(b));
    DisjointAppend(CellSets(a), CellSets(b));
  }

  lemma {:induction false} ExpandPartitions(proto: seq<Parameter>, exp: seq<Expansion>)
    requires DistinctNames(proto) && FullExpansion(proto, exp)
    ensures Partitions(Expand(proto, exp), Cells(proto))
    decreases |exp|, 0
  {
    if exp == [] {
      assert CellSets([proto]) == [Cells(proto)];
      assert UnionOf([Cells(proto)]) == Cells(proto);
    } else {
      assert exp[0] in exp;
      ExpandFromPartitions(proto, exp, exp[0].values);
      SetSame(proto, exp[0].key);
    }
  }

  lemma {:induction false} ExpandFromPartitions(proto: seq<Parameter>, exp: seq<Expansion>, values: seq<string>)
    requires DistinctNames(proto) && exp != [] && FullExpansion(proto, exp) && Distinct(values)
    requires forall x :: x in values ==> x in exp[0].values
    ensures Partitions(ExpandFrom(proto, exp[0].key, values, exp[1..]), Cells(SetValues(proto, exp[0].key, values)))
    decreases |exp|, 0, |values|
  {
    var key, rest := exp[0].key, exp[1..];
    assert exp[0] in exp;
    if values == [] {
      assert CellSets([]) == [];
      assert Cells(SetValues(proto, key, [])) == {} by {
        forall c {
          CellsWith(proto, key, [], c);
        }
      }
    } else {
      SetKeeps(proto, key, [values[0]]);
      FullAfterSet(proto, exp, [values[0]]);
      ExpandPartitions(SetValues(proto, key, [values[0]]), rest);
      ExpandFromPartitions(proto, exp, values[1..]);
      OneValueAside(proto, key, values);
      PartitionAppend(Expand(SetValues(proto, key, [values[0]]), rest), Cells(SetValues(proto, key, [values[0]])),
                      ExpandFrom(proto, key, values[1..], rest), Cells(SetValues(proto, key, values[1..])));
    }
  }

  lemma OneValueAside(ps: seq<Parameter>, key: string, values: seq<string>)
    requires DistinctNames(ps) && Has(ps, key) && values != [] && Distinct(values)
    requires forall x :: x in values ==> x in ValuesOf(ps, key)
    ensures var first, others := Cells(SetValues(ps, key, [values[0]])), Cells(SetValues(ps, key, values[1..]));
            first !! others && Cells(SetValues(ps, key, values)) == first + others
  {
    assert values == [values[0]] + values[1..] && values[0] !in values[1..];
    forall c
      ensures c in Cells(SetValues(ps, key, values)) <==>
              c in Cells(SetValues(ps, key, [values[0]])) || c in Cells(SetValues(ps, key, values[1..]))
      ensures !(c in Cells(SetValues(ps, key, [values[0]])) && c in Cells(SetValues(ps, key, values[1..])))
    {
      CellsWith(ps, key, values, c);
      CellsWith(ps, key, [values[0]], c);
      CellsWith(ps, key, values[1..], c);
    }
  }

  /** The pieces of a split partition the cells of the request. */
  lemma SplitPartitions(r: Request, keys: seq<string>)
    requires DistinctNames(r.params) && Distinct(keys) && forall k :: k in keys ==> Distinct(ValuesOf(r.params, k))
    ensures Partitions(ParamsOf(Split(r, keys)), Cells(r.params))
  {
    ExpansionsFull(r.params, keys);
    ExpandPartitions(r.params, Expansions(r.params, keys));
    PiecesOfSplit(r, keys);
  }

  // ---- flattening -----------------------------------------------------------------------

  /** What `flatten` goes through: the flattenable keys in parameter order, with all their values. */
  function FlattenKeys(params: seq<string>, flattenable: set<string>): seq<string> {
    if params == [] then []
    else (if params[0] in flattenable then [params[0]] else []) + FlattenKeys(params[1..], flattenable)
  }

  function Lists(ps: seq<Parameter>, keys: seq<string>): seq<Expansion> {
    if keys == [] then [] else [Expansion(keys[0], ValuesOf(ps, keys[0]))] + Lists(ps, keys[1..])
  }

  function KeySet(exp: seq<Expansion>): set<string> {
    set e | e in exp :: e.key
  }

  /** The same request but for the values of these keys. */
  ghost predicate SameBut(a: seq<Parameter>, b: seq<Parameter>, keys: set<string>) {
    SameKeys(a, b) && forall i :: 0 <= i < |a| && a[i].name !in keys ==> a[i].values == b[i].values
  }

  lemma SetSameBut(a: seq<Parameter>, b: seq<Parameter>, key: string, v: seq<string>, keys: set<string>)
    requires DistinctNames(a) && SameBut(a, b, keys) && Has(a, key)
    ensures SameBut(SetValues(a, key, v), SetValues(b, key, v), keys - {key})
  {
    FindSameNames(a, b, key);
    var x, y := SetValues(a, key, v), SetValues(b, key, v);
    forall i | 0 <= i < |x| && x[i].name !in keys - {key}
      ensures x[i].values == y[i].values
    {
      FindAt(a, i);
    }
  }

  /** What the expanded keys held before does not matter. */
  lemma {:induction false} ExpandIgnores(a: seq<Parameter>, b: seq<Parameter>, exp: seq<Expansion>)
    requires DistinctNames(a) && SameBut(a, b, KeySet(exp)) && Keyed(a, exp)
    ensures Expand(a, exp) == Expand(b, exp)
    decreases |exp|, 0
  {
    if exp == [] {
      assert KeySet(exp) == {};
      assert a == b by {
        assert forall i :: 0 <= i < |a| ==> a[i] == b[i];
      }
    } else {
      assert exp[0] in exp;
      ExpandFromIgnores(a, b, exp[0].key, exp[0].values, exp[1..]);
    }
  }

  lemma {:induction false} ExpandFromIgnores(a: seq<Parameter>, b: seq<Parameter>, key: string, values: seq<string>,
                                             rest: seq<Expansion>)
    requires DistinctNames(a) && SameBut(a, b, KeySet(rest) + {key}) && Has(a, key) && Keyed(a, rest)
    ensures ExpandFrom(a, key, values, rest) == ExpandFrom(b, key, values, rest)
    decreases |rest|, 1, |values|
  {
    if values != [] {
      var v := [values[0]];
      SetSameBut(a, b, key, v, KeySet(rest) + {key});
      SetKeeps(a, key, v);
      KeyedSet(a, key, v, rest);
      ExpandIgnores(SetValues(a, key, v), SetValues(b, key, v), rest);
      ExpandFromIgnores(a, b, key, values[1..], rest);
    }
  }

  lemma {:induction false} ExpandFromSnoc(proto: seq<Parameter>, key: string, values: seq<string>, v: string,
                                          rest: seq<Expansion>)
    ensures ExpandFrom(proto, key, values + [v], rest) ==
            ExpandFrom(proto, key, values, rest) + Expand(SetValues(proto, key, [v]), rest)
    decreases |values|
  {
    if values == [] {
      assert [v][1..] == [] && ([] + [v]) == [v];
      assert ExpandFrom(proto, key, [v], rest)
          == Expand(SetValues(proto, key, [v]), rest) + ExpandFrom(proto, key, [], rest);
    } else {
      assert (values + [v])[1..] == values[1..] + [v];
      ExpandFromSnoc(proto, key, values[1..], v, rest);
    }
  }

  lemma WithVerbAppend(verb: string, a: seq<seq<Parameter>>, b: seq<seq<Parameter>>)
    ensures WithVerb(verb, a + b) == WithVerb(verb, a) + WithVerb(verb, b)
  {
  }

  // ---- the operations -------------------------------------------------------------------

  /** The growing list of requests that a callback or a recursion adds to. */
  class Collector {
    var seen: seq<Request>

    constructor ()
      ensures seen == []
    {
      seen := [];
    }

    method Call(r: Request)
      modifies this
      ensures seen == old(seen) + [r]
    {
      seen := seen + [r];
    }
  }

  method ExpandAlongKeys(prototype: Request, exp: seq<Expansion>, requests: Collector, i: nat)
    requires i <= |exp|
    modifies requests
    ensures requests.seen == old(requests.seen) + WithVerb(prototype.verb, Expand(prototype.params, exp[i..]))
    decreases |exp| - i, 2
  {
    if i == |exp| {
      requests.Call(prototype);
      assert WithVerb(prototype.verb, [prototype.params]) == [prototype];
      return;
    }
    assert exp[i..][0] == exp[i] && exp[i..][1..] == exp[i + 1..];
    ExpandKey(prototype, exp, requests, i);
  }

  /** The loop over the values of one key. */
  method ExpandKey(prototype: Request, exp: seq<Expansion>, requests: Collector, i: nat)
    requires i < |exp|
    modifies requests
    ensures requests.seen == old(requests.seen) +
              WithVerb(prototype.verb, ExpandFrom(prototype.params, exp[i].key, exp[i].values, exp[i + 1..]))
    decreases |exp| - i, 1
  {
    var values := exp[i].values;
    ghost var was := requests.seen;
    var req := new MarsRequest(prototype);
    for j := 0 to |values|
      invariant OneValueSet(req.Value(), prototype, exp[i].key)
      invariant requests.seen
          == was + WithVerb(prototype.verb, ExpandFrom(prototype.params, exp[i].key, values[..j], exp[i + 1..]))
    {
      NextValue(was, prototype.verb, prototype.params, exp[i].key, values, j, exp[i + 1..]);
      ExpandValue(prototype, exp, requests, i, req, values[j]);
    }
    assert values[..|values|] == values;
  }

  /** The request that is used again and again: as it was, or with a value of the key set. */
  ghost predicate OneValueSet(r: Request, prototype: Request, key: string) {
    r == prototype || exists v :: r == Request(prototype.verb, SetValues(prototype.params, key, [v]))
  }

  lemma SetOverOneValue(r: Request, prototype: Request, key: string, v: string)
    requires OneValueSet(r, prototype, key)
    ensures Request(r.verb, SetValues(r.params, key, [v]))
            == Request(prototype.verb, SetValues(prototype.params, key, [v]))
  {
    if r != prototype {
      var w :| r == Request(prototype.verb, SetValues(prototype.params, key, [w]));
      SetTwice(prototype.params, key, [w], [v]);
    }
  }

  /** One value. */
  method ExpandValue(ghost prototype: Request, exp: seq<Expansion>, requests: Collector, i: nat, req: MarsRequest,
                     value: string)
    requires i < |exp| && OneValueSet(req.Value(), prototype, exp[i].key)
    modifies requests, req`params
    ensures OneValueSet(req.Value(), prototype, exp[i].key)
    ensures requests.seen == old(requests.seen) +
              WithVerb(prototype.verb, Expand(SetValues(prototype.params, exp[i].key, [value]), exp[i + 1..]))
    decreases |exp| - i, 0
  {
    SetOverOneValue(req.Value(), prototype, exp[i].key, value);
    req.SetValue(exp[i].key, value);
    var next := req.Value();
    ExpandAlongKeys(next, exp, requests, i + 1);
  }

  lemma NextValue(was: seq<Request>, verb: string, proto: seq<Parameter>, key: string, values: seq<string>, j: nat,
                  rest: seq<Expansion>)
    requires j < |values|
    ensures was + WithVerb(verb, ExpandFrom(proto, key, values[..j + 1], rest)) ==
            was + WithVerb(verb, ExpandFrom(proto, key, values[..j], rest)) +
            WithVerb(verb, Expand(SetValues(proto, key, [values[j]]), rest))
  {
    ExpandFromSnoc(proto, key, values[..j], values[j], rest);
    assert values[..j + 1] == values[..j] + [values[j]];
    WithVerbAppend(verb, ExpandFrom(proto, key, values[..j], rest), Expand(SetValues(proto, key, [values[j]]), rest));
  }

  lemma {:induction false} ExpandSingletons(ps: seq<Parameter>, exp: seq<Expansion>)
    requires forall e :: e in exp ==> Has(ps, e.key) && e.values == ValuesOf(ps, e.key) && |e.values| == 1
    ensures Expand(ps, exp) == [ps]
    decreases |exp|
  {
    if exp != [] {
      var e := exp[0];
      assert e in exp;
      SetSame(ps, e.key);
      assert e.values == [e.values[0]] && e.values[1..] == [];
      ExpandSingletons(ps, exp[1..]);
      assert ExpandFrom(ps, e.key, e.values, exp[1..])
          == Expand(SetValues(ps, e.key, [e.values[0]]), exp[1..]) + ExpandFrom(ps, e.key, [], exp[1..]);
    }
  }

  /** What the first loop of `split` knows of the keys it kept. */
  ghost predicate Kept(ps: seq<Parameter>, exp: seq<Expansion>, n: nat) {
    && n > 0
    && (forall e :: e in exp ==> Has(ps, e.key) && e.values == ValuesOf(ps, e.key) && e.values != [])
    && (n == 1 ==> forall e :: e in exp ==> |e.values| == 1)
  }

  lemma KeptNext(ps: seq<Parameter>, exp: seq<Expansion>, n: nat, key: string)
    requires Kept(ps, exp, n) && ValuesOf(ps, key) != []
    ensures Kept(ps, exp + [Expansion(key, ValuesOf(ps, key))], n * |ValuesOf(ps, key)|)
  {
    var m := |ValuesOf(ps, key)|;
    assert n * m >= n && n * m >= m;
  }

  /** `split`; the case of a single piece gives the request itself. */
  method SplitRequest(r: Request, keys: seq<string>) returns (requests: seq<Request>)
    ensures requests == Split(r, keys)
  {
    var n := 1;
    var exp: seq<Expansion> := [];
    for i := 0 to |keys|
      invariant exp == Expansions(r.params, keys[..i])
      invariant n > 0 && Kept(r.params, exp, n)
    {
      assert keys[..i + 1][..i] == keys[..i];
      var v := ValuesOf(r.params, keys[i]);
      if v != [] {
        KeptNext(r.params, exp, n, keys[i]);
        n := n * |v|;
        exp := exp + [Expansion(keys[i], v)];
      }
    }
    assert keys[..|keys|] == keys;
    if n == 1 {
      ExpandSingletons(r.params, exp);
      assert WithVerb(r.verb, [r.params]) == [r];
      return [r];
    }
    var out := new Collector();
    ExpandAlongKeys(r, exp, out, 0);
    assert exp[0..] == exp;
    requests := out.seen;
  }

  lemma {:induction false} ListsKeyed(ps: seq<Parameter>, keys: seq<string>)
    requires forall k :: k in keys ==> Has(ps, k)
    ensures Keyed(ps, Lists(ps, keys))
  {
    if keys != [] {
      ListsKeyed(ps, keys[1..]);
    }
  }

  lemma {:induction false} KeyedSame(a: seq<Parameter>, b: seq<Parameter>, exp: seq<Expansion>)
    requires SameKeys(a, b) && Keyed(b, exp)
    ensures Keyed(a, exp)
  {
    forall e | e in exp
      ensures Has(a, e.key)
    {
      FindSameNames(a, b, e.key);
    }
  }

  /** What is still to be expanded from the `i`-th parameter on. */
  ghost function Remaining(ps: seq<Parameter>, params: seq<string>, flattenable: set<string>, i: nat): seq<Expansion>
    requires i <= |params|
  {
    Lists(ps, FlattenKeys(params[i..], flattenable))
  }

  lemma RemainingStep(ps: seq<Parameter>, params: seq<string>, flattenable: set<string>, i: nat)
    requires i < |params|
    ensures Remaining(ps, params, flattenable, i) ==
            (if params[i] in flattenable then [Expansion(params[i], ValuesOf(ps, params[i]))] else []) +
            Remaining(ps, params, flattenable, i + 1)
  {
    assert params[i..][0] == params[i] && params[i..][1..] == params[i + 1..];
    var rest := FlattenKeys(params[i + 1..], flattenable);
    assert [] + rest == rest;
    assert ([params[i]] + rest)[1..] == rest;
  }

  /** The recursion of `flatten`, which overwrites the one request `result` on its way. */
  method FlattenFrom(request: Request, params: seq<string>, flattenable: set<string>, i: nat,
                     result: MarsRequest, callback: Collector)
    requires i <= |params| && DistinctNames(result.params)
    requires Keyed(result.params, Remaining(request.params, params, flattenable, i))
    modifies result`params, callback
    ensures callback.seen == old(callback.seen) +
              WithVerb(result.verb, Expand(old(result.params), Remaining(request.params, params, flattenable, i)))
    ensures Overwritten(result.params, old(result.params), KeySet(Remaining(request.params, params, flattenable, i)))
    decreases |params| - i, 1
  {
    if i == |params| {
      callback.Call(result.Value());
      assert WithVerb(result.verb, [result.params]) == [result.Value()];
      return;
    }
    RemainingStep(request.params, params, flattenable, i);
    if params[i] !in flattenable {
      assert Remaining(request.params, params, flattenable, i) == Remaining(request.params, params, flattenable, i + 1);
      FlattenFrom(request, params, flattenable, i + 1, result, callback);
      return;
    }
    FirstKeyed(result.params, Expansion(params[i], ValuesOf(request.params, params[i])),
               Remaining(request.params, params, flattenable, i + 1));
    FlattenValues(request, params, flattenable, i, Remaining(request.params, params, flattenable, i + 1), result,
                  callback);
  }

  lemma FirstKeyed(ps: seq<Parameter>, e: Expansion, rest: seq<Expansion>)
    ensures Keyed(ps, [e] + rest) ==> Has(ps, e.key) && Keyed(ps, rest)
    ensures KeySet([e] + rest) == KeySet(rest) + {e.key}
    ensures Expand(ps, [e] + rest) == ExpandFrom(ps, e.key, e.values, rest)
  {
    assert ([e] + rest)[0] == e && ([e] + rest)[1..] == rest;
    assert e in [e] + rest;
    assert forall x :: x in rest ==> x in [e] + rest;
    if Keyed(ps, [e] + rest) {
      forall x | x in rest
        ensures Has(ps, x.key)
      {
        assert x in [e] + rest;
      }
    }
  }

  method FlattenValues(request: Request, params: seq<string>, flattenable: set<string>, i: nat,
                       ghost rest: seq<Expansion>, result: MarsRequest, callback: Collector)
    requires i < |params| && DistinctNames(result.params) && Has(result.params, params[i]) && Keyed(result.params, rest)
    requires rest == Remaining(request.params, params, flattenable, i + 1)
    modifies result`params, callback
    ensures callback.seen == old(callback.seen) +
              WithVerb(result.verb,
                       ExpandFrom(old(result.params), params[i], ValuesOf(request.params, params[i]), rest))
    ensures Overwritten(result.params, old(result.params), KeySet(rest) + {params[i]})
    decreases |params| - i, 0
  {
    var param, values := params[i], ValuesOf(request.params, params[i]);
    ghost var proto, was := result.params, callback.seen;
    for j := 0 to |values|
      invariant Overwritten(result.params, proto, KeySet(rest) + {param})
      invariant callback.seen == was + WithVerb(result.verb, ExpandFrom(proto, param, values[..j], rest))
    {
      FlattenValue(request, params, flattenable, i, values[j], proto, rest, result, callback);
      NextValue(was, result.verb, proto, param, values, j, rest);
    }
    assert values[..|values|] == values;
  }

  /** Nothing but the values of these keys was changed. */
  ghost predicate Overwritten(ps: seq<Parameter>, proto: seq<Parameter>, keys: set<string>) {
    DistinctNames(ps) && SameBut(ps, proto, keys)
  }

  /** One round of the loop: the key is set, and the rest of the request flattened. */
  method FlattenValue(request: Request, params: seq<string>, flattenable: set<string>, i: nat, value: string,
                      ghost proto: seq<Parameter>, ghost rest: seq<Expansion>, result: MarsRequest, callback: Collector)
    requires i < |params| && Overwritten(result.params, proto, KeySet(rest) + {params[i]})
    requires rest == Remaining(request.params, params, flattenable, i + 1) && Has(proto, params[i])
             && Keyed(proto, rest)
    modifies result`params, callback
    ensures callback.seen
            == old(callback.seen) + WithVerb(result.verb, Expand(SetValues(proto, params[i], [value]), rest))
    ensures Overwritten(result.params, proto, KeySet(rest) + {params[i]})
    decreases |params| - i - 1, 2
  {
    ghost var before := result.params;
    FindSameNames(before, proto, params[i]);
    result.SetValue(params[i], value);
    ghost var at := result.params;
    FlattenStep(before, proto, params[i], [value], rest);
    FlattenFrom(request, params, flattenable, i + 1, result, callback);
    LeftBehind(before, at, result.params, proto, params[i], [value], rest);
  }

  /** Setting the key again makes what the last round left behind irrelevant. */
  lemma FlattenStep(before: seq<Parameter>, proto: seq<Parameter>, key: string, v: seq<string>, rest: seq<Expansion>)
    requires DistinctNames(before) && SameBut(before, proto, KeySet(rest) + {key}) && Has(proto, key)
             && Keyed(proto, rest)
    ensures DistinctNames(SetValues(before, key, v)) && Keyed(SetValues(before, key, v), rest)
    ensures Expand(SetValues(before, key, v), rest) == Expand(SetValues(proto, key, v), rest)
  {
    FindSameNames(before, proto, key);
    KeyedSame(before, proto, rest);
    SetKeeps(before, key, v);
    KeyedSet(before, key, v, rest);
    SetSameBut(before, proto, key, v, KeySet(rest) + {key});
    ExpandIgnores(SetValues(before, key, v), SetValues(proto, key, v), rest);
  }

  lemma LeftBehind(before: seq<Parameter>, at: seq<Parameter>, after: seq<Parameter>, proto: seq<Parameter>,
                   key: string, v: seq<string>, rest: seq<Expansion>)
    requires SameBut(before, proto, KeySet(rest) + {key}) && Has(before, key) && at == SetValues(before, key, v)
    requires SameBut(after, at, KeySet(rest))
    ensures SameBut(after, proto, KeySet(rest) + {key})
  {
  }

  /** `flatten`: the callback sees the expansion of the flattenable keys, in parameter order. */
  method Flatten(request: Request, flattenable: set<string>, callback: Collector)
    requires DistinctNames(request.params)
    modifies callback
    ensures callback.seen == old(callback.seen) + Flattened(request, flattenable)
  {
    var params: seq<string> := [];
    for i := 0 to |request.params|
      invariant params == NamesInOrder(request.params[..i])
    {
      assert request.params[..i + 1][..i] == request.params[..i];
      params := params + [request.params[i].name];
    }
    assert request.params[..|request.params|] == request.params;
    var result := new MarsRequest(request);
    NamesAreKeys(request.params);
    FlattenKeysAmong(params, flattenable);
    ListsKeyed(request.params, FlattenKeys(params, flattenable));
    assert params[0..] == params;
    assert Remaining(request.params, params, flattenable, 0) == Lists(request.params, FlattenKeys(params, flattenable));
    FlattenFrom(request, params, flattenable, 0, result, callback);
  }

  function NamesInOrder(ps: seq<Parameter>): seq<string> {
    if ps == [] then [] else NamesInOrder(ps[..|ps| - 1]) + [ps[|ps| - 1].name]
  }

  lemma {:induction false} NamesAreKeys(ps: seq<Parameter>)
    ensures forall name :: name in NamesInOrder(ps) <==> Has(ps, name)
  {
    if ps != [] {
      var n := |ps| - 1;
      NamesAreKeys(ps[..n]);
      assert ps == ps[..n] + [ps[n]];
      forall name {
        FindSnoc(ps[..n], ps[n], name);
      }
    }
  }

  lemma {:induction false} FlattenKeysAmong(params: seq<string>, flattenable: set<string>)
    ensures forall k :: k in FlattenKeys(params, flattenable) <==> k in params && k in flattenable
  {
    if params != [] {
      FlattenKeysAmong(params[1..], flattenable);
      assert params == [params[0]] + params[1..];
    }
  }

  function Flattened(r: Request, flattenable: set<string>): seq<Request> {
    WithVerb(r.verb, Expand(r.params, Lists(r.params, FlattenKeys(NamesInOrder(r.params), flattenable))))
  }

  lemma {:induction false} ListsAreExpansions(ps: seq<Parameter>, keys: seq<string>)
    requires forall k :: k in keys ==> ValuesOf(ps, k) != []
    ensures Lists(ps, keys) == Expansions(ps, keys)
  {
    if keys != [] {
      var n := |keys| - 1;
      ListsSnoc(ps, keys[..n], keys[n]);
      assert keys == keys[..n] + [keys[n]];
      assert forall k :: k in keys[..n] ==> k in keys;
      ListsAreExpansions(ps, keys[..n]);
    }
  }

  lemma {:induction false} ListsSnoc(ps: seq<Parameter>, keys: seq<string>, k: string)
    ensures Lists(ps, keys + [k]) == Lists(ps, keys) + [Expansion(k, ValuesOf(ps, k))]
  {
    if keys == [] {
      assert [k][1..] == [] && [] + [k] == [k];
    } else {
      assert (keys + [k])[1..] == keys[1..] + [k];
      ListsSnoc(ps, keys[1..], k);
    }
  }

  lemma {:induction false} EmptyListEmpties(proto: seq<Parameter>, exp: seq<Expansion>)
    requires exists e :: e in exp && e.values == []
    ensures Expand(proto, exp) == []
    decreases |exp|, 0
  {
    if exp[0].values != [] {
      assert exp == [exp[0]] + exp[1..];
      EmptyListEmptiesFrom(proto, exp[0].key, exp[0].values, exp[1..]);
    }
  }

  lemma {:induction false} EmptyListEmptiesFrom(proto: seq<Parameter>, key: string, values: seq<string>,
                                                rest: seq<Expansion>)
    requires exists e :: e in rest && e.values == []
    ensures ExpandFrom(proto, key, values, rest) == []
    decreases |rest|, 1, |values|
  {
    if values != [] {
      EmptyListEmpties(SetValues(proto, key, [values[0]]), rest);
      EmptyListEmptiesFrom(proto, key, values[1..], rest);
    }
  }

  lemma {:induction false} ExpandNotEmpty(proto: seq<Parameter>, exp: seq<Expansion>)
    requires forall e :: e in exp ==> e.values != []
    ensures Expand(proto, exp) != []
    decreases |exp|
  {
    if exp != [] {
      assert exp[0] in exp;
      ExpandNotEmpty(SetValues(proto, exp[0].key, [exp[0].values[0]]), exp[1..]);
    }
  }

  lemma {:induction false} ExpansionsNotEmpty(ps: seq<Parameter>, keys: seq<string>)
    ensures forall e :: e in Expansions(ps, keys) ==> e.values != []
  {
    if keys != [] {
      ExpansionsNotEmpty(ps, keys[..|keys| - 1]);
    }
  }

  lemma {:induction false} EmptyInLists(ps: seq<Parameter>, keys: seq<string>, k: string)
    requires k in keys
    ensures Expansion(k, ValuesOf(ps, k)) in Lists(ps, keys)
  {
    if keys[0] != k {
      EmptyInLists(ps, keys[1..], k);
    }
  }

  /** `flatten` calls back with exactly what `split` along the flattenable keys returns, if and only
      if none of these keys has an empty list (for which `flatten` calls back with nothing). */
  lemma FlattenIsSplit(r: Request, flattenable: set<string>)
    ensures var keys := FlattenKeys(NamesInOrder(r.params), flattenable);
            Flattened(r, flattenable) == Split(r, keys) <==> forall k :: k in keys ==> ValuesOf(r.params, k) != []
  {
    var keys := FlattenKeys(NamesInOrder(r.params), flattenable);
    if forall k :: k in keys ==> ValuesOf(r.params, k) != [] {
      ListsAreExpansions(r.params, keys);
    } else {
      var k :| k in keys && ValuesOf(r.params, k) == [];
      EmptyInLists(r.params, keys, k);
      EmptyListEmpties(r.params, Lists(r.params, keys));
      ExpansionsNotEmpty(r.params, keys);
      ExpandNotEmpty(r.params, Expansions(r.params, keys));
      assert |Flattened(r, flattenable)| == 0 && |Split(r, keys)| > 0;
    }
  }
}
