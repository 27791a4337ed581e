/** Inputs of two distinct fields, or of two fields asked for twice, that the compaction turns into four. */
module CompactionFailures {
  import opened Requests
  import opened Fields
  import opened HyperCubes
  import opened Compaction
  import opened CompactionExact
  import opened CompactionTheorem

  // ---- requests with two keys -----------------------------------------------------------

  /** The first key may be one that is counted once; neither is one of those that `count` treats apart. */
  datatype Keys = Keys(first: string, flatten: bool, second: string) {
    predicate Valid() {
      && first != second
      && first !in {"levelist", "param", "levtype"} && second !in {"levelist", "param", "levtype"}
    }

    function Request(a: seq<string>, b: seq<string>): Requests.Request {
      Requests.Request("retrieve", [Parameter(first, flatten, a), Parameter(second, true, b)])
    }
  }

  lemma TwoKeysValues(k: Keys, a: seq<string>, b: seq<string>)
    requires k.Valid()
    ensures var ps := k.Request(a, b).params;
            && ValuesOf(ps, k.first) == a && ValuesOf(ps, k.second) == b
            && (forall name :: Has(ps, name) <==> name == k.first || name == k.second)
  {
    var ps := k.Request(a, b).params;
    FindAt(ps, 0);
    FindAt(ps, 1);
  }

  lemma MergeTwoKeys(k: Keys, a: seq<string>, b: seq<string>, c: seq<string>, d: seq<string>)
    requires k.Valid()
    ensures Merge(k.Request(a, b), k.Request(c, d)) == k.Request(Union(a, c), Union(b, d))
  {
    TwoKeysValues(k, c, d);
  }

  lemma UnionWithOne(a: seq<string>, v: string)
    ensures Union(a, [v]) == if v in a then a else a + [v]
  {
    assert [v][..0] == [];
    assert Without([v], a) == if v in a then [] else [v];
    assert a + [] == a;
  }

  lemma CountTwoKeys(k: Keys, a: seq<string>, b: seq<string>, singleLevel: set<string>)
    requires k.Valid() && |a| > 1 && |b| > 1
    ensures CountOf(k.Request(a, b).params, singleLevel) == (if k.flatten then |a| else 1) * |b|
  {
    TwoKeysValues(k, a, b);
    var ps := k.Request(a, b).params;
    assert ps[..1] == [ps[0]] && ps[..1][..0] == [];
    assert OthersProduct(ps[..1]) == CountParam(ps[0]);
    assert !HasWild(ps);
  }

  lemma MergedIsFaithful(k: Keys, a: seq<string>, b: seq<string>, u: Universe)
    requires k.Valid()
    ensures Faithful(k.Request(a, b).params, u)
  {
    TwoKeysValues(k, a, b);
  }

  lemma AddsBoth(k: Keys, a: seq<string>, b: seq<string>, v: string, w: string)
    requires k.Valid() && v !in a && w !in b
    ensures Merge(k.Request(a, b), k.Request([v], [w])) == k.Request(a + [v], b + [w])
  {
    UnionWithOne(a, v);
    UnionWithOne(b, w);
    MergeTwoKeys(k, a, b, [v], [w]);
  }

  lemma AddsNothing(k: Keys, a: seq<string>, b: seq<string>, v: string, w: string)
    requires k.Valid() && v in a && w in b
    ensures Merge(k.Request(a, b), k.Request([v], [w])) == k.Request(a, b)
  {
    UnionWithOne(a, v);
    UnionWithOne(b, w);
    MergeTwoKeys(k, a, b, [v], [w]);
  }

  lemma TwoKeysPlain(k: Keys, v: string, w: string, u: Universe)
    requires k.Valid()
    ensures PlainRequest(k.Request([v], [w]), "retrieve", {k.first, k.second}, u)
  {
    TwoKeysValues(k, [v], [w]);
  }

  // ---- two fields that differ in both keys ----------------------------------------------

  /** A request for one value of each key, and one for another value of each. */
  ghost predicate Apart(k: Keys, x: Requests.Request, y: Requests.Request, a: string, b: string, c: string, d: string) {
    k.Valid() && a != c && b != d && x == k.Request([a], [b]) && y == k.Request([c], [d])
  }

  lemma ApartMerged(k: Keys, x: Requests.Request, y: Requests.Request, a: string, b: string, c: string, d: string,
                    u: Universe)
    requires Apart(k, x, y, a, b, c, d)
    ensures Merge(Merge(x, y), x) == Merge(x, y) && Merge(Merge(x, y), y) == Merge(x, y)
    ensures CountsAs(Merge(x, y), k, u)
  {
    var v, w := [a] + [c], [b] + [d];
    AddsBoth(k, [a], [b], c, d);
    AddsNothing(k, v, w, a, b);
    AddsNothing(k, v, w, c, d);
    TwoOfEach(k, v, w, k.Request(v, w), u);
  }

  ghost predicate CountsAs(m: Requests.Request, k: Keys, u: Universe) {
    && CountOf(m.params, u.singleLevel) == (if k.flatten then 4 else 2)
    && Faithful(m.params, u)
    && (!k.flatten ==> !AllCounted(m.params))
  }

  lemma TwoOfEach(k: Keys, v: seq<string>, w: seq<string>, m: Requests.Request, u: Universe)
    requires k.Valid() && |v| == 2 && |w| == 2 && m == k.Request(v, w)
    ensures CountsAs(m, k, u)
  {
    CountTwoKeys(k, v, w, u.singleLevel);
    MergedIsFaithful(k, v, w, u);
    if !k.flatten {
      FirstNotCounted(k, v, w);
    }
  }

  lemma FirstNotCounted(k: Keys, a: seq<string>, b: seq<string>)
    requires k.Valid() && !k.flatten && |a| > 1
    ensures !AllCounted(k.Request(a, b).params)
  {
    assert !Counted(k.Request(a, b).params[0]);
  }

  lemma ApartFields(k: Keys, x: Requests.Request, y: Requests.Request, a: string, b: string, c: string, d: string,
                    u: Universe)
    requires Apart(k, x, y, a, b, c, d)
    ensures PlainRequest(x, "retrieve", {k.first, k.second}, u) && PlainRequest(y, "retrieve", {k.first, k.second}, u)
    ensures FieldCells(x.params, u) !! FieldCells(y.params, u)
  {
    TwoKeysPlain(k, a, b, u);
    TwoKeysPlain(k, c, d, u);
    PlainDenotes(x, "retrieve", {k.first, k.second}, u);
    PlainDenotes(y, "retrieve", {k.first, k.second}, u);
    TwoKeysValues(k, [a], [b]);
    TwoKeysValues(k, [c], [d]);
    SingleValue(x.params, k.first);
    SingleValue(y.params, k.first);
    assert FieldOf(x.params)[k.first] != FieldOf(y.params)[k.first];
  }

  // ---- a key that is counted once -------------------------------------------------------

  /** The first key is counted once, as the type is: two distinct fields, such as type=an, step=0 and type=fc, step=6,
      become a request for four, although both keys may be axes. */
  lemma UncountedKeysInventFields(k: Keys, x: Requests.Request, y: Requests.Request, a: string, b: string, c: string,
                                  d: string, order: seq<string>, u: Universe)
    requires Apart(k, x, y, a, b, c, d) && !k.flatten && Distinct(order)
    ensures PlainGroup([x, y], "retrieve", {k.first, k.second}, u) && NoOverlap([x, y], u)
    ensures Faithful(MergedOf([x, y]).params, u)
    ensures !DenotesExactly(GroupOut([x, y], order, u.singleLevel), [x, y], u)
  {
    MergedTwo(x, y);
    ApartCounted(k, x, y, a, b, c, d, u);
    ApartGroup([x, y], k, x, y, a, b, c, d, u);
    NotCompacted([x, y], {k.first, k.second}, order, u);
  }

  lemma ApartCounted(k: Keys, x: Requests.Request, y: Requests.Request, a: string, b: string, c: string, d: string,
                     u: Universe)
    requires Apart(k, x, y, a, b, c, d) && !k.flatten
    ensures var m := Merge(x, y).params;
            CountOf(m, u.singleLevel) == 2 && Faithful(m, u) && !AllCounted(m)
  {
    ApartMerged(k, x, y, a, b, c, d, u);
  }

  lemma ApartGroup(reqs: seq<Requests.Request>, k: Keys, x: Requests.Request, y: Requests.Request, a: string, b: string,
                   c: string, d: string, u: Universe)
    requires Apart(k, x, y, a, b, c, d) && |reqs| == 2 && reqs[0] == x && reqs[1] == y
    ensures PlainGroup(reqs, "retrieve", {k.first, k.second}, u) && NoOverlap(reqs, u)
  {
    ApartFields(k, x, y, a, b, c, d, u);
    GroupOfTwo(reqs, x, y, {k.first, k.second}, u);
    TwoApart(reqs, x, y, u);
  }

  lemma TwoApart(reqs: seq<Requests.Request>, x: Requests.Request, y: Requests.Request, u: Universe)
    requires |reqs| == 2 && reqs[0] == x && reqs[1] == y && FieldCells(x.params, u) !! FieldCells(y.params, u)
    ensures NoOverlap(reqs, u)
  {
  }

  /** A full branch whose condition fails. */
  lemma NotCompacted(reqs: seq<Requests.Request>, keys: set<string>, order: seq<string>, u: Universe)
    requires |reqs| > 1 && PlainGroup(reqs, "retrieve", keys, u) && Distinct(order)
    requires Faithful(MergedOf(reqs).params, u) && CountOf(MergedOf(reqs).params, u.singleLevel) == |reqs|
    requires !AllCounted(MergedOf(reqs).params) || |Denoted(reqs, u)| < |reqs|
    ensures !DenotesExactly(GroupOut(reqs, order, u.singleLevel), reqs, u)
  {
    GroupIsExact(reqs, "retrieve", keys, order, u);
  }

  lemma GroupOfTwo(reqs: seq<Requests.Request>, x: Requests.Request, y: Requests.Request, keys: set<string>,
                   u: Universe)
    requires forall i :: 0 <= i < |reqs| ==> reqs[i] == x || reqs[i] == y
    requires PlainRequest(x, "retrieve", keys, u) && PlainRequest(y, "retrieve", keys, u)
    ensures PlainGroup(reqs, "retrieve", keys, u)
  {
  }

  lemma MergedTwo(x: Requests.Request, y: Requests.Request)
    ensures MergedOf([x, y]) == Merge(x, y)
  {
    assert [x, y][..1] == [x];
  }

  // ---- duplicates -----------------------------------------------------------------------

  /** Both keys are counted value by value: two fields, each asked for twice, become a request for four. */
  lemma DuplicatesInventFields(k: Keys, x: Requests.Request, y: Requests.Request, a: string, b: string, c: string,
                               d: string, order: seq<string>, u: Universe)
    requires Apart(k, x, y, a, b, c, d) && k.flatten && Distinct(order)
    ensures PlainGroup([x, y, x, y], "retrieve", {k.first, k.second}, u) && Faithful(MergedOf([x, y, x, y]).params, u)
    ensures !DenotesExactly(GroupOut([x, y, x, y], order, u.singleLevel), [x, y, x, y], u)
  {
    MergedFour(x, y);
    ApartMerged(k, x, y, a, b, c, d, u);
    ApartFields(k, x, y, a, b, c, d, u);
    FourRequests(x, y, {k.first, k.second}, u);
    NotCompacted([x, y, x, y], {k.first, k.second}, order, u);
  }

  lemma MergedFour(x: Requests.Request, y: Requests.Request)
    ensures MergedOf([x, y, x, y]) == Merge(Merge(Merge(x, y), x), y)
  {
    var reqs := [x, y, x, y];
    assert reqs[..3] == [x, y, x] && reqs[..3][..2] == [x, y];
    MergedTwo(x, y);
    assert MergedOf([x, y, x]) == Merge(Merge(x, y), x);
  }

  lemma FourRequests(x: Requests.Request, y: Requests.Request, keys: set<string>, u: Universe)
    requires PlainRequest(x, "retrieve", keys, u) && PlainRequest(y, "retrieve", keys, u)
    ensures PlainGroup([x, y, x, y], "retrieve", keys, u) && |Denoted([x, y, x, y], u)| < 4
  {
    PlainDenotes(x, "retrieve", keys, u);
    PlainDenotes(y, "retrieve", keys, u);
    GroupOfTwo([x, y, x, y], x, y, keys, u);
    FourDenoted(x, y, FieldOf(x.params), FieldOf(y.params), u);
  }

  lemma FourDenoted(x: Requests.Request, y: Requests.Request, a: Cell, b: Cell, u: Universe)
    requires FieldCells(x.params, u) == {a} && FieldCells(y.params, u) == {b}
    ensures |Denoted([x, y, x, y], u)| < 4
  {
    DenotedFour(x, y, u);
    TwoAtMost(a, b);
  }

  lemma DenotedFour(x: Requests.Request, y: Requests.Request, u: Universe)
    ensures Denoted([x, y, x, y], u)
            == {} + FieldCells(x.params, u) + FieldCells(y.params, u)
               + FieldCells(x.params, u) + FieldCells(y.params, u)
  {
    var one, two := [] + [x], [] + [x] + [y];
    var three := two + [x];
    DenotedSnoc([], x, u);
    DenotedSnoc(one, y, u);
    DenotedSnoc(two, x, u);
    DenotedSnoc(three, y, u);
    assert three + [y] == [x, y, x, y];
  }

  lemma TwoAtMost<T>(a: T, b: T)
    ensures |{} + {a} + {b} + {a} + {b}| < 4
  {
    assert {} + {a} + {b} + {a} + {b} == {a, b};
  }
}
