/** MARS requests: a verb and an ordered list of parameters.  The functions say what each
    operation of `MarsRequest` computes; the class carries the operations themselves. */
module Requests {

  /** A key with its values.  `flatten` is the property of the key's type that decides whether
      its values are counted one by one. */
  datatype Parameter = Parameter(name: string, flatten: bool, values: seq<string>)

  datatype Request = Request(verb: string, params: seq<Parameter>)

  predicate Distinct<T(==)>(s: seq<T>) {
    forall i, j :: 0 <= i < j < |s| ==> s[i] != s[j]
  }

  lemma LastIsNew<T>(s: seq<T>)
    requires Distinct(s) && s != []
    ensures Distinct(s[..|s| - 1]) && s[|s| - 1] !in s[..|s| - 1]
  {
  }

  predicate DistinctNames(ps: seq<Parameter>) {
    forall i, j :: 0 <= i < j < |ps| ==> ps[i].name != ps[j].name
  }

  function Names(ps: seq<Parameter>): set<string> {
    set i | 0 <= i < |ps| :: ps[i].name
  }

  /** Position of the first parameter with this name, or the length when there is none. */
  function Find(ps: seq<Parameter>, name: string): (i: nat)
    ensures i <= |ps|
    ensures i < |ps| ==> ps[i].name == name
    ensures forall j :: 0 <= j < i ==> ps[j].name != name
  {
    if ps == [] || ps[0].name == name then 0 else 1 + Find(ps[1..], name)
  }

  predicate Has(ps: seq<Parameter>, name: string) {
    Find(ps, name) < |ps|
  }

  function ValuesOf(ps: seq<Parameter>, name: string): seq<string> {
    if Has(ps, name) then ps[Find(ps, name)].values else []
  }

  /** With distinct names a parameter is found where it stands. */
  lemma FindAt(ps: seq<Parameter>, i: nat)
    requires DistinctNames(ps) && i < |ps|
    ensures Find(ps, ps[i].name) == i
  {
  }

  lemma {:induction false} FindSnoc(ps: seq<Parameter>, p: Parameter, name: string)
    ensures Find(ps + [p], name) == if Has(ps, name) then Find(ps, name) else if p.name == name then |ps| else |ps| + 1
  {
    if ps != [] && ps[0].name != name {
      assert (ps + [p])[1..] == ps[1..] + [p];
      FindSnoc(ps[1..], p, name);
    }
  }

  lemma ValuesOfSnoc(ps: seq<Parameter>, p: Parameter, name: string)
    requires !Has(ps, p.name)
    ensures ValuesOf(ps + [p], name) == if p.name == name then p.values else ValuesOf(ps, name)
    ensures Has(ps + [p], name) <==> Has(ps, name) || p.name == name
  {
    FindSnoc(ps, p, name);
  }

  // ---- setting values -------------------------------------------------------------------

  /** `values(name, v)`: an existing parameter keeps its type, a new one is put at the end. */
  function SetValues(ps: seq<Parameter>, name: string, v: seq<string>): seq<Parameter> {
    var i := Find(ps, name);
    if i < |ps| then ps[i := ps[i].(values := v)] else ps + [Parameter(name, true, v)]
  }

  /** `setValuesTyped`: the parameter is replaced, type included. */
  function SetTyped(ps: seq<Parameter>, p: Parameter): seq<Parameter> {
    var i := Find(ps, p.name);
    if i < |ps| then ps[i := p] else ps + [p]
  }

  function Unset(ps: seq<Parameter>, name: string): seq<Parameter> {
    var i := Find(ps, name);
    if i < |ps| then ps[..i] + ps[i + 1..] else ps
  }

  // ---- merging --------------------------------------------------------------------------

  /** The elements of `s` that are not in `a`, in order. */
  function Without(s: seq<string>, a: seq<string>): seq<string> {
    if s == [] then []
    else
      var n := |s| - 1;
      Without(s[..n], a) + (if s[n] in a then [] else [s[n]])
  }

  /** Order-respecting union: what `b` adds goes after what `a` has. */
  function Union(a: seq<string>, b: seq<string>): seq<string> {
    a + Without(b, a)
  }

  lemma {:induction false} InWithout(s: seq<string>, a: seq<string>)
    ensures forall x :: x in Without(s, a) <==> x in s && x !in a
  {
    if s != [] {
      var n := |s| - 1;
      assert s == s[..n] + [s[n]];
      InWithout(s[..n], a);
    }
  }

  lemma InUnion(a: seq<string>, b: seq<string>)
    ensures forall x :: x in Union(a, b) <==> x in a || x in b
  {
    InWithout(b, a);
  }

  lemma {:induction false} WithoutDistinct(s: seq<string>, a: seq<string>)
    requires Distinct(s)
    ensures Distinct(Without(s, a))
  {
    if s != [] {
      var n := |s| - 1;
      WithoutDistinct(s[..n], a);
      InWithout(s[..n], a);
      assert s[n] !in s[..n];
    }
  }

  lemma UnionDistinct(a: seq<string>, b: seq<string>)
    requires Distinct(a) && Distinct(b)
    ensures Distinct(Union(a, b))
  {
    WithoutDistinct(b, a);
    InWithout(b, a);
    var w := Without(b, a);
    forall i, j | 0 <= i < j < |a + w|
      ensures (a + w)[i] != (a + w)[j]
    {
      if i < |a| <= j {
        assert (a + w)[j] == w[j - |a|];
        assert w[j - |a|] in w;
      }
    }
  }

  function MergeOne(p: Parameter, other: seq<Parameter>): Parameter {
    p.(values := Union(p.values, ValuesOf(other, p.name)))
  }

  function MergeParams(ps: seq<Parameter>, other: seq<Parameter>): seq<Parameter> {
    seq(|ps|, i requires 0 <= i < |ps| => MergeOne(ps[i], other))
  }

  function Merge(r: Request, other: Request): Request {
    r.(params := MergeParams(r.params, other.params))
  }

  // ---- counting -------------------------------------------------------------------------

  function CountIn(s: seq<string>, among: set<string>): (n: nat)
    ensures n <= |s|
  {
    if s == [] then 0
    else CountIn(s[..|s| - 1], among) + (if s[|s| - 1] in among then 1 else 0)
  }

  /** The single value "all" or "any": the number of fields is not known. */
  predicate Wild(p: Parameter) {
    |p.values| == 1 && (p.values[0] == "all" || p.values[0] == "any")
  }

  predicate HasWild(ps: seq<Parameter>) {
    exists i :: 0 <= i < |ps| && Wild(ps[i])
  }

  /** `Type::count` */
  function CountParam(p: Parameter): nat {
    if p.flatten then |p.values| else 1
  }

  /** The product of the counts of every key but the level and the param. */
  function OthersProduct(ps: seq<Parameter>): nat {
    if ps == [] then 1
    else
      var last := ps[|ps| - 1];
      var before := OthersProduct(ps[..|ps| - 1]);
      if last.name == "levelist" || last.name == "param" then before else before * CountParam(last)
  }

  function Levels(ps: seq<Parameter>): nat {
    if Has(ps, "levelist") then |ValuesOf(ps, "levelist")| else 1
  }

  function Pairs(ml: bool, levels: nat, multi: nat, single: nat, levelOne: bool): nat {
    if ml then levels * multi + (if levelOne then single else 0)
    else levels * (multi + single)
  }

  /** How many (level, param) pairs: on model levels a single-level param exists at level 1 only. */
  function LevelFactor(ps: seq<Parameter>, singleLevel: set<string>): nat {
    var params := ValuesOf(ps, "param");
    var single: nat := CountIn(params, singleLevel);
    if params == [] then 1
    else
      Pairs("ml" in ValuesOf(ps, "levtype"), Levels(ps), |params| - single, single, "1" in ValuesOf(ps, "levelist"))
  }

  function CountOf(ps: seq<Parameter>, singleLevel: set<string>): nat {
    if HasWild(ps) then 0 else OthersProduct(ps) * LevelFactor(ps, singleLevel)
  }

  /** What `count` has gathered from the parameters so far: also from a request that has a key twice, as one that is
      decoded from a stream may.  A later list of levels, or of level types, replaces an earlier one; the
      single-level params of all lists add up. */
  datatype Tallied = Unknown | Tally(product: int, ml: bool, levels: nat, multi: int, single: nat, levelOne: bool)

  function Tallying(before: Tallied, p: Parameter, singleLevel: set<string>): Tallied {
    if before.Unknown? || Wild(p) then Unknown
    else if p.name == "levelist" then before.(levels := |p.values|, levelOne := "1" in p.values)
    else if p.name == "param" then
      var single := before.single + CountIn(p.values, singleLevel);
      before.(single := single, multi := |p.values| - single)
    else
      before.(ml := if p.name == "levtype" then "ml" in p.values else before.ml,
              product := before.product * CountParam(p))
  }

  function TallyOf(ps: seq<Parameter>, singleLevel: set<string>): Tallied {
    if ps == [] then Tally(1, false, 1, 0, 0, false)
    else Tallying(TallyOf(ps[..|ps| - 1], singleLevel), ps[|ps| - 1], singleLevel)
  }

  function TotalOf(t: Tallied): int {
    match t
    case Unknown => 0
    case Tally(product, ml, levels, multi, single, levelOne) =>
      if multi + single <= 0 then product
      else if ml then product * (levels * multi + (if levelOne then single else 0))
      else product * (levels * (multi + single))
  }

  function CountOfAny(ps: seq<Parameter>, singleLevel: set<string>): int {
    TotalOf(TallyOf(ps, singleLevel))
  }

  lemma {:induction false} UnknownStays(ps: seq<Parameter>, i: nat, singleLevel: set<string>)
    requires i <= |ps| && TallyOf(ps[..i], singleLevel).Unknown?
    ensures TallyOf(ps, singleLevel).Unknown?
  {
    if i < |ps| {
      assert ps[..|ps| - 1][..i] == ps[..i];
      UnknownStays(ps[..|ps| - 1], i, singleLevel);
    } else {
      assert ps[..i] == ps;
    }
  }

  /** With every key once, the accumulators are what the definition of `CountOf` takes apart. */
  lemma {:induction false} TallyOfDistinct(ps: seq<Parameter>, n: nat, singleLevel: set<string>)
    requires DistinctNames(ps) && n <= |ps|
    ensures TallyOf(ps[..n], singleLevel).Unknown? <==> HasWild(ps[..n])
    ensures var t := TallyOf(ps[..n], singleLevel);
            t.Tally? ==> t.product == OthersProduct(ps[..n]) && Scanned(ps[..n], singleLevel, t)
  {
    if n > 0 {
      TallyOfDistinct(ps, n - 1, singleLevel);
      ScanStep(ps, n - 1, singleLevel, TallyOf(ps[..n - 1], singleLevel));
    }
  }

  /** These are the values for which no fields are counted. */
  lemma WildMeaning(ps: seq<Parameter>)
    ensures HasWild(ps) <==> exists i :: 0 <= i < |ps| && (ps[i].values == ["all"] || ps[i].values == ["any"])
  {
    forall i | 0 <= i < |ps|
      ensures Wild(ps[i]) <==> ps[i].values == ["all"] || ps[i].values == ["any"]
    {
      assert |ps[i].values| == 1 ==> ps[i].values == [ps[i].values[0]];
    }
  }

  lemma {:induction false} WildStays(ps: seq<Parameter>, i: nat, singleLevel: set<string>)
    requires i < |ps| && Wild(ps[i])
    ensures TallyOf(ps, singleLevel).Unknown?
  {
    if i < |ps| - 1 {
      WildStays(ps[..|ps| - 1], i, singleLevel);
    }
  }

  /** A key with the one value "all" or "any" makes the count 0. */
  lemma WildCountsNothing(ps: seq<Parameter>, i: nat, singleLevel: set<string>)
    requires i < |ps| && (ps[i].values == ["all"] || ps[i].values == ["any"])
    ensures CountOf(ps, singleLevel) == 0 && CountOfAny(ps, singleLevel) == 0
  {
    WildStays(ps, i, singleLevel);
  }

  lemma CountOfDistinct(ps: seq<Parameter>, singleLevel: set<string>)
    requires DistinctNames(ps)
    ensures CountOfAny(ps, singleLevel) == CountOf(ps, singleLevel)
  {
    TallyOfDistinct(ps, |ps|, singleLevel);
    assert ps[..|ps|] == ps;
  }

  // ---- what setting and unsetting mean --------------------------------------------------

  /** Every other key is there or not, with the same values, as before. */
  ghost predicate OthersKept(before: seq<Parameter>, after: seq<Parameter>, name: string) {
    forall other :: other != name ==>
      (Has(after, other) <==> Has(before, other)) && ValuesOf(after, other) == ValuesOf(before, other)
  }

  lemma SetValuesMeaning(ps: seq<Parameter>, name: string, v: seq<string>)
    ensures var qs := SetValues(ps, name, v);
            && (DistinctNames(ps) ==> DistinctNames(qs))
            && Has(qs, name) && ValuesOf(qs, name) == v && OthersKept(ps, qs, name)
  {
    var i := Find(ps, name);
    SetTypedMeaning(ps, if i < |ps| then ps[i].(values := v) else Parameter(name, true, v));
  }

  lemma SetTypedMeaning(ps: seq<Parameter>, p: Parameter)
    ensures var qs := SetTyped(ps, p);
            && (DistinctNames(ps) ==> DistinctNames(qs))
            && Has(qs, p.name) && qs[Find(qs, p.name)] == p && OthersKept(ps, qs, p.name)
  {
    var qs, i := SetTyped(ps, p), Find(ps, p.name);
    forall other
      ensures Has(qs, other) <==> Has(ps, other) || other == p.name
      ensures Has(ps, other) ==> Find(qs, other) == Find(ps, other)
    {
      if i < |ps| {
        assert forall k :: 0 <= k < |ps| ==> qs[k].name == ps[k].name;
      } else {
        FindSnoc(ps, p, other);
      }
    }
    if i == |ps| {
      FindSnoc(ps, p, p.name);
    }
  }

  /** No parameter but the one of this name is changed or moved; a new one goes to the end. */
  predicate InPlace(before: seq<Parameter>, after: seq<Parameter>, name: string) {
    && |before| <= |after| <= |before| + 1
    && (forall i :: 0 <= i < |before| ==> after[i].name == before[i].name)
    && (forall i :: 0 <= i < |before| && before[i].name != name ==> after[i] == before[i])
    && (|after| > |before| <==> forall i :: 0 <= i < |before| ==> before[i].name != name)
    && (|after| > |before| ==> after[|before|].name == name)
  }

  lemma SetInPlace(ps: seq<Parameter>, p: Parameter)
    ensures InPlace(ps, SetTyped(ps, p), p.name)
  {
  }

  /** Setting values keeps the type of a key; a new key has the type whose values are counted one by one. */
  lemma SetValuesInPlace(ps: seq<Parameter>, name: string, v: seq<string>)
    ensures var qs := SetValues(ps, name, v);
            && InPlace(ps, qs, name)
            && (forall i :: 0 <= i < |ps| ==> qs[i].flatten == ps[i].flatten)
            && (|qs| > |ps| ==> qs[|ps|] == Parameter(name, true, v))
  {
  }

  /** Of the parameters with this name only the first is gone, and what follows it moves up. */
  predicate Removed(before: seq<Parameter>, after: seq<Parameter>, name: string) {
    if forall i :: 0 <= i < |before| ==> before[i].name != name then after == before
    else
      && |after| == |before| - 1
      && exists n :: 0 <= n < |before| && before[n].name == name && MovedUp(before, after, name, n)
  }

  predicate MovedUp(before: seq<Parameter>, after: seq<Parameter>, name: string, n: nat)
    requires |after| == |before| - 1
  {
    && (forall i :: 0 <= i < n && i < |after| ==> after[i] == before[i] && before[i].name != name)
    && forall i :: n <= i < |after| ==> after[i] == before[i + 1]
  }

  lemma UnsetRemoves(ps: seq<Parameter>, name: string)
    ensures Removed(ps, Unset(ps, name), name)
  {
    var n := Find(ps, name);
    if n < |ps| {
      UnsetMoves(ps, name, n);
      assert ps[n].name == name;
    }
  }

  lemma UnsetMoves(ps: seq<Parameter>, name: string, n: nat)
    requires n == Find(ps, name) && n < |ps|
    ensures |Unset(ps, name)| == |ps| - 1 && MovedUp(ps, Unset(ps, name), name, n)
  {
  }

  lemma UnsetMeaning(ps: seq<Parameter>, name: string)
    ensures var qs := Unset(ps, name);
            && (DistinctNames(ps) ==> DistinctNames(qs) && !Has(qs, name))
            && OthersKept(ps, qs, name)
  {
    var qs, i := Unset(ps, name), Find(ps, name);
    forall other | other != name
      ensures Has(qs, other) <==> Has(ps, other)
      ensures ValuesOf(qs, other) == ValuesOf(ps, other)
    {
      UnsetFind(ps, name, other);
    }
  }

  /** What follows the removed parameter moves up by one. */
  lemma UnsetFind(ps: seq<Parameter>, name: string, other: string)
    requires other != name
    ensures var k := Find(ps, other);
            Find(Unset(ps, name), other) == if Find(ps, name) < k then k - 1 else k
  {
    var qs, i, k := Unset(ps, name), Find(ps, name), Find(ps, other);
    if i < |ps| {
      assert forall j :: 0 <= j < |qs| ==> qs[j] == ps[if j < i then j else j + 1];
      FoundAt(qs, other, if i < k then k - 1 else k);
    }
  }

  lemma FoundAt(ps: seq<Parameter>, name: string, k: nat)
    requires k <= |ps| && (k < |ps| ==> ps[k].name == name) && forall j :: 0 <= j < k ==> ps[j].name != name
    ensures Find(ps, name) == k
  {
  }

  // ---- the operations -------------------------------------------------------------------

  /** `Parameter::merge` */
  method MergeParameter(p: Parameter, o: Parameter) returns (r: Parameter)
    requires p.name == o.name
    ensures r == p.(values := Union(p.values, o.values))
  {
    var diff: seq<string> := [];
    for i := 0 to |o.values|
      invariant diff == Without(o.values[..i], p.values)
    {
      var found := false;
      for j := 0 to |p.values|
        invariant found <==> o.values[i] in p.values[..j]
      {
        if p.values[j] == o.values[i] {
          found := true;
        }
      }
      assert p.values[..|p.values|] == p.values;
      assert o.values[..i + 1][..i] == o.values[..i];
      if !found {
        diff := diff + [o.values[i]];
      }
    }
    assert o.values[..|o.values|] == o.values;
    r := p.(values := p.values + diff);
  }

  class MarsRequest {
    var verb: string
    var params: seq<Parameter>

    /** Every operation that adds a parameter looks its name up first. */
    ghost predicate Valid()
      reads this
    {
      DistinctNames(params)
    }

    constructor (r: Request)
      ensures verb == r.verb && params == r.params
    {
      verb, params := r.verb, r.params;
    }

    function Value(): Request
      reads this
    {
      Request(verb, params)
    }

    method Values(name: string, v: seq<string>)
      modifies this`params
      ensures params == SetValues(old(params), name, v)
      ensures old(Valid()) ==> Valid()
      ensures Has(params, name) && ValuesOf(params, name) == v && OthersKept(old(params), params, name)
      ensures InPlace(old(params), params, name)
    {
      SetValuesMeaning(params, name, v);
      SetValuesInPlace(params, name, v);
      var i := Find(params, name);
      if i < |params| {
        params := params[i := params[i].(values := v)];
      } else {
        params := params + [Parameter(name, true, v)];
      }
    }

    method SetValue(name: string, value: string)
      modifies this`params
      ensures params == SetValues(old(params), name, [value])
      ensures old(Valid()) ==> Valid()
      ensures Has(params, name) && ValuesOf(params, name) == [value] && OthersKept(old(params), params, name)
    {
      Values(name, [value]);
    }

    method SetValuesTyped(p: Parameter)
      modifies this`params
      ensures params == SetTyped(old(params), p)
      ensures old(Valid()) ==> Valid()
      ensures Has(params, p.name) && params[Find(params, p.name)] == p && OthersKept(old(params), params, p.name)
      ensures InPlace(old(params), params, p.name)
    {
      SetTypedMeaning(params, p);
      SetInPlace(params, p);
      var i := Find(params, p.name);
      if i < |params| {
        params := params[i := p];
      } else {
        params := params + [p];
      }
    }

    /** The name may still be there afterwards if it was there twice. */
    method UnsetValues(name: string)
      modifies this`params
      ensures params == Unset(old(params), name)
      ensures old(Valid()) ==> Valid() && !Has(params, name)
      ensures OthersKept(old(params), params, name)
      ensures Removed(old(params), params, name)
    {
      UnsetMeaning(params, name);
      UnsetRemoves(params, name);
      var i := Find(params, name);
      if i < |params| {
        params := params[..i] + params[i + 1..];
      }
    }

    method Merge(other: Request)
      modifies this`params
      ensures params == MergeParams(old(params), other.params)
      ensures old(Valid()) ==> Valid()
    {
      ghost var was := params;
      for i := 0 to |params|
        invariant |params| == |was|
        invariant params[..i] == MergeParams(was, other.params)[..i]
        invariant params[i..] == was[i..]
      {
        assert params[i] == params[i..][0] == was[i];
        var k := Find(other.params, params[i].name);
        if k < |other.params| {
          var merged := MergeParameter(params[i], other.params[k]);
          params := params[i := merged];
        } else {
          assert Union(was[i].values, []) == was[i].values;
        }
        assert params[i] == MergeParams(was, other.params)[i];
      }
    }

    method Count(singleLevel: set<string>) returns (n: int)
      ensures n == CountOfAny(params, singleLevel)
      ensures Valid() ==> n == CountOf(params, singleLevel)
    {
      n := CountParams(params, singleLevel);
      if Valid() {
        CountOfDistinct(params, singleLevel);
      }
    }
  }

  method CountParams(ps: seq<Parameter>, singleLevel: set<string>) returns (n: int)
    ensures n == CountOfAny(ps, singleLevel)
  {
    n := 1;
    var ml, levelOne := false, false;
    var levels: nat, multi: int, single: nat := 1, 0, 0;
    for i := 0 to |ps|
      invariant TallyOf(ps[..i], singleLevel) == Tally(n, ml, levels, multi, single, levelOne)
    {
      var p := ps[i];
      assert ps[..i + 1][..i] == ps[..i];
      if Wild(p) {
        UnknownStays(ps, i + 1, singleLevel);
        return 0;
      }
      if p.name == "levelist" {
        levels, levelOne := |p.values|, "1" in p.values;
      } else if p.name == "param" {
        var more := CountSingleLevel(p.values, singleLevel);
        single := single + more;
        multi := |p.values| - single;
      } else {
        if p.name == "levtype" {
          ml := "ml" in p.values;
        }
        n := n * CountParam(p);
      }
    }
    assert ps[..|ps|] == ps;
    if multi + single > 0 {
      if ml {
        n := n * (levels * multi + (if levelOne then single else 0));
      } else {
        n := n * (levels * (multi + single));
      }
    }
  }

  method CountSingleLevel(values: seq<string>, singleLevel: set<string>) returns (n: nat)
    ensures n == CountIn(values, singleLevel)
  {
    n := 0;
    for j := 0 to |values|
      invariant n == CountIn(values[..j], singleLevel)
    {
      assert values[..j + 1][..j] == values[..j];
      if values[j] in singleLevel {
        n := n + 1;
      }
    }
    assert values[..|values|] == values;
  }

  /** What the accumulators of `count` hold after the parameters `ps`. */
  ghost predicate Scanned(ps: seq<Parameter>, singleLevel: set<string>, t: Tallied)
    requires t.Tally?
  {
    && t.ml == ("ml" in ValuesOf(ps, "levtype"))
    && t.levels == Levels(ps)
    && t.levelOne == ("1" in ValuesOf(ps, "levelist"))
    && t.single == CountIn(ValuesOf(ps, "param"), singleLevel)
    && t.multi + t.single == |ValuesOf(ps, "param")|
  }

  lemma ScanStep(ps: seq<Parameter>, i: nat, singleLevel: set<string>, before: Tallied)
    requires DistinctNames(ps) && i < |ps| && before == TallyOf(ps[..i], singleLevel)
    requires before.Unknown? <==> HasWild(ps[..i])
    requires before.Tally? ==> before.product == OthersProduct(ps[..i]) && Scanned(ps[..i], singleLevel, before)
    ensures var t := TallyOf(ps[..i + 1], singleLevel);
            && (t.Unknown? <==> HasWild(ps[..i + 1]))
            && (t.Tally? ==> t.product == OthersProduct(ps[..i + 1]) && Scanned(ps[..i + 1], singleLevel, t))
  {
    var p := ps[i];
    TallyNext(ps, i, singleLevel);
    Scan(ps, i, "levelist");
    Scan(ps, i, "param");
    Scan(ps, i, "levtype");
    if before.Tally? && !Wild(p) {
      ScannedNext(ps, i, singleLevel, before, TallyOf(ps[..i + 1], singleLevel));
    }
  }

  lemma TallyNext(ps: seq<Parameter>, i: nat, singleLevel: set<string>)
    requires i < |ps|
    ensures TallyOf(ps[..i + 1], singleLevel) == Tallying(TallyOf(ps[..i], singleLevel), ps[i], singleLevel)
    ensures OthersProduct(ps[..i + 1]) ==
            if ps[i].name == "levelist" || ps[i].name == "param" then OthersProduct(ps[..i])
            else OthersProduct(ps[..i]) * CountParam(ps[i])
  {
    assert ps[..i + 1][..i] == ps[..i] && ps[..i + 1][i] == ps[i];
  }

  lemma ScannedNext(ps: seq<Parameter>, i: nat, singleLevel: set<string>, before: Tallied, after: Tallied)
    requires DistinctNames(ps) && i < |ps| && before.Tally? && !Wild(ps[i]) && Scanned(ps[..i], singleLevel, before)
    requires after == Tallying(before, ps[i], singleLevel)
    ensures Scanned(ps[..i + 1], singleLevel, after)
  {
    Scan(ps, i, "levelist");
    Scan(ps, i, "param");
    Scan(ps, i, "levtype");
    assert !Has(ps[..i], ps[i].name);
  }

  /** What one more parameter changes. */
  lemma Scan(ps: seq<Parameter>, i: nat, name: string)
    requires DistinctNames(ps) && i < |ps|
    ensures ValuesOf(ps[..i + 1], name) == if ps[i].name == name then ps[i].values else ValuesOf(ps[..i], name)
    ensures Has(ps[..i + 1], name) <==> Has(ps[..i], name) || ps[i].name == name
    ensures HasWild(ps[..i + 1]) <==> HasWild(ps[..i]) || Wild(ps[i])
  {
    assert ps[..i + 1] == ps[..i] + [ps[i]];
    ValuesOfSnoc(ps[..i], ps[i], name);
    assert forall k :: 0 <= k < i ==> ps[..i][k] == ps[..i + 1][k];
    assert ps[..i + 1][i] == ps[i];
  }
}
