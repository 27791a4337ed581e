/** What a request denotes: the set of fields that pick one value for every key; and when
    `count` is the number of them. */
module Fields {
  import opened Requests

  /** One value for every key. */
  type Cell = map<string, string>

  function Extended(name: string, v: string, cells: set<Cell>): set<Cell> {
    set c | c in cells :: c[name := v]
  }

  function Prefixed(name: string, values: seq<string>, cells: set<Cell>): (r: set<Cell>)
    ensures forall d :: d in r ==> name in d && d[name] in values
  {
    if values == [] then {} else Extended(name, values[0], cells) + Prefixed(name, values[1..], cells)
  }

  function Cells(ps: seq<Parameter>): set<Cell> {
    if ps == [] then {map[]} else Prefixed(ps[0].name, ps[0].values, Cells(ps[1..]))
  }

  ghost predicate InBox(c: Cell, ps: seq<Parameter>) {
    && c.Keys == Names(ps)
    && forall i :: 0 <= i < |ps| ==> c[ps[i].name] in ps[i].values
  }

  lemma NamesStep(ps: seq<Parameter>)
    requires ps != []
    ensures Names(ps) == {ps[0].name} + Names(ps[1..])
    ensures DistinctNames(ps) ==> ps[0].name !in Names(ps[1..]) && DistinctNames(ps[1..])
  {
    forall i | 0 <= i < |ps|
      ensures ps[i].name in {ps[0].name} + Names(ps[1..])
    {
      if i > 0 {
        assert ps[i] == ps[1..][i - 1];
      }
    }
    forall i | 0 <= i < |ps[1..]|
      ensures ps[1..][i].name in Names(ps)
    {
      assert ps[1..][i] == ps[i + 1];
    }
  }

  lemma InBoxStep(ps: seq<Parameter>, c: Cell)
    requires DistinctNames(ps) && ps != []
    ensures var name := ps[0].name;
            InBox(c, ps) <==> name in c && c[name] in ps[0].values && InBox(c - {name}, ps[1..])
  {
    var name, rest := ps[0].name, c - {ps[0].name};
    NamesStep(ps);
    assert InBox(c, ps) ==> rest.Keys == Names(ps[1..]);
    assert forall i :: 0 <= i < |ps[1..]| ==> ps[1..][i] == ps[i + 1] && ps[1..][i].name in Names(ps[1..]);
    if InBox(rest, ps[1..]) && name in c && c[name] in ps[0].values {
      forall i | 0 <= i < |ps|
        ensures ps[i].name in c && c[ps[i].name] in ps[i].values
      {
        if i > 0 {
          assert ps[i] == ps[1..][i - 1];
          assert rest[ps[i].name] == c[ps[i].name];
        }
      }
      assert c.Keys == Names(ps);
    }
  }

  lemma ExtendedIff(name: string, v: string, cells: set<Cell>, d: Cell)
    requires forall c :: c in cells ==> name !in c
    ensures d in Extended(name, v, cells) <==> name in d && d[name] == v && d - {name} in cells
  {
    if d in Extended(name, v, cells) {
      var c :| c in cells && d == c[name := v];
      assert d - {name} == c;
    }
    if name in d && d[name] == v {
      assert d == (d - {name})[name := v];
    }
  }

  lemma {:induction false} PrefixedIff(name: string, values: seq<string>, cells: set<Cell>, d: Cell)
    requires forall c :: c in cells ==> name !in c
    ensures d in Prefixed(name, values, cells) <==> name in d && d[name] in values && d - {name} in cells
  {
    if values != [] {
      ExtendedIff(name, values[0], cells, d);
      PrefixedIff(name, values[1..], cells, d);
      assert values == [values[0]] + values[1..];
    }
  }

  /** The recursive enumeration is the box. */
  lemma {:induction false} CellsAreTheBox(ps: seq<Parameter>, c: Cell)
    requires DistinctNames(ps)
    ensures c in Cells(ps) <==> InBox(c, ps)
  {
    if ps != [] {
      NamesStep(ps);
      forall d
        ensures d in Cells(ps[1..]) <==> InBox(d, ps[1..])
      {
        CellsAreTheBox(ps[1..], d);
      }
      PrefixedIff(ps[0].name, ps[0].values, Cells(ps[1..]), c);
      InBoxStep(ps, c);
    }
  }

  // ---- the size of a box ----------------------------------------------------------------

  function Product(ps: seq<Parameter>): nat {
    if ps == [] then 1 else |ps[0].values| * Product(ps[1..])
  }

  predicate DistinctValues(ps: seq<Parameter>) {
    forall i :: 0 <= i < |ps| ==> Distinct(ps[i].values)
  }

  lemma {:induction false} ExtendedSize(name: string, v: string, cells: set<Cell>)
    requires forall c :: c in cells ==> name !in c
    ensures |Extended(name, v, cells)| == |cells|
  {
    if cells == {} {
      assert Extended(name, v, cells) == {};
    } else {
      var d :| d in cells;
      var rest := cells - {d};
      ExtendedSize(name, v, rest);
      forall c | c in rest
        ensures c[name := v] != d[name := v]
      {
        assert c[name := v] - {name} == c;
        assert d[name := v] - {name} == d;
      }
      assert cells == rest + {d};
      assert Extended(name, v, cells) == Extended(name, v, rest) + {d[name := v]};
    }
  }

  lemma OneMore(n: nat, m: nat)
    ensures (n + 1) * m == n * m + m
  {
  }

  lemma {:induction false} PrefixedSize(name: string, values: seq<string>, cells: set<Cell>)
    requires Distinct(values)
    requires forall c :: c in cells ==> name !in c
    ensures |Prefixed(name, values, cells)| == |values| * |cells|
  {
    if values != [] {
      var first, others := Extended(name, values[0], cells), Prefixed(name, values[1..], cells);
      assert values[0] !in values[1..];
      assert first !! others;
      ExtendedSize(name, values[0], cells);
      PrefixedSize(name, values[1..], cells);
      OneMore(|values[1..]|, |cells|);
    }
  }

  /** A box with distinct names and values has as many cells as the product of its sizes. */
  lemma {:induction false} CellsSize(ps: seq<Parameter>)
    requires DistinctNames(ps) && DistinctValues(ps)
    ensures |Cells(ps)| == Product(ps)
  {
    if ps != [] {
      NamesStep(ps);
      CellsSize(ps[1..]);
      forall c | c in Cells(ps[1..])
        ensures ps[0].name !in c
      {
        CellsAreTheBox(ps[1..], c);
      }
      PrefixedSize(ps[0].name, ps[0].values, Cells(ps[1..]));
    }
  }

  // ---- the fields of a box --------------------------------------------------------------

  /** On model levels a single-level param exists at level 1 only. */
  predicate Physical(c: Cell, singleLevel: set<string>) {
    "levtype" in c && c["levtype"] == "ml" && "param" in c && c["param"] in singleLevel ==>
      "levelist" in c && c["levelist"] == "1"
  }

  /** Which cells count as fields: all of them, or the physical ones. */
  datatype Universe = Universe(singleLevel: set<string>, all: bool) {
    predicate Field(c: Cell) {
      all || Physical(c, singleLevel)
    }
  }

  function FieldCells(ps: seq<Parameter>, u: Universe): set<Cell> {
    set c | c in Cells(ps) && u.Field(c)
  }

  /** A well-formed box: distinct keys, each with one or more distinct values. */
  predicate IsBox(ps: seq<Parameter>) {
    && DistinctNames(ps)
    && DistinctValues(ps)
    && forall i :: 0 <= i < |ps| ==> ps[i].values != []
  }

  /** `count` takes the values of the key one by one; the levels and the params always. */
  predicate Counted(p: Parameter) {
    p.flatten || |p.values| == 1 || p.name == "levelist" || p.name == "param"
  }

  predicate AllCounted(ps: seq<Parameter>) {
    forall i :: 0 <= i < |ps| ==> Counted(ps[i])
  }

  /** A box as a cube makes it: its keys are set with the default type, whose values are counted one by one. */
  predicate CubeBox(ps: seq<Parameter>) {
    IsBox(ps) && forall i :: 0 <= i < |ps| ==> ps[i].flatten
  }

  /** A box over the keys of `axes`, with some of their values. */
  predicate SubBox(ps: seq<Parameter>, axes: seq<Parameter>) {
    && |ps| == |axes|
    && forall i :: 0 <= i < |ps| ==>
         && ps[i].name == axes[i].name
         && forall v :: v in ps[i].values ==> v in axes[i].values
  }

  // ---- when `count` is the number of fields ---------------------------------------------

  predicate AllSingleLevel(params: seq<string>, u: Universe) {
    forall p :: p in params ==> p in u.singleLevel
  }

  predicate NoneSingleLevel(params: seq<string>, u: Universe) {
    forall p :: p in params ==> p !in u.singleLevel
  }

  /** No param and no list of levels, or no model levels, or no single-level param, or level 1 only. */
  predicate Plain(ps: seq<Parameter>, u: Universe) {
    var params, levels := ValuesOf(ps, "param"), ValuesOf(ps, "levelist");
    if params == [] then |levels| <= 1
    else "ml" !in ValuesOf(ps, "levtype") || NoneSingleLevel(params, u) || levels == ["1"]
  }

  /** Counting is exact on every box that has no "all" or "any". */
  predicate Regular(ps: seq<Parameter>, u: Universe) {
    || Plain(ps, u)
    || (ValuesOf(ps, "param") != [] && !u.all && ValuesOf(ps, "levtype") == ["ml"])
  }

  /** Counting never gives a wrong positive number. */
  predicate Faithful(ps: seq<Parameter>, u: Universe) {
    var params, levels := ValuesOf(ps, "param"), ValuesOf(ps, "levelist");
    Regular(ps, u) || (params != [] && AllSingleLevel(params, u) && "1" !in levels)
  }

  /** What the compaction needs: counting is faithful, or a key has the one value "all" or "any", with which every
      count is 0. */
  predicate Reliable(ps: seq<Parameter>, u: Universe) {
    Faithful(ps, u) || HasWild(ps)
  }

  lemma FindSameNames(ps: seq<Parameter>, axes: seq<Parameter>, name: string)
    requires |ps| == |axes| && forall i :: 0 <= i < |ps| ==> ps[i].name == axes[i].name
    ensures Find(ps, name) == Find(axes, name)
  {
  }

  lemma FaithfulSub(ps: seq<Parameter>, axes: seq<Parameter>, u: Universe)
    requires IsBox(ps) && IsBox(axes) && SubBox(ps, axes)
    ensures Regular(axes, u) ==> Regular(ps, u)
    ensures Faithful(axes, u) ==> Faithful(ps, u)
  {
    SubValues(ps, axes, "param");
    SubValues(ps, axes, "levelist");
    SubValues(ps, axes, "levtype");
  }

  lemma WildSub(ps: seq<Parameter>, axes: seq<Parameter>)
    requires IsBox(ps) && SubBox(ps, axes) && HasWild(axes)
    ensures HasWild(ps)
  {
    var i :| 0 <= i < |axes| && Wild(axes[i]);
    SubList(ps[i].values, axes[i].values);
    assert Wild(ps[i]);
  }

  lemma ReliableSub(ps: seq<Parameter>, axes: seq<Parameter>, u: Universe)
    requires IsBox(ps) && IsBox(axes) && SubBox(ps, axes) && Reliable(axes, u)
    ensures Reliable(ps, u)
  {
    FaithfulSub(ps, axes, u);
    if HasWild(axes) {
      WildSub(ps, axes);
    }
  }

  lemma SubValues(ps: seq<Parameter>, axes: seq<Parameter>, name: string)
    requires IsBox(ps) && IsBox(axes) && SubBox(ps, axes)
    ensures forall v :: v in ValuesOf(ps, name) ==> v in ValuesOf(axes, name)
    ensures |ValuesOf(axes, name)| <= 1 ==> ValuesOf(ps, name) == ValuesOf(axes, name)
    ensures ValuesOf(axes, name) == [] <==> ValuesOf(ps, name) == []
    ensures Has(ps, name) <==> Has(axes, name)
  {
    FindSameNames(ps, axes, name);
    SubList(ValuesOf(ps, name), ValuesOf(axes, name));
  }

  lemma SubList(v: seq<string>, w: seq<string>)
    requires Distinct(v) && forall x :: x in v ==> x in w
    ensures v != [] && |w| == 1 ==> v == w
  {
    assert |v| <= 1 || v[0] != v[1];
    assert forall i :: 0 <= i < |v| ==> v[i] in w;
  }

  // ---- restricting one key --------------------------------------------------------------

  function Select(s: seq<string>, among: set<string>, inside: bool): (r: seq<string>)
    ensures forall x :: x in r <==> x in s && (x in among) == inside
    ensures |r| == if inside then CountIn(s, among) else |s| - CountIn(s, among)
  {
    if s == [] then []
    else
      var n := |s| - 1;
      assert s == s[..n] + [s[n]];
      Select(s[..n], among, inside) + (if (s[n] in among) == inside then [s[n]] else [])
  }

  lemma {:induction false} SelectDistinct(s: seq<string>, among: set<string>, inside: bool)
    requires Distinct(s)
    ensures Distinct(Select(s, among, inside))
  {
    if s != [] {
      var n := |s| - 1;
      SelectDistinct(s[..n], among, inside);
      assert s[n] !in s[..n];
    }
  }

  /** Narrowing the values of one key of a box. */
  lemma Restrict(ps: seq<Parameter>, name: string, v: seq<string>)
    requires DistinctNames(ps) && Has(ps, name)
    requires forall x :: x in v ==> x in ValuesOf(ps, name)
    ensures var r := SetValues(ps, name, v);
            && DistinctNames(r)
            && (DistinctValues(ps) && Distinct(v) ==> DistinctValues(r))
            && (forall c :: c in Cells(r) <==> c in Cells(ps) && name in c && c[name] in v)
            && (forall other :: ValuesOf(r, other) == if other == name then v else ValuesOf(ps, other))
            && (forall other :: Has(r, other) == Has(ps, other))
  {
    var r := SetValues(ps, name, v);
    assert forall i :: 0 <= i < |ps| ==> r[i].name == ps[i].name;
    forall c
      ensures c in Cells(r) <==> c in Cells(ps) && name in c && c[name] in v
    {
      RestrictCell(ps, name, v, c);
    }
    forall other
      ensures ValuesOf(r, other) == if other == name then v else ValuesOf(ps, other)
      ensures Has(r, other) == Has(ps, other)
    {
      FindSameNames(r, ps, other);
    }
  }

  lemma RestrictCell(ps: seq<Parameter>, name: string, v: seq<string>, c: Cell)
    requires DistinctNames(ps) && Has(ps, name)
    requires forall x :: x in v ==> x in ValuesOf(ps, name)
    ensures c in Cells(SetValues(ps, name, v)) <==> c in Cells(ps) && name in c && c[name] in v
  {
    var r := SetValues(ps, name, v);
    var k := Find(ps, name);
    assert forall i :: 0 <= i < |ps| ==> r[i].name == ps[i].name;
    assert Names(r) == Names(ps);
    CellsAreTheBox(ps, c);
    CellsAreTheBox(r, c);
    if InBox(c, r) {
      assert c[r[k].name] in v;
      forall i | 0 <= i < |ps|
        ensures c[ps[i].name] in ps[i].values
      {
        assert c[r[i].name] in r[i].values;
      }
    }
    if InBox(c, ps) && c[name] in v {
      forall i | 0 <= i < |r|
        ensures c[r[i].name] in r[i].values
      {
        assert c[ps[i].name] in ps[i].values;
      }
    }
  }

  lemma {:induction false} OthersRestrict(ps: seq<Parameter>, k: nat, v: seq<string>)
    requires k < |ps| && (ps[k].name == "levelist" || ps[k].name == "param")
    ensures OthersProduct(ps[k := ps[k].(values := v)]) == OthersProduct(ps)
  {
    var n := |ps| - 1;
    var r := ps[k := ps[k].(values := v)];
    if k < n {
      OthersRestrict(ps[..n], k, v);
      assert r[..n] == ps[..n][k := ps[k].(values := v)];
    } else {
      assert r[..n] == ps[..n];
    }
  }

  lemma {:induction false} ProductSnoc(ps: seq<Parameter>, p: Parameter)
    ensures Product(ps + [p]) == Product(ps) * |p.values|
  {
    if ps == [] {
      assert (ps + [p])[1..] == [];
    } else {
      assert (ps + [p])[1..] == ps[1..] + [p];
      ProductSnoc(ps[1..], p);
      Associate(|ps[0].values|, Product(ps[1..]), |p.values|);
    }
  }

  lemma Associate(a: int, b: int, c: int)
    ensures a * (b * c) == (a * b) * c
  {
  }

  lemma Swap(a: int, b: int, c: int)
    ensures (a * b) * c == (a * c) * b
  {
  }

  function Params(ps: seq<Parameter>): nat {
    if Has(ps, "param") then |ValuesOf(ps, "param")| else 1
  }

  lemma LevelStep(o: int, m: int, v: int)
    ensures (o * (1 * m)) * v == o * (v * m)
  {
    Swap(o, m, v);
    Associate(o, v, m);
  }

  /** What one more parameter changes for the levels and the params. */
  lemma LevelsParamsStep(ps: seq<Parameter>, n: nat)
    requires DistinctNames(ps) && n < |ps|
    ensures Levels(ps[..n + 1]) == if ps[n].name == "levelist" then |ps[n].values| else Levels(ps[..n])
    ensures ps[n].name == "levelist" ==> Levels(ps[..n]) == 1
    ensures Params(ps[..n + 1]) == if ps[n].name == "param" then |ps[n].values| else Params(ps[..n])
    ensures ps[n].name == "param" ==> Params(ps[..n]) == 1
  {
    Scan(ps, n, "levelist");
    Scan(ps, n, "param");
    assert !Has(ps[..n], ps[n].name);
  }

  /** The size of a box, with the levels and params taken apart. */
  lemma {:induction false} ProductSplit(ps: seq<Parameter>)
    requires DistinctNames(ps) && AllCounted(ps)
    ensures Product(ps) == OthersProduct(ps) * (Levels(ps) * Params(ps))
  {
    if ps != [] {
      var n := |ps| - 1;
      var before, last := ps[..n], ps[n];
      assert ps == before + [last] && ps[..n + 1] == ps;
      ProductSplit(before);
      ProductSnoc(before, last);
      LevelsParamsStep(ps, n);
      assert Counted(last);
      SplitStep(last.name == "levelist", last.name == "param", OthersProduct(before), Levels(before), Params(before),
                |last.values|,
                OthersProduct(ps), Levels(ps), Params(ps));
    }
  }

  /** One more factor goes to the levels, to the params, or to the others. */
  lemma SplitStep(level: bool, param: bool, o: int, l: int, m: int, v: int, o2: int, l2: int, m2: int)
    requires !(level && param)
    requires o2 == if level || param then o else o * v
    requires l2 == (if level then v else l) && (level ==> l == 1)
    requires m2 == (if param then v else m) && (param ==> m == 1)
    ensures (o * (l * m)) * v == o2 * (l2 * m2)
  {
    if level {
      LevelStep(o, m, v);
    } else if param {
      Associate(o, l, v);
    } else {
      Swap(o, l * m, v);
    }
  }

  // ---- counting -------------------------------------------------------------------------

  lemma NoWildSub(ps: seq<Parameter>, c: Cell)
    requires IsBox(ps) && c in Cells(ps)
    ensures forall name :: Has(ps, name) <==> name in c
    ensures forall name :: Has(ps, name) ==> c[name] in ValuesOf(ps, name)
  {
    CellsAreTheBox(ps, c);
    forall name
      ensures Has(ps, name) <==> name in c
    {
      if name in c {
        var i :| 0 <= i < |ps| && ps[i].name == name;
      }
    }
  }

  lemma CountInBounds(s: seq<string>, u: Universe)
    ensures AllSingleLevel(s, u) ==> CountIn(s, u.singleLevel) == |s|
    ensures NoneSingleLevel(s, u) ==> CountIn(s, u.singleLevel) == 0
  {
    if s != [] {
      var n := |s| - 1;
      assert s == s[..n] + [s[n]];
      assert forall x :: x in s[..n] ==> x in s;
      assert s[n] in s;
      CountInBounds(s[..n], u);
    }
  }

  lemma PlainFactor(ps: seq<Parameter>, u: Universe)
    requires IsBox(ps) && Plain(ps, u)
    ensures LevelFactor(ps, u.singleLevel) == Levels(ps) * Params(ps)
  {
    var params := ValuesOf(ps, "param");
    CountInBounds(params, u);
    if params == [] {
      assert !Has(ps, "param");
      assert Levels(ps) == 1;
    }
  }

  lemma PlainFields(ps: seq<Parameter>, u: Universe)
    requires IsBox(ps) && Plain(ps, u)
    ensures FieldCells(ps, u) == Cells(ps)
  {
    forall c | c in Cells(ps)
      ensures Physical(c, u.singleLevel)
    {
      NoWildSub(ps, c);
      assert "param" in c ==> c["param"] in ValuesOf(ps, "param");
      assert "levtype" in c ==> c["levtype"] in ValuesOf(ps, "levtype");
      assert ValuesOf(ps, "levelist") == ["1"] ==> "levelist" in c && c["levelist"] in ["1"];
    }
  }

  /** Then every cell is a field and `count` is a plain product. */
  lemma PlainCount(ps: seq<Parameter>, u: Universe)
    requires IsBox(ps) && AllCounted(ps) && !HasWild(ps) && Plain(ps, u)
    ensures CountOf(ps, u.singleLevel) == |FieldCells(ps, u)|
  {
    PlainFields(ps, u);
    PlainFactor(ps, u);
    CellsSize(ps);
    ProductSplit(ps);
  }

  // On model levels: the multi-level params at every level, and the single-level ones at level 1.

  function MultiBox(ps: seq<Parameter>, u: Universe): seq<Parameter> {
    SetValues(ps, "param", Select(ValuesOf(ps, "param"), u.singleLevel, false))
  }

  function SingleBox(ps: seq<Parameter>, u: Universe): seq<Parameter> {
    SetValues(SetValues(ps, "param", Select(ValuesOf(ps, "param"), u.singleLevel, true)),
              "levelist", if "1" in ValuesOf(ps, "levelist") then ["1"] else [])
  }

  ghost predicate OnModelLevels(ps: seq<Parameter>, u: Universe) {
    IsBox(ps) && !u.all && ValuesOf(ps, "levtype") == ["ml"] && ValuesOf(ps, "param") != []
  }

  lemma PhysicalOnModelLevels(ps: seq<Parameter>, u: Universe, c: Cell)
    requires OnModelLevels(ps, u) && c in Cells(ps)
    ensures "param" in c && c["param"] in ValuesOf(ps, "param")
    ensures "levelist" in c <==> Has(ps, "levelist")
    ensures "levelist" in c ==> c["levelist"] in ValuesOf(ps, "levelist")
    ensures u.Field(c) <==> c["param"] !in u.singleLevel || ("levelist" in c && c["levelist"] == "1")
  {
    NoWildSub(ps, c);
    assert "levtype" in c && c["levtype"] in ["ml"];
  }

  lemma MultiCell(ps: seq<Parameter>, u: Universe, c: Cell)
    requires OnModelLevels(ps, u)
    ensures c in Cells(MultiBox(ps, u)) <==> c in Cells(ps) && "param" in c && c["param"] !in u.singleLevel
  {
    RestrictCell(ps, "param", Select(ValuesOf(ps, "param"), u.singleLevel, false), c);
    if c in Cells(ps) {
      PhysicalOnModelLevels(ps, u, c);
    }
  }

  lemma SingleCell(ps: seq<Parameter>, u: Universe, c: Cell)
    requires OnModelLevels(ps, u) && Has(ps, "levelist")
    ensures c in Cells(SingleBox(ps, u)) <==>
            c in Cells(ps) && "param" in c && c["param"] in u.singleLevel && "levelist" in c && c["levelist"] == "1"
  {
    var ins := Select(ValuesOf(ps, "param"), u.singleLevel, true);
    var levelOne := if "1" in ValuesOf(ps, "levelist") then ["1"] else [];
    Restrict(ps, "param", ins);
    RestrictCell(SetValues(ps, "param", ins), "levelist", levelOne, c);
    if c in Cells(ps) {
      PhysicalOnModelLevels(ps, u, c);
    }
  }

  lemma ModelLevelFields(ps: seq<Parameter>, u: Universe)
    requires OnModelLevels(ps, u)
    ensures Has(ps, "levelist") ==>
              && FieldCells(ps, u) == Cells(MultiBox(ps, u)) + Cells(SingleBox(ps, u))
              && Cells(MultiBox(ps, u)) !! Cells(SingleBox(ps, u))
    ensures !Has(ps, "levelist") ==> FieldCells(ps, u) == Cells(MultiBox(ps, u))
  {
    forall c
      ensures c in FieldCells(ps, u) <==>
              c in Cells(MultiBox(ps, u)) || (Has(ps, "levelist") && c in Cells(SingleBox(ps, u)))
      ensures Has(ps, "levelist") ==> !(c in Cells(MultiBox(ps, u)) && c in Cells(SingleBox(ps, u)))
    {
      MultiCell(ps, u, c);
      if c in Cells(ps) {
        PhysicalOnModelLevels(ps, u, c);
      }
      if Has(ps, "levelist") {
        SingleCell(ps, u, c);
      }
    }
  }

  /** The keys and values that may have become empty. */
  ghost predicate Sized(ps: seq<Parameter>) {
    DistinctNames(ps) && DistinctValues(ps) && AllCounted(ps)
  }

  lemma RestrictSized(ps: seq<Parameter>, name: string, v: seq<string>)
    requires Sized(ps) && Has(ps, name) && Distinct(v) && (name == "levelist" || name == "param")
    requires forall x :: x in v ==> x in ValuesOf(ps, name)
    ensures Sized(SetValues(ps, name, v))
    ensures OthersProduct(SetValues(ps, name, v)) == OthersProduct(ps)
    ensures forall other :: ValuesOf(SetValues(ps, name, v), other) == if other == name then v else ValuesOf(ps, other)
    ensures forall other :: Has(SetValues(ps, name, v), other) == Has(ps, other)
  {
    Restrict(ps, name, v);
    OthersRestrict(ps, Find(ps, name), v);
  }

  lemma SizeOf(ps: seq<Parameter>)
    requires Sized(ps)
    ensures |Cells(ps)| == OthersProduct(ps) * (Levels(ps) * Params(ps))
  {
    CellsSize(ps);
    ProductSplit(ps);
  }

  lemma MultiSize(ps: seq<Parameter>, u: Universe)
    requires OnModelLevels(ps, u) && AllCounted(ps)
    ensures var params := ValuesOf(ps, "param");
            |Cells(MultiBox(ps, u))| == OthersProduct(ps) * (Levels(ps) * |Select(params, u.singleLevel, false)|)
  {
    var out := Select(ValuesOf(ps, "param"), u.singleLevel, false);
    SelectDistinct(ValuesOf(ps, "param"), u.singleLevel, false);
    RestrictSized(ps, "param", out);
    SizeOf(MultiBox(ps, u));
    assert Has(MultiBox(ps, u), "param") && ValuesOf(MultiBox(ps, u), "param") == out;
    assert Has(MultiBox(ps, u), "levelist") == Has(ps, "levelist");
    assert ValuesOf(MultiBox(ps, u), "levelist") == ValuesOf(ps, "levelist");
  }

  lemma SingleBoxParts(ps: seq<Parameter>, u: Universe)
    requires OnModelLevels(ps, u) && AllCounted(ps) && Has(ps, "levelist")
    ensures Sized(SingleBox(ps, u)) && OthersProduct(SingleBox(ps, u)) == OthersProduct(ps)
    ensures Levels(SingleBox(ps, u)) == if "1" in ValuesOf(ps, "levelist") then 1 else 0
    ensures Params(SingleBox(ps, u)) == |Select(ValuesOf(ps, "param"), u.singleLevel, true)|
  {
    var ins := Select(ValuesOf(ps, "param"), u.singleLevel, true);
    var levelOne := if "1" in ValuesOf(ps, "levelist") then ["1"] else [];
    SelectDistinct(ValuesOf(ps, "param"), u.singleLevel, true);
    RestrictSized(ps, "param", ins);
    var mid := SetValues(ps, "param", ins);
    assert Has(mid, "levelist") && ValuesOf(mid, "levelist") == ValuesOf(ps, "levelist");
    RestrictSized(mid, "levelist", levelOne);
    assert Has(SingleBox(ps, u), "param") && ValuesOf(mid, "param") == ins == ValuesOf(SingleBox(ps, u), "param");
    assert Has(SingleBox(ps, u), "levelist") && ValuesOf(SingleBox(ps, u), "levelist") == levelOne;
  }

  lemma SingleSize(ps: seq<Parameter>, u: Universe)
    requires OnModelLevels(ps, u) && AllCounted(ps) && Has(ps, "levelist")
    ensures |Cells(SingleBox(ps, u))| ==
            OthersProduct(ps)
            * (if "1" in ValuesOf(ps, "levelist") then |Select(ValuesOf(ps, "param"), u.singleLevel, true)| else 0)
  {
    SingleBoxParts(ps, u);
    SizeOf(SingleBox(ps, u));
  }

  lemma ProductOfSum(a: int, b: int, c: int, total: int, sum: int)
    requires total == a * b + a * c && sum == b + c
    ensures total == a * sum
  {
    assert a * b + a * c == a * (b + c);
  }

  /** The pairs counted by `count` on model levels. */
  lemma ModelLevelFactor(ps: seq<Parameter>, u: Universe)
    requires OnModelLevels(ps, u)
    ensures LevelFactor(ps, u.singleLevel) ==
            Levels(ps) * |Select(ValuesOf(ps, "param"), u.singleLevel, false)| +
            (if "1" in ValuesOf(ps, "levelist") then |Select(ValuesOf(ps, "param"), u.singleLevel, true)| else 0)
  {
  }

  lemma ModelLevelParts(ps: seq<Parameter>, u: Universe)
    requires OnModelLevels(ps, u)
    ensures |FieldCells(ps, u)|
            == |Cells(MultiBox(ps, u))| + (if Has(ps, "levelist") then |Cells(SingleBox(ps, u))| else 0)
  {
    ModelLevelFields(ps, u);
  }

  lemma SingleShare(ps: seq<Parameter>, u: Universe, one: nat)
    requires OnModelLevels(ps, u) && AllCounted(ps)
    requires one == if "1" in ValuesOf(ps, "levelist") then |Select(ValuesOf(ps, "param"), u.singleLevel, true)| else 0
    ensures (if Has(ps, "levelist") then |Cells(SingleBox(ps, u))| else 0) == OthersProduct(ps) * one
  {
    if Has(ps, "levelist") {
      SingleSize(ps, u);
    } else {
      assert ValuesOf(ps, "levelist") == [];
    }
  }

  lemma ModelLevelSize(ps: seq<Parameter>, u: Universe)
    requires OnModelLevels(ps, u) && AllCounted(ps)
    ensures |FieldCells(ps, u)| == OthersProduct(ps) * LevelFactor(ps, u.singleLevel)
  {
    var multi := Levels(ps) * |Select(ValuesOf(ps, "param"), u.singleLevel, false)|;
    var one := if "1" in ValuesOf(ps, "levelist") then |Select(ValuesOf(ps, "param"), u.singleLevel, true)| else 0;
    ModelLevelParts(ps, u);
    MultiSize(ps, u);
    SingleShare(ps, u, one);
    ModelLevelFactor(ps, u);
    ProductOfSum(OthersProduct(ps), multi, one, |FieldCells(ps, u)|, LevelFactor(ps, u.singleLevel));
  }

  lemma ModelLevelCount(ps: seq<Parameter>, u: Universe)
    requires OnModelLevels(ps, u) && AllCounted(ps) && !HasWild(ps)
    ensures CountOf(ps, u.singleLevel) == |FieldCells(ps, u)|
  {
    ModelLevelSize(ps, u);
  }

  /** On a regular box that has no "all" or "any", and whose keys are counted value by value, `count` is the
      number of fields. */
  lemma RegularCount(ps: seq<Parameter>, u: Universe)
    requires IsBox(ps) && AllCounted(ps) && Regular(ps, u) && !HasWild(ps)
    ensures CountOf(ps, u.singleLevel) == |FieldCells(ps, u)|
  {
    if Plain(ps, u) {
      PlainCount(ps, u);
    } else {
      ModelLevelCount(ps, u);
    }
  }

  /** On a reliable box whose keys are counted value by value, `count` is 0 or the number of fields. */
  lemma ReliableCount(ps: seq<Parameter>, u: Universe)
    requires IsBox(ps) && AllCounted(ps) && Reliable(ps, u)
    ensures CountOf(ps, u.singleLevel) == 0 || CountOf(ps, u.singleLevel) == |FieldCells(ps, u)|
  {
    if !HasWild(ps) {
      if Plain(ps, u) || OnModelLevels(ps, u) {
        RegularCount(ps, u);
      } else {
        CountInBounds(ValuesOf(ps, "param"), u);
        assert LevelFactor(ps, u.singleLevel) == 0;
      }
    }
  }

  // ---- keys that are counted once -------------------------------------------------------

  /** The same box with every key counted value by value. */
  function CountedBox(ps: seq<Parameter>): (qs: seq<Parameter>)
    ensures |qs| == |ps|
  {
    seq(|ps|, i requires 0 <= i < |ps| => ps[i].(flatten := true))
  }

  lemma CountedBoxIsSame(ps: seq<Parameter>, u: Universe)
    requires IsBox(ps)
    ensures var qs := CountedBox(ps);
            && IsBox(qs) && AllCounted(qs)
            && FieldCells(qs, u) == FieldCells(ps, u)
            && (Faithful(ps, u) ==> Faithful(qs, u))
            && (HasWild(qs) <==> HasWild(ps))
  {
    var qs := CountedBox(ps);
    CountedCells(ps);
    CountedValues(ps, "param");
    CountedValues(ps, "levelist");
    CountedValues(ps, "levtype");
    assert forall i :: 0 <= i < |ps| ==> Wild(qs[i]) == Wild(ps[i]);
  }

  lemma CountedLevels(ps: seq<Parameter>, singleLevel: set<string>)
    ensures LevelFactor(CountedBox(ps), singleLevel) == LevelFactor(ps, singleLevel)
  {
    CountedValues(ps, "param");
    CountedValues(ps, "levelist");
    CountedValues(ps, "levtype");
  }

  lemma CountedValues(ps: seq<Parameter>, name: string)
    ensures ValuesOf(CountedBox(ps), name) == ValuesOf(ps, name) && Has(CountedBox(ps), name) == Has(ps, name)
  {
    FindSameNames(CountedBox(ps), ps, name);
  }

  lemma {:induction false} CountedCells(ps: seq<Parameter>)
    ensures Cells(CountedBox(ps)) == Cells(ps)
  {
    if ps != [] {
      assert CountedBox(ps)[1..] == CountedBox(ps[1..]);
      CountedCells(ps[1..]);
    }
  }

  lemma Doubles(a: int, b: int, c: int, d: int)
    requires 0 <= a <= b && 0 <= c <= d
    ensures a * c <= b * d
    ensures 2 * a <= b || 2 * c <= d ==> 2 * (a * c) <= b * d
  {
    Grows(a, b, c, d);
    if 2 * a <= b {
      Grows(2 * a, b, c, d);
    } else if 2 * c <= d {
      Grows(a, b, 2 * c, d);
    }
  }

  lemma Grows(a: int, b: int, c: int, d: int)
    requires 0 <= a <= b && 0 <= c <= d
    ensures a * c <= b * d
  {
    assert a * c <= b * c;
    assert b * c <= b * d;
  }

  /** A key with several values that is counted once makes the product half as large, or smaller. */
  lemma {:induction false} OthersCounted(ps: seq<Parameter>)
    requires forall i :: 0 <= i < |ps| ==> ps[i].values != []
    ensures OthersProduct(ps) <= OthersProduct(CountedBox(ps))
    ensures !AllCounted(ps) ==> 2 * OthersProduct(ps) <= OthersProduct(CountedBox(ps))
  {
    if ps != [] {
      var n := |ps| - 1;
      var before, last := ps[..n], ps[n];
      assert CountedBox(ps)[..n] == CountedBox(before);
      OthersCounted(before);
      Doubles(OthersProduct(before), OthersProduct(CountedBox(before)), CountParam(last), |last.values|);
      if !AllCounted(ps) && AllCounted(before) {
        LastNotCounted(ps, n);
      }
    }
  }

  lemma LastNotCounted(ps: seq<Parameter>, n: nat)
    requires |ps| == n + 1 && !AllCounted(ps) && AllCounted(ps[..n])
    ensures !Counted(ps[n])
  {
    assert forall i :: 0 <= i < n ==> ps[..n][i] == ps[i];
  }

  /** Then a positive `count` is at most half the number of fields. */
  lemma Undercounted(ps: seq<Parameter>, u: Universe)
    requires IsBox(ps) && Reliable(ps, u) && !AllCounted(ps) && CountOf(ps, u.singleLevel) > 0
    ensures 2 * CountOf(ps, u.singleLevel) <= |FieldCells(ps, u)|
  {
    var qs := CountedBox(ps);
    CountedBoxIsSame(ps, u);
    CountedLevels(ps, u.singleLevel);
    OthersCounted(ps);
    Doubles(OthersProduct(ps), OthersProduct(qs), LevelFactor(ps, u.singleLevel), LevelFactor(ps, u.singleLevel));
    ReliableCount(qs, u);
  }
}
