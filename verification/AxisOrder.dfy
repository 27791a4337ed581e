/** The order in which the defaults are given, and the rule about axes that is asserted when the
    language is loaded. */
module AxisOrder {
  import opened Requests
  import opened Families
  import opened Results
  import opened Inheritance
  import opened DefaultsMeaning

  // ---- the asserted rule ----------------------------------------------------------------

  /** Axes count from 1; 0 is for what is not an axis. */
  function AxisIndex(axes: seq<string>, key: string): nat {
    if key in axes then Position(axes, key) + 1 else 0
  }

  function Position(axes: seq<string>, key: string): (i: nat)
    requires key in axes
    ensures i < |axes| && axes[i] == key
  {
    if axes[0] == key then 0 else 1 + Position(axes[1..], key)
  }

  /** Keys that stand for the verb or for what no type gives values to. */
  predicate Hidden(key: string) {
    key == "" || key[0] == '_'
  }

  function RuleIndex(axes: seq<string>, rule: Rule): nat {
    if Hidden(rule.key) then 0 else AxisIndex(axes, rule.key)
  }

  /** `maxAxisIndex` */
  method MaxAxisIndex(axes: seq<string>, c: Context) returns (m: nat)
    ensures forall i :: 0 <= i < |c| ==> RuleIndex(axes, c[i]) <= m
    ensures m == 0 || exists i :: 0 <= i < |c| && RuleIndex(axes, c[i]) == m
  {
    m := 0;
    for n := 0 to |c|
      invariant forall i :: 0 <= i < n ==> RuleIndex(axes, c[i]) <= m
      invariant m == 0 || exists i :: 0 <= i < n && RuleIndex(axes, c[i]) == m
    {
      if !Hidden(c[n].key) {
        var idx := AxisIndex(axes, c[n].key);
        if idx > m {
          m := idx;
        }
      }
    }
  }

  /** What is asserted of a context that is attached to a key with data. */
  predicate Asserted(axes: seq<string>, c: Context, key: string) {
    forall i :: 0 <= i < |c| ==> RuleIndex(axes, c[i]) <= AxisIndex(axes, key)
  }

  /** Every axis that the context names, other than hidden keys, is the key itself or an axis before it. */
  ghost predicate NamesEarlierAxes(axes: seq<string>, c: Context, key: string) {
    forall i, p :: 0 <= i < |c| && 0 <= p < |axes| && axes[p] == c[i].key && !(c[i].key == "" || c[i].key[0] == '_') ==>
      exists q :: p <= q < |axes| && axes[q] == key
  }

  lemma {:induction false} PositionIs(axes: seq<string>, p: nat)
    requires Distinct(axes) && p < |axes|
    ensures axes[p] in axes && Position(axes, axes[p]) == p
  {
    if p > 0 {
      assert axes[0] != axes[p] && axes[1..][p - 1] == axes[p];
      PositionIs(axes[1..], p - 1);
    }
  }

  lemma AssertedMeaning(axes: seq<string>, c: Context, key: string)
    requires Distinct(axes)
    ensures Asserted(axes, c, key) <==> NamesEarlierAxes(axes, c, key)
  {
    forall p | 0 <= p < |axes|
      ensures AxisIndex(axes, axes[p]) == p + 1
    {
      PositionIs(axes, p);
    }
    if NamesEarlierAxes(axes, c, key) {
      forall i | 0 <= i < |c|
        ensures RuleIndex(axes, c[i]) <= AxisIndex(axes, key)
      {
        if RuleIndex(axes, c[i]) > 0 {
          var p := Position(axes, c[i].key);
          var q :| p <= q < |axes| && axes[q] == key;
        }
      }
    }
    if Asserted(axes, c, key) {
      forall i, p | 0 <= i < |c| && 0 <= p < |axes| && axes[p] == c[i].key && !(c[i].key == "" || c[i].key[0] == '_')
        ensures exists q :: p <= q < |axes| && axes[q] == key
      {
        assert RuleIndex(axes, c[i]) == p + 1;
        assert axes[Position(axes, key)] == key;
      }
    }
  }

  /** `parseModifier`: whether the context is accepted for the key. */
  method AcceptModifier(axes: seq<string>, data: set<string>, c: Context, key: string) returns (ok: bool)
    ensures ok <==> (key in data ==> Asserted(axes, c, key))
    ensures Distinct(axes) ==> (ok <==> (key in data ==> NamesEarlierAxes(axes, c, key)))
  {
    if Distinct(axes) {
      AssertedMeaning(axes, c, key);
    }
    var m := MaxAxisIndex(axes, c);
    ok := key !in data || m <= AxisIndex(axes, key);
  }

  // ---- the order of the pass ------------------------------------------------------------

  function Lookup(types: map<string, KeyType>, key: string): Entry {
    Entry(key, if key in types then Some(types[key]) else None)
  }

  /** First the axes, then the keys that carry no data. */
  function Visited(axes: seq<string>, types: map<string, KeyType>, others: seq<string>): (es: seq<Entry>)
    ensures |es| == |axes| + |others|
  {
    seq(|axes|, i requires 0 <= i < |axes| => Lookup(types, axes[i]))
    + seq(|others|, i requires 0 <= i < |others| => Lookup(types, others[i]))
  }

  /** The positions of the keywords without data. */
  function WithoutData(keywords: seq<string>, data: set<string>): set<nat> {
    set k: nat | k < |keywords| && keywords[k] !in data
  }

  /** These are the keywords at these positions. */
  ghost predicate Remains(at: seq<nat>, keywords: seq<string>, es: seq<Entry>) {
    |at| == |es| && forall i :: 0 <= i < |at| ==> at[i] < |keywords| && es[i].key == keywords[at[i]]
  }

  lemma NotInNext(keywords: seq<string>, data: set<string>, n: nat)
    requires n < |keywords|
    ensures var before := NotIn(keywords[..n], data);
            NotIn(keywords[..n + 1], data)
            == if n in WithoutData(keywords, data) then before + [keywords[n]] else before
  {
    assert keywords[..n + 1][..n] == keywords[..n];
  }

  lemma {:induction false} NotInMeaning(keywords: seq<string>, data: set<string>, n: nat) returns (at: seq<nat>)
    requires n <= |keywords|
    ensures TakenAt(at, NotIn(keywords[..n], data), keywords, WithoutData(keywords, data), n)
  {
    at := [];
    if n > 0 {
      var before := NotInMeaning(keywords, data, n - 1);
      NotInNext(keywords, data, n - 1);
      TakenAtNext(before, NotIn(keywords[..n - 1], data), keywords, WithoutData(keywords, data), n - 1);
      at := if n - 1 in WithoutData(keywords, data) then before + [n - 1] else before;
    }
  }

  lemma OthersRemain(axes: seq<string>, types: map<string, KeyType>, others: seq<string>, keywords: seq<string>,
                     at: seq<nat>)
    requires ElementsAt(others, keywords, at)
    ensures Remains(at, keywords, Visited(axes, types, others)[|axes|..])
  {
    var es := Visited(axes, types, others)[|axes|..];
    forall i | 0 <= i < |at|
      ensures es[i].key == keywords[at[i]]
    {
      assert es[i] == Lookup(types, others[i]);
    }
  }

  lemma VisitedTypes(axes: seq<string>, types: map<string, KeyType>, others: seq<string>)
    ensures forall e :: e in Visited(axes, types, others) ==>
              e.ty == if e.key in types then Some(types[e.key]) else None
  {
  }

  /** The keywords without data come after the axes, in their order. */
  ghost predicate OthersFollow(es: seq<Entry>, n: nat, keywords: seq<string>, data: set<string>)
    requires n <= |es|
  {
    exists at :: Positions(at, |keywords|, WithoutData(keywords, data)) && Remains(at, keywords, es[n..])
  }

  lemma VisitedMeaning(axes: seq<string>, types: map<string, KeyType>, keywords: seq<string>, data: set<string>)
    ensures var es := Visited(axes, types, NotIn(keywords, data));
            && (forall i :: 0 <= i < |axes| ==> es[i].key == axes[i])
            && OthersFollow(es, |axes|, keywords, data)
            && forall e :: e in es ==> e.ty == if e.key in types then Some(types[e.key]) else None
  {
    var at := NotInMeaning(keywords, data, |keywords|);
    assert keywords[..|keywords|] == keywords;
    OthersRemain(axes, types, NotIn(keywords, data), keywords, at);
    VisitedTypes(axes, types, NotIn(keywords, data));
  }

  /** `typesByAxisOrder` */
  method TypesByAxisOrder(axes: seq<string>, types: map<string, KeyType>, keywords: seq<string>, data: set<string>)
    returns (es: seq<Entry>)
    ensures es == Visited(axes, types, NotIn(keywords, data))
    ensures |axes| <= |es| && forall i :: 0 <= i < |axes| ==> es[i].key == axes[i]
    ensures OthersFollow(es, |axes|, keywords, data)
    ensures forall e :: e in es ==> e.ty == if e.key in types then Some(types[e.key]) else None
  {
    es := [];
    for i := 0 to |axes|
      invariant |es| == i && forall k :: 0 <= k < i ==> es[k] == Lookup(types, axes[k])
    {
      es := es + [Entry(axes[i], if axes[i] in types then Some(types[axes[i]]) else None)];
    }
    assert es == Visited(axes, types, []);
    for i := 0 to |keywords|
      invariant es == Visited(axes, types, NotIn(keywords[..i], data))
    {
      assert keywords[..i + 1][..i] == keywords[..i];
      if keywords[i] !in data {
        es := es + [Lookup(types, keywords[i])];
      }
    }
    assert keywords[..|keywords|] == keywords;
    VisitedMeaning(axes, types, keywords, data);
  }

  function NotIn(keywords: seq<string>, data: set<string>): seq<string> {
    if keywords == [] then []
    else
      var n := |keywords| - 1;
      NotIn(keywords[..n], data) + (if keywords[n] in data then [] else [keywords[n]])
  }

  ghost predicate ValidLanguage(axes: seq<string>, types: map<string, KeyType>) {
    && Distinct(axes)
    && forall key :: key in types ==> types[key].name == key && !Hidden(key)
  }

  /** An axis reads no axis after it, and nothing but axes; the other keys read axes, or themselves. */
  ghost predicate Admitted(axes: seq<string>, t: KeyType) {
    forall key :: Reads(t, key) && !Hidden(key) ==>
      if t.name in axes then key in axes && AxisIndex(axes, key) <= AxisIndex(axes, t.name)
      else key in axes || key == t.name
  }

  ghost predicate AllAdmitted(axes: seq<string>, types: map<string, KeyType>) {
    forall key :: key in types ==> Admitted(axes, types[key])
  }

  // ---- what the assertion contributes ---------------------------------------------------

  ghost predicate OnlyAxes(axes: seq<string>, c: Context) {
    forall i :: 0 <= i < |c| && !Hidden(c[i].key) ==> c[i].key in axes
  }

  ghost predicate GoodContext(axes: seq<string>, c: Context, key: string) {
    Asserted(axes, c, key) && OnlyAxes(axes, c)
  }

  ghost predicate GoodCopy(axes: seq<string>, values: seq<string>, key: string) {
    CopyOf(values).Some? && !Hidden(CopyOf(values).value) ==>
      CopyOf(values).value in axes && AxisIndex(axes, CopyOf(values).value) <= AxisIndex(axes, key)
  }

  /** For an axis, the assertion is half of what is needed: contexts must name nothing but axes, and the
      keys that are copied must obey the same order. */
  lemma AssertedIsAdmitted(axes: seq<string>, t: KeyType)
    requires t.name in axes
    requires forall i :: 0 <= i < |t.unsets| ==> GoodContext(axes, t.unsets[i], t.name)
    requires forall i :: 0 <= i < |t.defaults| ==>
               GoodContext(axes, t.defaults[i].context, t.name) && GoodCopy(axes, t.defaults[i].values, t.name)
    ensures Admitted(axes, t)
  {
    forall key | Reads(t, key) && !Hidden(key)
      ensures key in axes && AxisIndex(axes, key) <= AxisIndex(axes, t.name)
    {
      if ContextsMention(t.unsets, key) {
        var i :| 0 <= i < |t.unsets| && Mentions(t.unsets[i], key);
        MentionIsAxis(axes, t.unsets[i], t.name, key);
      } else {
        var i :| 0 <= i < |t.defaults|
          && (Mentions(t.defaults[i].context, key) || CopyOf(t.defaults[i].values) == Some(key));
        if Mentions(t.defaults[i].context, key) {
          MentionIsAxis(axes, t.defaults[i].context, t.name, key);
        }
      }
    }
  }

  lemma MentionIsAxis(axes: seq<string>, c: Context, name: string, key: string)
    requires GoodContext(axes, c, name) && Mentions(c, key) && !Hidden(key)
    ensures key in axes && AxisIndex(axes, key) <= AxisIndex(axes, name)
  {
    var i :| 0 <= i < |c| && c[i].key == key;
    assert RuleIndex(axes, c[i]) <= AxisIndex(axes, name);
  }

  // ---- one pass is enough ---------------------------------------------------------------

  lemma {:induction false} PositionAt(axes: seq<string>, i: nat)
    requires Distinct(axes) && i < |axes|
    ensures Position(axes, axes[i]) == i
  {
    if i > 0 {
      assert axes[i] == axes[1..][i - 1];
      PositionAt(axes[1..], i - 1);
    }
  }

  lemma VisitedAt(axes: seq<string>, types: map<string, KeyType>, others: seq<string>, i: nat)
    requires i < |axes| + |others|
    ensures Visited(axes, types, others)[i] == Lookup(types, (axes + others)[i])
  {
  }

  lemma VisitedOrdered(axes: seq<string>, types: map<string, KeyType>, others: seq<string>)
    requires ValidLanguage(axes, types) && AllAdmitted(axes, types)
    ensures Ordered(Visited(axes, types, others)) && Consistent(Visited(axes, types, others))
  {
    var es := Visited(axes, types, others);
    forall i, j | 0 <= i < j < |es| && es[i].ty.Some? && es[j].ty.Some? && Reads(es[i].ty.value, es[j].key)
      ensures es[j] in es[..i + 1]
    {
      VisitedBefore(axes, types, others, i, j);
    }
    assert forall i :: 0 <= i < |es| ==> es[i] == Lookup(types, es[i].key);
  }

  lemma VisitedBefore(axes: seq<string>, types: map<string, KeyType>, others: seq<string>, i: nat, j: nat)
    requires ValidLanguage(axes, types) && AllAdmitted(axes, types)
    requires i < j < |axes| + |others|
    requires Visited(axes, types, others)[i].ty.Some? && Visited(axes, types, others)[j].ty.Some?
    requires Reads(Visited(axes, types, others)[i].ty.value, Visited(axes, types, others)[j].key)
    ensures Visited(axes, types, others)[j] in Visited(axes, types, others)[..i + 1]
  {
    var es, names := Visited(axes, types, others), axes + others;
    VisitedAt(axes, types, others, i);
    VisitedAt(axes, types, others, j);
    assert Admitted(axes, types[names[i]]);
    if names[j] in axes {
      var k := Position(axes, names[j]);
      VisitedAt(axes, types, others, k);
      if i < |axes| {
        PositionAt(axes, i);
      }
      assert es[..i + 1][k] == es[j];
    } else {
      assert names[j] == names[i];
      assert es[..i + 1][i] == es[j];
    }
  }

  /** When every type is admitted, one pass is enough: if no list of values is empty, or if no default of
      a key depends on the key itself. */
  lemma OnePassIsEnough(axes: seq<string>, types: map<string, KeyType>, others: seq<string>, r: Request)
    requires ValidLanguage(axes, types) && AllAdmitted(axes, types)
    requires var es := Visited(axes, types, others); Filled(es, r) || SelfFree(es)
    ensures var es := Visited(axes, types, others); Pass(es, Pass(es, r)) == Pass(es, r)
  {
    var es := Visited(axes, types, others);
    VisitedOrdered(axes, types, others);
    if Filled(es, r) {
      FilledIsSettled(es, r);
    } else {
      SelfFreeIsSettled(es, r);
    }
    SettledPassIsFixed(es, r);
  }

  // ---- what the assertion does not rule out ---------------------------------------------

  function TypeWith(name: string, defaults: seq<Default>): KeyType {
    KeyType(name, true, None, [], defaults)
  }

  function TwoEntries(a: KeyType, b: KeyType): seq<Entry> {
    [Entry(a.name, Some(a)), Entry(b.name, Some(b))]
  }

  lemma TwoSteps(a: KeyType, b: KeyType, r: Request)
    ensures Pass(TwoEntries(a, b), r) == Step(Entry(b.name, Some(b)), Step(Entry(a.name, Some(a)), r))
  {
    var es := TwoEntries(a, b);
    assert es[..1] == [es[0]] && es[..1][..0] == [];
    assert Pass(es[..1], r) == Step(es[0], r);
  }

  lemma OneRule(rule: Rule, r: Request)
    ensures Matches([rule], r) == RuleMatches(rule, r)
  {
    assert [rule][0] == rule;
  }

  lemma OneParameter(p: Parameter, key: string)
    ensures Has([p], key) == (p.name == key)
    ensures ValuesOf([p], key) == if p.name == key then p.values else []
  {
    assert [p][1..] == [];
  }

  /** A missing key is put at the end. */
  lemma StepAppends(t: KeyType, r: Request, values: seq<string>)
    requires !Has(r.params, t.name) && Choice(t, r) == Some(values)
    ensures Step(Entry(t.name, Some(t)), r).params == r.params + [Parameter(t.name, t.flatten, values)]
    ensures Step(Entry(t.name, Some(t)), r).verb == r.verb
  {
  }

  /** Two passes: the first type is given values only by the second pass. */
  lemma SecondPassDiffers(a: KeyType, b: KeyType, r: Request, va: seq<string>, vb: seq<string>)
    requires a.name != b.name && r.params == [] && va != []
    requires Choice(a, r) == None && Choice(b, r) == Some(vb)
    requires Choice(a, Put(b, r, vb)) == Some(va)
    ensures Pass(TwoEntries(a, b), Pass(TwoEntries(a, b), r)) != Pass(TwoEntries(a, b), r)
  {
    var ea, eb, once := Entry(a.name, Some(a)), Entry(b.name, Some(b)), Put(b, r, vb);
    TwoSteps(a, b, r);
    StepAppends(b, r, vb);
    TwoSteps(a, b, once);
    OneParameter(Parameter(b.name, b.flatten, vb), a.name);
    StepAppends(a, once, va);
    StepOther(eb, Step(ea, once), a.name);
    FindSnoc(once.params, Parameter(a.name, a.flatten, va), a.name);
  }

  /** A default that copies a later axis is accepted, since the assertion looks at contexts only: the
      first pass finds nothing to copy, the second one does. */
  lemma CopiesAreNotAsserted(a: KeyType, b: KeyType, r: Request)
    requires a == TypeWith("a", [Default([], ["_b"])]) && b == TypeWith("b", [Default([], ["x"])])
    requires r.params == []
    ensures Asserted(["a", "b"], a.defaults[0].context, "a") && Asserted(["a", "b"], b.defaults[0].context, "b")
    ensures var es := TwoEntries(a, b); Filled(es, r) && Pass(es, Pass(es, r)) != Pass(es, r)
  {
    assert CopyOf(["_b"]) == Some("b") by { assert "_b"[1..] == "b"; }
    assert Patch(["x"], r) == Some(["x"]);
    OneParameter(Parameter("b", true, ["x"]), "b");
    assert Put(b, r, ["x"]).params == [Parameter("b", true, ["x"])];
    SecondPassDiffers(a, b, r, ["x"], ["x"]);
  }

  /** A context may name a key that is no axis, since its index counts as 0: the key is given its value
      after the axis was left without one. */
  lemma OtherKeysAreNotAsserted(a: KeyType, o: KeyType, r: Request)
    requires a == TypeWith("a", [Default([Def("o")], ["x"])]) && o == TypeWith("o", [Default([], ["y"])])
    requires r.params == []
    ensures Asserted(["a"], a.defaults[0].context, "a")
    ensures var es := TwoEntries(a, o); Filled(es, r) && Pass(es, Pass(es, r)) != Pass(es, r)
  {
    var once := Put(o, r, ["y"]);
    assert once.params == [Parameter("o", true, ["y"])];
    OneParameter(Parameter("o", true, ["y"]), "o");
    OneRule(Def("o"), r);
    OneRule(Def("o"), once);
    assert a.defaults[1..] == [] && FirstDefault([], r) == None;
    assert FirstDefault(a.defaults, r) == None;
    SecondPassDiffers(a, o, r, ["x"], ["y"]);
  }

  /** An empty default that is chosen because its key is undefined: the key is now defined. */
  lemma EmptyDefaultsAreNotEnough(a: KeyType, r: Request)
    requires a == TypeWith("a", [Default([Undef("a")], []), Default([Def("a")], ["x"])])
    requires r.params == []
    ensures Admitted(["a"], a)
    ensures var es := [Entry("a", Some(a))]; Pass(es, Pass(es, r)) != Pass(es, r)
  {
    ReadsItself(a);
    EmptyThenDefined(a, r);
  }

  lemma ReadsItself(a: KeyType)
    requires a == TypeWith("a", [Default([Undef("a")], []), Default([Def("a")], ["x"])])
    ensures Admitted(["a"], a)
  {
  }

  lemma EmptyThenDefined(a: KeyType, r: Request)
    requires a == TypeWith("a", [Default([Undef("a")], []), Default([Def("a")], ["x"])])
    requires r.params == []
    ensures var es := [Entry("a", Some(a))]; Pass(es, Pass(es, r)) != Pass(es, r)
  {
    var es := [Entry("a", Some(a))];
    var once := Put(a, r, []);
    assert es[..0] == [];
    OneParameter(Parameter("a", true, []), "a");
    OneRule(Undef("a"), r);
    OneRule(Undef("a"), once);
    OneRule(Def("a"), once);
    assert once.params == [Parameter("a", true, [])];
    assert FirstDefault(a.defaults, once) == FirstDefault(a.defaults[1..], once) == Some(["x"]);
    SetTypedSame(once.params, Parameter("a", true, ["x"]));
  }

  // ---- the operation --------------------------------------------------------------------

  /** `setDefaults` */
  method GiveDefaults(t: KeyType, request: MarsRequest)
    modifies request`params
    ensures request.Value() == SetDefaults(t, old(request.Value()))
    ensures Given(t, old(request.Value()), request.Value())
  {
    var r := request.Value();
    SetDefaultsMeaning(t, r);
    match t.inheritance {
      case Some(values) =>
        request.SetValuesTyped(Parameter(t.name, t.flatten, values));
      case None =>
        var unset := FindMatch(t.unsets, r);
        if !unset {
          for i := 0 to |t.defaults|
            invariant request.Value() == r
            invariant FirstDefault(t.defaults, r) == FirstDefault(t.defaults[i..], r)
          {
            assert t.defaults[i..][0] == t.defaults[i] && t.defaults[i..][1..] == t.defaults[i + 1..];
            var matches := ContextMatches(t.defaults[i].context, r);
            if matches {
              PatchRequest(t, request, t.defaults[i].values);
              return;
            }
          }
        }
    }
  }

  method FindMatch(cs: seq<Context>, r: Request) returns (found: bool)
    ensures found <==> AnyMatches(cs, r)
  {
    for i := 0 to |cs|
      invariant forall k :: 0 <= k < i ==> !Matches(cs[k], r)
    {
      var matches := ContextMatches(cs[i], r);
      if matches {
        return true;
      }
    }
    found := false;
  }

  method ContextMatches(c: Context, r: Request) returns (matches: bool)
    ensures matches <==> Matches(c, r)
    ensures matches <==> Applies(c, r)
  {
    ContextMeaning(c, r);
    for i := 0 to |c|
      invariant forall k :: 0 <= k < i ==> RuleMatches(c[k], r)
    {
      var one := RuleHolds(c[i], r);
      if !one {
        return false;
      }
    }
    matches := true;
  }

  method RuleHolds(rule: Rule, r: Request) returns (matches: bool)
    ensures matches <==> RuleMatches(rule, r)
    ensures matches <==> Holding(rule, r)
  {
    RuleMeaning(rule, r);
    match rule {
      case Include(key, vals) =>
        if key == "_verb" {
          return r.verb in vals;
        }
        matches := SomeIn(ValuesOf(r.params, key), vals);
      case Exclude(key, vals) =>
        var some := SomeIn(ValuesOf(r.params, key), vals);
        matches := Has(r.params, key) && !some;
      case Undef(key) => matches := !Has(r.params, key);
      case Def(key) => matches := Has(r.params, key);
    }
  }

  /** The loop of both kinds of rules over the values of a key. */
  method SomeIn(values: seq<string>, vals: set<string>) returns (found: bool)
    ensures found <==> Meets(values, vals)
  {
    for i := 0 to |values|
      invariant forall k :: 0 <= k < i ==> values[k] !in vals
    {
      if values[i] in vals {
        return true;
      }
    }
    found := false;
  }

  method PatchRequest(t: KeyType, request: MarsRequest, values: seq<string>)
    modifies request`params
    ensures request.Value() == Apply(t, old(request.Value()), Patch(values, old(request.Value())))
  {
    if |values| == 1 && values[0] != "" && values[0][0] == '_' {
      var key := values[0][1..];
      var i := Find(request.params, key);
      if i < |request.params| {
        request.SetValuesTyped(Parameter(t.name, t.flatten, request.params[i].values));
      }
    } else {
      request.SetValuesTyped(Parameter(t.name, t.flatten, values));
    }
  }

  /** The loop of `expand` that gives the missing keys their values. */
  method InheritLoop(es: seq<Entry>, result: MarsRequest)
    modifies result`params
    ensures result.Value() == Pass(es, old(result.Value()))
    ensures exists run :: IsRun(es, run) && run[0] == old(result.Value()) && run[|es|] == result.Value()
  {
    ghost var run := PassIsRun(es, result.Value());
    for n := 0 to |es|
      invariant result.Value() == Pass(es[..n], old(result.Value()))
    {
      assert es[..n + 1][..n] == es[..n];
      if es[n].ty.Some? && |ValuesOf(result.params, es[n].key)| == 0 {
        GiveDefaults(es[n].ty.value, result);
      }
    }
    assert es[..|es|] == es;
  }
}
