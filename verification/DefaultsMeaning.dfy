/** What the defaults of a type give to a request, by the values in the request. */
module DefaultsMeaning {
  import opened Requests
  import opened Results
  import opened Inheritance

  // ---- one type -------------------------------------------------------------------------

  /** A type with defaults only. */
  ghost predicate HasDefaults(t: KeyType, ds: seq<Default>) {
    t.inheritance.None? && t.unsets == [] && t.defaults == ds
  }

  /** The values are given as they stand: they are not the name of a key to copy. */
  predicate Literal(values: seq<string>) {
    values != [] && (|values| > 1 || values[0] == "" || values[0][0] != '_')
  }

  /** The request has got these values for the key, with the type, and nothing else has changed. */
  ghost predicate Gets(q: Request, r: Request, t: KeyType, values: seq<string>) {
    && q.verb == r.verb
    && Has(q.params, t.name)
    && q.params[Find(q.params, t.name)] == Parameter(t.name, t.flatten, values)
    && OthersKept(r.params, q.params, t.name)
  }

  function After(t: KeyType, r: Request): Request {
    Step(Entry(t.name, Some(t)), r)
  }

  lemma PutGets(t: KeyType, r: Request, values: seq<string>)
    ensures Gets(Put(t, r, values), r, t, values)
  {
    SetTypedMeaning(r.params, Parameter(t.name, t.flatten, values));
  }

  /** A key that has values keeps them. */
  lemma ValuesWin(t: KeyType, r: Request)
    requires ValuesOf(r.params, t.name) != []
    ensures After(t, r) == r
  {
  }

  /** Inherited values come before everything else. */
  lemma InheritedIsGiven(t: KeyType, r: Request, values: seq<string>)
    requires ValuesOf(r.params, t.name) == [] && t.inheritance == Some(values)
    ensures Gets(After(t, r), r, t, values)
  {
    PutGets(t, r, values);
  }

  // ---- any contexts ---------------------------------------------------------------------

  /** What a rule asks of the request. */
  ghost predicate Holding(rule: Rule, r: Request) {
    match rule
    case Include(key, vals) =>
      if key == "_verb" then r.verb in vals else exists v :: v in ValuesOf(r.params, key) && v in vals
    case Exclude(key, vals) =>
      key in Names(r.params) && forall v :: v in ValuesOf(r.params, key) ==> v !in vals
    case Undef(key) => key !in Names(r.params)
    case Def(key) => key in Names(r.params)
  }

  ghost predicate Applies(c: Context, r: Request) {
    forall rule :: rule in c ==> Holding(rule, r)
  }

  lemma RuleMeaning(rule: Rule, r: Request)
    ensures RuleMatches(rule, r) <==> Holding(rule, r)
  {
    HasByName(r.params, rule.key);
    if rule.Include? || rule.Exclude? {
      MeetsSome(ValuesOf(r.params, rule.key), rule.vals);
    }
  }

  lemma ContextMeaning(c: Context, r: Request)
    ensures Matches(c, r) <==> Applies(c, r)
  {
    forall i | 0 <= i < |c|
      ensures RuleMatches(c[i], r) <==> Holding(c[i], r)
    {
      RuleMeaning(c[i], r);
    }
  }

  /** The first default that applies. */
  ghost predicate IsFirst(ds: seq<Default>, r: Request, i: nat) {
    && i < |ds| && Applies(ds[i].context, r)
    && forall k :: 0 <= k < i ==> !Applies(ds[k].context, r)
  }

  /** What `setDefaults` does: inherited values come first, an unset context leaves the request alone, and otherwise
      the first default that applies is given, or the values of the key that it names. */
  ghost predicate Given(t: KeyType, r: Request, q: Request) {
    if t.inheritance.Some? then Gets(q, r, t, t.inheritance.value)
    else if exists c :: c in t.unsets && Applies(c, r) then q == r
    else if exists i: nat :: IsFirst(t.defaults, r, i) then
      exists i: nat :: IsFirst(t.defaults, r, i) && GivenValues(t, r, t.defaults[i].values, q)
    else q == r
  }

  ghost predicate GivenValues(t: KeyType, r: Request, values: seq<string>, q: Request) {
    if exists key :: values == ["_" + key] then
      exists key :: values == ["_" + key]
                    && if key in Names(r.params) then Gets(q, r, t, ValuesOf(r.params, key)) else q == r
    else Gets(q, r, t, values)
  }

  lemma PatchMeaning(t: KeyType, r: Request, values: seq<string>)
    ensures GivenValues(t, r, values, Apply(t, r, Patch(values, r)))
  {
    if CopyOf(values).Some? {
      var key := CopyOf(values).value;
      assert values[0] == "_" + key;
      assert values == ["_" + key];
      HasByName(r.params, key);
      if Has(r.params, key) {
        PutGets(t, r, ValuesOf(r.params, key));
      }
    } else {
      PutGets(t, r, values);
      forall key: string
        ensures values != ["_" + key]
      {
        assert ("_" + key)[0] == '_';
      }
    }
  }

  lemma {:induction false} NoneApplies(ds: seq<Default>, r: Request)
    requires FirstDefault(ds, r).None?
    ensures forall i :: 0 <= i < |ds| ==> !Applies(ds[i].context, r)
  {
    if ds != [] {
      ContextMeaning(ds[0].context, r);
      NoneApplies(ds[1..], r);
      assert forall i :: 1 <= i < |ds| ==> ds[i] == ds[1..][i - 1];
    }
  }

  lemma {:induction false} FirstApplies(ds: seq<Default>, r: Request) returns (i: nat)
    requires FirstDefault(ds, r).Some?
    ensures IsFirst(ds, r, i) && ds[i].values == FirstDefault(ds, r).value
  {
    ContextMeaning(ds[0].context, r);
    if Applies(ds[0].context, r) {
      i := 0;
    } else {
      var k := FirstApplies(ds[1..], r);
      i := k + 1;
      assert forall j :: 1 <= j < |ds| ==> ds[j] == ds[1..][j - 1];
    }
  }

  lemma UnsetMeans(cs: seq<Context>, r: Request)
    ensures AnyMatches(cs, r) <==> exists c :: c in cs && Applies(c, r)
  {
    forall i | 0 <= i < |cs|
      ensures Matches(cs[i], r) <==> Applies(cs[i], r)
    {
      ContextMeaning(cs[i], r);
    }
  }

  /** For all types and requests. */
  lemma SetDefaultsMeaning(t: KeyType, r: Request)
    ensures Given(t, r, SetDefaults(t, r))
  {
    UnsetMeans(t.unsets, r);
    if t.inheritance.Some? {
      PutGets(t, r, t.inheritance.value);
    } else if !AnyMatches(t.unsets, r) {
      if FirstDefault(t.defaults, r).Some? {
        var i := FirstApplies(t.defaults, r);
        PatchMeaning(t, r, t.defaults[i].values);
      } else {
        NoneApplies(t.defaults, r);
      }
    }
  }

  // ---- single rules ---------------------------------------------------------------------

  lemma {:induction false} FirstOf(t: KeyType, r: Request, ds: seq<Default>, i: nat)
    requires ValuesOf(r.params, t.name) == [] && t.inheritance.None? && !AnyMatches(t.unsets, r)
    requires t.defaults == ds && i <= |ds| && forall k :: 0 <= k < i ==> !Matches(ds[k].context, r)
    requires i < |ds| ==> Matches(ds[i].context, r) && Literal(ds[i].values)
    ensures if i == |ds| then After(t, r) == r else Gets(After(t, r), r, t, ds[i].values)
  {
    FirstMatch(ds, r, i);
    if i < |ds| {
      PutGets(t, r, ds[i].values);
    }
  }

  lemma {:induction false} FirstMatch(ds: seq<Default>, r: Request, i: nat)
    requires i <= |ds| && forall k :: 0 <= k < i ==> !Matches(ds[k].context, r)
    requires i < |ds| ==> Matches(ds[i].context, r)
    ensures FirstDefault(ds, r) == if i == |ds| then None else Some(ds[i].values)
  {
    if i > 0 {
      assert !Matches(ds[0].context, r);
      FirstMatch(ds[1..], r, i - 1);
    }
  }

  lemma OneRule(rule: Rule, r: Request)
    ensures Matches([rule], r) <==> RuleMatches(rule, r)
  {
    assert [rule][0] == rule;
  }

  lemma HasByName(ps: seq<Parameter>, name: string)
    ensures Has(ps, name) <==> name in Names(ps)
  {
    if i :| 0 <= i < |ps| && ps[i].name == name {
      assert Find(ps, name) <= i;
    }
  }

  /** The defaults of a key may depend on whether another key has one of some values: `a` is given when it has
      values but none of these, `b` when it has one of these, and nothing when it is absent. */
  lemma ExcludedOrIncluded(t: KeyType, r: Request, k: string, vals: set<string>, a: seq<string>, b: seq<string>)
    requires HasDefaults(t, [Default([Exclude(k, vals)], a), Default([Include(k, vals)], b)]) && k != "_verb"
    requires ValuesOf(r.params, t.name) == [] && Literal(a) && Literal(b)
    ensures k in Names(r.params) && (forall v :: v in ValuesOf(r.params, k) ==> v !in vals) ==>
              Gets(After(t, r), r, t, a)
    ensures (exists v :: v in ValuesOf(r.params, k) && v in vals) ==> Gets(After(t, r), r, t, b)
    ensures k !in Names(r.params) ==> After(t, r) == r
  {
    OneRule(Exclude(k, vals), r);
    OneRule(Include(k, vals), r);
    HasByName(r.params, k);
    MeetsSome(ValuesOf(r.params, k), vals);
    var i := if Matches(t.defaults[0].context, r) then 0 else if Matches(t.defaults[1].context, r) then 1 else 2;
    FirstOf(t, r, t.defaults, i);
  }

  lemma MeetsSome(values: seq<string>, vals: set<string>)
    ensures Meets(values, vals) <==> exists v :: v in values && v in vals
  {
    if v :| v in values && v in vals {
      var i :| 0 <= i < |values| && values[i] == v;
      assert values[i] in vals;
    }
  }

  /** They may depend on the verb. */
  lemma VerbIncluded(t: KeyType, r: Request, vals: set<string>, a: seq<string>)
    requires HasDefaults(t, [Default([Include("_verb", vals)], a)])
    requires ValuesOf(r.params, t.name) == [] && Literal(a)
    ensures if r.verb in vals then Gets(After(t, r), r, t, a) else After(t, r) == r
  {
    OneRule(Include("_verb", vals), r);
    FirstOf(t, r, t.defaults, if r.verb in vals then 0 else 1);
  }

  /** They may depend on whether another key is there, with values or without. */
  lemma DefinedOrNot(t: KeyType, r: Request, k: string, a: seq<string>, b: seq<string>)
    requires HasDefaults(t, [Default([Def(k)], a), Default([Undef(k)], b)])
    requires ValuesOf(r.params, t.name) == [] && Literal(a) && Literal(b)
    ensures if k in Names(r.params) then Gets(After(t, r), r, t, a) else Gets(After(t, r), r, t, b)
  {
    OneRule(Def(k), r);
    OneRule(Undef(k), r);
    HasByName(r.params, k);
    FirstOf(t, r, t.defaults, if k in Names(r.params) then 0 else 1);
  }

  /** All rules of a context are needed. */
  lemma BothRules(t: KeyType, r: Request, k: string, vals: set<string>, m: string, others: set<string>, a: seq<string>)
    requires HasDefaults(t, [Default([Include(k, vals), Exclude(m, others)], a)]) && k != "_verb"
    requires ValuesOf(r.params, t.name) == [] && Literal(a)
    ensures if (exists v :: v in ValuesOf(r.params, k) && v in vals)
               && m in Names(r.params) && (forall v :: v in ValuesOf(r.params, m) ==> v !in others)
            then Gets(After(t, r), r, t, a)
            else After(t, r) == r
  {
    var c := t.defaults[0].context;
    assert c[0] == Include(k, vals) && c[1] == Exclude(m, others);
    assert Matches(c, r) <==> RuleMatches(c[0], r) && RuleMatches(c[1], r);
    HasByName(r.params, m);
    MeetsSome(ValuesOf(r.params, k), vals);
    MeetsSome(ValuesOf(r.params, m), others);
    FirstOf(t, r, t.defaults, if Matches(c, r) then 0 else 1);
  }

  /** In an unset context nothing is given, whatever the defaults. */
  lemma UnsetContext(t: KeyType, r: Request, k: string, vals: set<string>, a: seq<string>)
    requires t.inheritance.None? && t.unsets == [[Include(k, vals)]] && t.defaults == [Default([], a)] && k != "_verb"
    requires ValuesOf(r.params, t.name) == [] && Literal(a)
    ensures if exists v :: v in ValuesOf(r.params, k) && v in vals then After(t, r) == r
            else Gets(After(t, r), r, t, a)
  {
    OneRule(Include(k, vals), r);
    MeetsSome(ValuesOf(r.params, k), vals);
    assert AnyMatches(t.unsets, r) <==> Matches(t.unsets[0], r);
    if !AnyMatches(t.unsets, r) {
      FirstOf(t, r, t.defaults, 0);
    }
  }

  /** The first of two defaults that apply is given. */
  lemma FirstIsGiven(t: KeyType, r: Request, a: seq<string>, b: seq<string>)
    requires HasDefaults(t, [Default([], a), Default([], b)])
    requires ValuesOf(r.params, t.name) == [] && Literal(a)
    ensures Gets(After(t, r), r, t, a)
  {
    FirstOf(t, r, t.defaults, 0);
  }

  /** A default that is an underscore and a key gives the values of that key, and nothing if it is absent. */
  lemma CopyIsGiven(t: KeyType, r: Request, k: string)
    requires HasDefaults(t, [Default([], ["_" + k])]) && ValuesOf(r.params, t.name) == []
    ensures if k in Names(r.params) then Gets(After(t, r), r, t, ValuesOf(r.params, k)) else After(t, r) == r
  {
    var v := "_" + k;
    assert v[0] == '_' && v[1..] == k;
    HasByName(r.params, k);
    FirstMatch(t.defaults, r, 0);
    if k in Names(r.params) {
      PutGets(t, r, ValuesOf(r.params, k));
    }
  }

  // ---- the pass -------------------------------------------------------------------------

  /** A key that has a type and no values gets its defaults, and any other key is passed over. */
  ghost predicate IsStep(e: Entry, r: Request, q: Request) {
    if e.ty.Some? && ValuesOf(r.params, e.key) == [] then Given(e.ty.value, r, q) else q == r
  }

  /** The requests between the steps of a pass, from the first key to the last. */
  ghost predicate IsRun(es: seq<Entry>, run: seq<Request>) {
    |run| == |es| + 1 && forall n :: 0 <= n < |es| ==> IsStep(es[n], run[n], run[n + 1])
  }

  lemma {:induction false} PassIsRun(es: seq<Entry>, r: Request) returns (run: seq<Request>)
    ensures IsRun(es, run) && run[0] == r && run[|es|] == Pass(es, r)
  {
    if es == [] {
      run := [r];
    } else {
      var n := |es| - 1;
      var before := PassIsRun(es[..n], r);
      run := before + [Pass(es, r)];
      if es[n].ty.Some? {
        SetDefaultsMeaning(es[n].ty.value, before[n]);
      }
      assert IsStep(es[n], run[n], run[n + 1]);
      forall k | 0 <= k < n
        ensures IsStep(es[k], run[k], run[k + 1])
      {
        assert IsStep(es[..n][k], before[k], before[k + 1]);
      }
    }
  }

  // ---- the language ---------------------------------------------------------------------

  /** The defaults of `levtype`: with a stream that is not one of those of waves it is pl, with one of these sfc,
      and without a stream it stays unset. */
  lemma StreamDecidesLevtype(t: KeyType, r: Request, waves: set<string>)
    requires t.name == "levtype" && "wave" in waves && "oper" !in waves
    requires HasDefaults(t, [Default([Exclude("stream", waves)], ["pl"]), Default([Include("stream", waves)], ["sfc"])])
    requires "levtype" !in Names(r.params)
    ensures ValuesOf(r.params, "stream") == ["oper"] ==> ValuesOf(After(t, r).params, "levtype") == ["pl"]
    ensures ValuesOf(r.params, "stream") == ["wave"] ==> ValuesOf(After(t, r).params, "levtype") == ["sfc"]
    ensures "stream" !in Names(r.params) ==> "levtype" !in Names(After(t, r).params)
  {
    HasByName(r.params, "levtype");
    HasByName(r.params, "stream");
    ExcludedOrIncluded(t, r, "stream", waves, ["pl"], ["sfc"]);
    if ValuesOf(r.params, "stream") == ["wave"] {
      assert ValuesOf(r.params, "stream")[0] in waves;
    }
  }
}
