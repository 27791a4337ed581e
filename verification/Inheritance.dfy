/** Defaults that depend on the context: one pass over the keys, in axis order, gives every key that
    has no values its inherited or default ones. */
module Inheritance {
  import opened Requests
  import opened Results

  // ---- rules and contexts ---------------------------------------------------------------

  datatype Rule = Include(key: string, vals: set<string>)
                | Exclude(key: string, vals: set<string>)
                | Undef(key: string)
                | Def(key: string)

  type Context = seq<Rule>

  predicate Meets(values: seq<string>, vals: set<string>) {
    exists i :: 0 <= i < |values| && values[i] in vals
  }

  predicate RuleMatches(rule: Rule, r: Request) {
    match rule
    case Include(key, vals) =>
      if key == "_verb" then r.verb in vals
      else Has(r.params, key) && Meets(ValuesOf(r.params, key), vals)
    case Exclude(key, vals) => Has(r.params, key) && !Meets(ValuesOf(r.params, key), vals)
    case Undef(key) => !Has(r.params, key)
    case Def(key) => Has(r.params, key)
  }

  predicate Matches(c: Context, r: Request) {
    forall i :: 0 <= i < |c| ==> RuleMatches(c[i], r)
  }

  // ---- types and their defaults ---------------------------------------------------------

  datatype Default = Default(context: Context, values: seq<string>)

  datatype KeyType = KeyType(name: string, flatten: bool, inheritance: Option<seq<string>>,
                             unsets: seq<Context>, defaults: seq<Default>)

  /** The key that a default copies: the only value is its name after an underscore. */
  function CopyOf(values: seq<string>): Option<string> {
    if |values| == 1 && values[0] != "" && values[0][0] == '_' then Some(values[0][1..]) else None
  }

  predicate AnyMatches(cs: seq<Context>, r: Request) {
    exists i :: 0 <= i < |cs| && Matches(cs[i], r)
  }

  function FirstDefault(ds: seq<Default>, r: Request): Option<seq<string>> {
    if ds == [] then None
    else if Matches(ds[0].context, r) then Some(ds[0].values)
    else FirstDefault(ds[1..], r)
  }

  /** The values that `patchRequest` gives. */
  function Patch(values: seq<string>, r: Request): Option<seq<string>> {
    match CopyOf(values)
    case None => Some(values)
    case Some(key) => if Has(r.params, key) then Some(ValuesOf(r.params, key)) else None
  }

  /** The values that `setDefaults` gives, if any. */
  function Choice(t: KeyType, r: Request): Option<seq<string>> {
    if t.inheritance.Some? then t.inheritance
    else if AnyMatches(t.unsets, r) then None
    else
      match FirstDefault(t.defaults, r)
      case None => None
      case Some(values) => Patch(values, r)
  }

  function Put(t: KeyType, r: Request, values: seq<string>): Request {
    r.(params := SetTyped(r.params, Parameter(t.name, t.flatten, values)))
  }

  function Apply(t: KeyType, r: Request, choice: Option<seq<string>>): Request {
    if choice.Some? then Put(t, r, choice.value) else r
  }

  function SetDefaults(t: KeyType, r: Request): Request {
    Apply(t, r, Choice(t, r))
  }

  // ---- the pass -------------------------------------------------------------------------

  /** A key in the order of the pass; an axis for which the language has no type is skipped. */
  datatype Entry = Entry(key: string, ty: Option<KeyType>)

  function Step(e: Entry, r: Request): Request {
    if e.ty.Some? && ValuesOf(r.params, e.key) == [] then SetDefaults(e.ty.value, r) else r
  }

  function Pass(es: seq<Entry>, r: Request): Request {
    if es == [] then r else Step(es[|es| - 1], Pass(es[..|es| - 1], r))
  }

  predicate WellTyped(e: Entry) {
    e.ty.Some? ==> e.ty.value.name == e.key
  }

  // ---- what a choice depends on ---------------------------------------------------------

  predicate Mentions(c: Context, key: string) {
    exists i :: 0 <= i < |c| && c[i].key == key
  }

  predicate ContextsMention(cs: seq<Context>, key: string) {
    exists i :: 0 <= i < |cs| && Mentions(cs[i], key)
  }

  predicate DefaultsMention(ds: seq<Default>, key: string) {
    exists i :: 0 <= i < |ds| && (Mentions(ds[i].context, key) || CopyOf(ds[i].values) == Some(key))
  }

  /** The keys on which the defaults of a type may depend. */
  predicate Reads(t: KeyType, key: string) {
    ContextsMention(t.unsets, key) || DefaultsMention(t.defaults, key)
  }

  ghost predicate AgreeOn(r: Request, q: Request, key: string) {
    Has(r.params, key) == Has(q.params, key) && ValuesOf(r.params, key) == ValuesOf(q.params, key)
  }

  lemma MatchesAgree(c: Context, r: Request, q: Request)
    requires r.verb == q.verb && forall key :: Mentions(c, key) ==> AgreeOn(r, q, key)
    ensures Matches(c, r) == Matches(c, q)
  {
    forall i | 0 <= i < |c|
      ensures RuleMatches(c[i], r) == RuleMatches(c[i], q)
    {
      assert Mentions(c, c[i].key);
      assert AgreeOn(r, q, c[i].key);
    }
  }

  lemma AnyMatchesAgree(cs: seq<Context>, r: Request, q: Request)
    requires r.verb == q.verb && forall key :: ContextsMention(cs, key) ==> AgreeOn(r, q, key)
    ensures AnyMatches(cs, r) == AnyMatches(cs, q)
  {
    forall i | 0 <= i < |cs|
      ensures Matches(cs[i], r) == Matches(cs[i], q)
    {
      assert forall key :: Mentions(cs[i], key) ==> ContextsMention(cs, key);
      MatchesAgree(cs[i], r, q);
    }
  }

  lemma {:induction false} FirstDefaultAgrees(ds: seq<Default>, r: Request, q: Request)
    requires r.verb == q.verb && forall key :: DefaultsMention(ds, key) ==> AgreeOn(r, q, key)
    ensures FirstDefault(ds, r) == FirstDefault(ds, q)
    ensures FirstDefault(ds, r).Some? ==> exists d :: d in ds && d.values == FirstDefault(ds, r).value
  {
    if ds != [] {
      assert forall key :: Mentions(ds[0].context, key) ==> DefaultsMention(ds, key);
      MatchesAgree(ds[0].context, r, q);
      TailMentions(ds);
      FirstDefaultAgrees(ds[1..], r, q);
      assert ds[0] in ds;
    }
  }

  lemma TailMentions(ds: seq<Default>)
    requires ds != []
    ensures forall key :: DefaultsMention(ds[1..], key) ==> DefaultsMention(ds, key)
  {
    forall key | DefaultsMention(ds[1..], key)
      ensures DefaultsMention(ds, key)
    {
      var i :| 0 <= i < |ds[1..]| && (Mentions(ds[1..][i].context, key) || CopyOf(ds[1..][i].values) == Some(key));
      assert ds[i + 1] == ds[1..][i];
    }
  }

  lemma PatchAgrees(t: KeyType, d: Default, r: Request, q: Request)
    requires d in t.defaults && forall key :: Reads(t, key) ==> AgreeOn(r, q, key)
    ensures Patch(d.values, r) == Patch(d.values, q)
  {
    if CopyOf(d.values).Some? {
      var key := CopyOf(d.values).value;
      var i :| 0 <= i < |t.defaults| && t.defaults[i] == d;
      assert CopyOf(t.defaults[i].values) == Some(key);
      assert AgreeOn(r, q, key);
    }
  }

  /** Requests that agree on the keys that a type reads are given the same values. */
  lemma ChoiceAgrees(t: KeyType, r: Request, q: Request)
    requires r.verb == q.verb && forall key :: Reads(t, key) ==> AgreeOn(r, q, key)
    ensures Choice(t, r) == Choice(t, q)
  {
    AnyMatchesAgree(t.unsets, r, q);
    FirstDefaultAgrees(t.defaults, r, q);
    if FirstDefault(t.defaults, r).Some? {
      var d :| d in t.defaults && d.values == FirstDefault(t.defaults, r).value;
      PatchAgrees(t, d, r, q);
    }
  }

  // ---- what a step changes --------------------------------------------------------------

  ghost predicate Holds(ps: seq<Parameter>, p: Parameter) {
    Has(ps, p.name) && ps[Find(ps, p.name)] == p
  }

  lemma SetTypedFind(ps: seq<Parameter>, p: Parameter, name: string)
    ensures Has(SetTyped(ps, p), name) <==> Has(ps, name) || name == p.name
    ensures Has(ps, name) ==> Find(SetTyped(ps, p), name) == Find(ps, name)
    ensures Holds(SetTyped(ps, p), p)
  {
    var q, i := SetTyped(ps, p), Find(ps, p.name);
    if i < |ps| {
      assert forall j :: 0 <= j < |ps| ==> q[j].name == ps[j].name;
    } else {
      FindSnoc(ps, p, name);
      FindSnoc(ps, p, p.name);
    }
  }

  /** Setting one key leaves the others as they are. */
  lemma SetTypedOther(ps: seq<Parameter>, p: Parameter, q: Parameter, name: string)
    requires name != p.name && q.name != p.name
    ensures Has(SetTyped(ps, p), name) == Has(ps, name) && ValuesOf(SetTyped(ps, p), name) == ValuesOf(ps, name)
    ensures Holds(SetTyped(ps, p), q) <==> Holds(ps, q)
  {
    SetTypedFind(ps, p, name);
    SetTypedFind(ps, p, q.name);
  }

  lemma SetTypedSame(ps: seq<Parameter>, p: Parameter)
    ensures SetTyped(ps, p) == ps <==> Holds(ps, p)
    ensures ValuesOf(SetTyped(ps, p), p.name) == p.values
  {
    SetTypedFind(ps, p, p.name);
  }

  lemma StepOther(e: Entry, r: Request, key: string)
    requires WellTyped(e) && key != e.key
    ensures AgreeOn(r, Step(e, r), key) && Step(e, r).verb == r.verb
  {
    if Step(e, r) != r {
      var t := e.ty.value;
      var p := Parameter(t.name, t.flatten, Choice(t, r).value);
      SetTypedOther(r.params, p, p.(name := key), key);
    }
  }

  /** A step that finds nothing to do still finds nothing to do after a step for a key that it does not read. */
  lemma NothingToDoIsKept(e: Entry, other: Entry, r: Request)
    requires WellTyped(e) && WellTyped(other) && e.key != other.key
    requires e.ty.Some? && other.ty.Some? ==> !Reads(e.ty.value, other.key)
    ensures Step(e, Step(other, r)) == Step(other, r) <==> Step(e, r) == r
  {
    var q := Step(other, r);
    StepOther(other, r, e.key);
    if q != r && e.ty.Some? && ValuesOf(r.params, e.key) == [] {
      ReadsAgree(e.ty.value, other, r);
      ChoiceAgrees(e.ty.value, r, q);
      if Choice(e.ty.value, r).Some? {
        PutElsewhere(e.ty.value, other, r, Choice(e.ty.value, r).value);
      }
    }
  }

  lemma ReadsAgree(t: KeyType, other: Entry, r: Request)
    requires WellTyped(other) && !Reads(t, other.key)
    ensures Step(other, r).verb == r.verb && forall key :: Reads(t, key) ==> AgreeOn(r, Step(other, r), key)
  {
    StepOther(other, r, other.key + "x");
    forall key | Reads(t, key)
      ensures AgreeOn(r, Step(other, r), key)
    {
      StepOther(other, r, key);
    }
  }

  lemma PutElsewhere(t: KeyType, other: Entry, r: Request, values: seq<string>)
    requires WellTyped(other) && t.name != other.key
    ensures Put(t, Step(other, r), values) == Step(other, r) <==> Put(t, r, values) == r
  {
    var q, p := Step(other, r), Parameter(t.name, t.flatten, values);
    SetTypedSame(r.params, p);
    SetTypedSame(q.params, p);
    if q != r {
      var o := other.ty.value;
      SetTypedOther(r.params, Parameter(o.name, o.flatten, Choice(o, r).value), p, t.name);
    }
  }

  // ---- what a pass gives ----------------------------------------------------------------

  lemma StepKeeps(e: Entry, r: Request, key: string)
    requires WellTyped(e) && ValuesOf(r.params, key) != []
    ensures ValuesOf(Step(e, r).params, key) == ValuesOf(r.params, key)
  {
    if key != e.key {
      StepOther(e, r, key);
    }
  }

  /** A pass never touches a key that has values. */
  lemma {:induction false} GivenValuesAreKept(es: seq<Entry>, r: Request, key: string)
    requires (forall i :: 0 <= i < |es| ==> WellTyped(es[i])) && ValuesOf(r.params, key) != []
    ensures ValuesOf(Pass(es, r).params, key) == ValuesOf(r.params, key)
  {
    if es != [] {
      var n := |es| - 1;
      GivenValuesAreKept(es[..n], r, key);
      StepKeeps(es[n], Pass(es[..n], r), key);
    }
  }

  /** Every visit of the key finds a type with these inherited values. */
  predicate Inherits(es: seq<Entry>, key: string, values: seq<string>) {
    forall i :: 0 <= i < |es| && es[i].key == key ==> es[i].ty.Some? && es[i].ty.value.inheritance == Some(values)
  }

  predicate Visits(es: seq<Entry>, key: string) {
    exists i :: 0 <= i < |es| && es[i].key == key
  }

  lemma VisitsSnoc(es: seq<Entry>, n: nat, key: string)
    requires |es| == n + 1
    ensures Visits(es, key) <==> Visits(es[..n], key) || es[n].key == key
  {
    assert forall i :: 0 <= i < n ==> es[..n][i] == es[i];
  }

  /** A key that has no values is given the inherited ones, whatever its contexts and defaults are. */
  lemma {:induction false} InheritedValuesAreGiven(es: seq<Entry>, r: Request, key: string, values: seq<string>)
    requires (forall i :: 0 <= i < |es| ==> WellTyped(es[i])) && Inherits(es, key, values)
    requires ValuesOf(r.params, key) == [] && values != []
    ensures ValuesOf(Pass(es, r).params, key) == if Visits(es, key) then values else []
  {
    if es != [] {
      var n := |es| - 1;
      var before := Pass(es[..n], r);
      InheritedValuesAreGiven(es[..n], r, key, values);
      VisitsSnoc(es, n, key);
      if es[n].key != key {
        StepOther(es[n], before, key);
      } else if ValuesOf(before.params, key) == [] {
        SetTypedSame(before.params, Parameter(key, es[n].ty.value.flatten, values));
      }
    }
  }

  // ---- when one pass is enough ----------------------------------------------------------

  /** A key that is visited later is not read, unless it has been visited already. */
  ghost predicate Ordered(es: seq<Entry>) {
    forall i, j :: 0 <= i < j < |es| && es[i].ty.Some? && es[j].ty.Some? && Reads(es[i].ty.value, es[j].key) ==>
      es[j] in es[..i + 1]
  }

  ghost predicate Consistent(es: seq<Entry>) {
    && (forall i :: 0 <= i < |es| ==> WellTyped(es[i]))
    && (forall i, j :: 0 <= i < j < |es| && es[i].key == es[j].key ==> es[i] == es[j])
  }

  /** The values that a key is given are not empty, or giving it the empty list does not lead to others. */
  predicate Settled(e: Entry, r: Request) {
    e.ty.Some? && ValuesOf(r.params, e.key) == [] && e.ty.value.inheritance.None? && Choice(e.ty.value, r) == Some([])
    ==> Choice(e.ty.value, Put(e.ty.value, r, [])) in {None, Some([])}
  }

  predicate AllSettled(es: seq<Entry>, r: Request) {
    forall i :: 0 <= i < |es| ==> Settled(es[i], Pass(es[..i], r))
  }

  /** A settled step is not repeated. */
  lemma SettledOnce(e: Entry, r: Request)
    requires WellTyped(e)
    ensures Step(e, Step(e, r)) == Step(e, r) <==> Settled(e, r)
  {
    if e.ty.Some? && ValuesOf(r.params, e.key) == [] && Choice(e.ty.value, r).Some? {
      var t := e.ty.value;
      var v := Choice(t, r).value;
      var q := Put(t, r, v);
      SetTypedSame(r.params, Parameter(t.name, t.flatten, v));
      SetTypedFind(r.params, Parameter(t.name, t.flatten, v), t.name);
      if v == [] && Choice(t, q).Some? {
        SetTypedSame(q.params, Parameter(t.name, t.flatten, Choice(t, q).value));
        SetTypedSame(q.params, Parameter(t.name, t.flatten, v));
      }
    }
  }

  /** Every entry finds nothing to do. */
  ghost predicate Quiet(es: seq<Entry>, r: Request) {
    forall i :: 0 <= i < |es| ==> Step(es[i], r) == r
  }

  lemma {:induction false} QuietPass(es: seq<Entry>, r: Request)
    requires Quiet(es, r)
    ensures Pass(es, r) == r
  {
    if es != [] {
      assert Quiet(es[..|es| - 1], r);
      QuietPass(es[..|es| - 1], r);
    }
  }

  /** An entry that is visited for the first time was not read before. */
  lemma NotReadBefore(es: seq<Entry>, i: nat, n: nat)
    requires i < n < |es| && Ordered(es) && Consistent(es) && es[n] !in es[..n]
    ensures es[i].key != es[n].key
    ensures es[i].ty.Some? && es[n].ty.Some? ==> !Reads(es[i].ty.value, es[n].key)
  {
    assert es[..n][i] == es[i];
    assert forall e :: e in es[..i + 1] ==> e in es[..n];
  }

  /** One more step keeps the earlier entries quiet. */
  lemma QuietStep(es: seq<Entry>, n: nat, r: Request)
    requires n < |es| && Ordered(es) && Consistent(es) && Quiet(es[..n], r)
    ensures Quiet(es[..n], Step(es[n], r))
  {
    forall i | 0 <= i < n
      ensures Step(es[..n][i], Step(es[n], r)) == Step(es[n], r)
    {
      assert es[..n][i] == es[i];
      if es[n] in es[..n] {
        var k :| 0 <= k < n && es[..n][k] == es[n];
        assert Step(es[n], r) == r;
      } else {
        NotReadBefore(es, i, n);
        NothingToDoIsKept(es[i], es[n], r);
      }
    }
  }

  lemma PrefixOrdered(es: seq<Entry>, n: nat)
    requires n <= |es| && Ordered(es) && Consistent(es)
    ensures Ordered(es[..n]) && Consistent(es[..n])
  {
    forall i, j | 0 <= i < j < n && es[i].ty.Some? && es[j].ty.Some? && Reads(es[i].ty.value, es[j].key)
      ensures es[j] in es[..n][..i + 1]
    {
      assert es[..n][..i + 1] == es[..i + 1];
    }
  }

  lemma {:induction false} SettledIsQuiet(es: seq<Entry>, r: Request)
    requires Ordered(es) && Consistent(es) && AllSettled(es, r)
    ensures Quiet(es, Pass(es, r))
  {
    if es != [] {
      var n := |es| - 1;
      var before := Pass(es[..n], r);
      PrefixOrdered(es, n);
      PrefixSettled(es, n, r);
      SettledIsQuiet(es[..n], r);
      QuietStep(es, n, before);
      SettledOnce(es[n], before);
      QuietSnoc(es, n, Pass(es, r));
    }
  }

  lemma QuietSnoc(es: seq<Entry>, n: nat, r: Request)
    requires |es| == n + 1 && Quiet(es[..n], r) && Step(es[n], r) == r
    ensures Quiet(es, r)
  {
    assert forall i :: 0 <= i < n ==> es[..n][i] == es[i];
  }

  lemma PrefixSettled(es: seq<Entry>, n: nat, r: Request)
    requires n <= |es| && AllSettled(es, r)
    ensures AllSettled(es[..n], r)
  {
    forall i | 0 <= i < n
      ensures Settled(es[..n][i], Pass(es[..n][..i], r))
    {
      assert es[..n][..i] == es[..i];
      assert Settled(es[i], Pass(es[..i], r));
    }
  }

  /** When every step is settled, a second pass changes nothing. */
  lemma SettledPassIsFixed(es: seq<Entry>, r: Request)
    requires Ordered(es) && Consistent(es) && AllSettled(es, r)
    ensures Pass(es, Pass(es, r)) == Pass(es, r)
  {
    SettledIsQuiet(es, r);
    QuietPass(es, Pass(es, r));
  }

  // ---- when it is not -------------------------------------------------------------------

  predicate DistinctKeys(es: seq<Entry>) {
    forall i, j :: 0 <= i < j < |es| ==> es[i].key != es[j].key
  }

  /** A step that has something to do still has after the later steps. */
  lemma {:induction false} StillToDo(es: seq<Entry>, i: nat, n: nat, r: Request)
    requires i < n <= |es| && Ordered(es) && Consistent(es) && DistinctKeys(es)
    requires Step(es[i], Pass(es[..i + 1], r)) != Pass(es[..i + 1], r)
    ensures Step(es[i], Pass(es[..n], r)) != Pass(es[..n], r)
    decreases n
  {
    if n > i + 1 {
      StillToDo(es, i, n - 1, r);
      StillToDoNext(es, i, n - 1, r);
    }
  }

  lemma StillToDoNext(es: seq<Entry>, i: nat, n: nat, r: Request)
    requires i < n < |es| && Ordered(es) && Consistent(es) && DistinctKeys(es)
    requires Step(es[i], Pass(es[..n], r)) != Pass(es[..n], r)
    ensures Step(es[i], Pass(es[..n + 1], r)) != Pass(es[..n + 1], r)
  {
    PassNext(es, n, r);
    NotReadBefore(es, i, n);
    NothingToDoIsKept(es[i], es[n], Pass(es[..n], r));
  }

  lemma {:induction false} StillQuiet(es: seq<Entry>, i: nat, n: nat, r: Request)
    requires i <= n <= |es| && Ordered(es) && Consistent(es) && DistinctKeys(es) && Quiet(es[..i], Pass(es[..i], r))
    ensures Quiet(es[..i], Pass(es[..n], r))
    decreases n
  {
    if n > i {
      StillQuiet(es, i, n - 1, r);
      StillQuietNext(es, i, n - 1, r);
    }
  }

  lemma StillQuietNext(es: seq<Entry>, i: nat, n: nat, r: Request)
    requires i <= n < |es| && Ordered(es) && Consistent(es) && DistinctKeys(es) && Quiet(es[..i], Pass(es[..n], r))
    ensures Quiet(es[..i], Pass(es[..n + 1], r))
  {
    PassNext(es, n, r);
    QuietAfterNext(es, i, n, Pass(es[..n], r));
  }

  lemma PassNext(es: seq<Entry>, n: nat, r: Request)
    requires n < |es|
    ensures Pass(es[..n + 1], r) == Step(es[n], Pass(es[..n], r))
  {
    assert es[..n + 1][..n] == es[..n] && es[..n + 1][n] == es[n];
  }

  lemma QuietAfterNext(es: seq<Entry>, i: nat, n: nat, r: Request)
    requires i <= n < |es| && Ordered(es) && Consistent(es) && DistinctKeys(es) && Quiet(es[..i], r)
    ensures Quiet(es[..i], Step(es[n], r))
  {
    forall k | 0 <= k < i
      ensures Step(es[..i][k], Step(es[n], r)) == Step(es[n], r)
    {
      assert es[..i][k] == es[k];
      NotReadBefore(es, k, n);
      NothingToDoIsKept(es[k], es[n], r);
    }
  }

  // ---- without the rule about the order -------------------------------------------------

  /** Nothing is left to give to the key: it has values, or nothing is chosen for it, or the empty list that it
      has already. */
  ghost predicate NothingLeft(e: Entry, r: Request) {
    e.ty.Some? && ValuesOf(r.params, e.key) == [] ==>
      match Choice(e.ty.value, r)
      case None => true
      case Some(v) => v == [] && Holds(r.params, Parameter(e.key, e.ty.value.flatten, []))
  }

  lemma NothingLeftIsQuiet(e: Entry, r: Request)
    requires WellTyped(e)
    ensures NothingLeft(e, r) <==> Step(e, r) == r
  {
    if e.ty.Some? && ValuesOf(r.params, e.key) == [] && Choice(e.ty.value, r).Some? {
      SetTypedSame(r.params, Parameter(e.key, e.ty.value.flatten, Choice(e.ty.value, r).value));
    }
  }

  /** The key has values, or the empty list with the type that the pass gives. */
  ghost predicate Marked(e: Entry, r: Request)
    requires e.ty.Some?
  {
    ValuesOf(r.params, e.key) != [] || Holds(r.params, Parameter(e.key, e.ty.value.flatten, []))
  }

  lemma StepMarks(e: Entry, other: Entry, r: Request)
    requires e.ty.Some? && WellTyped(other) && (e.key == other.key ==> e == other) && Marked(e, r)
    ensures Marked(e, Step(other, r))
  {
    if ValuesOf(r.params, e.key) != [] {
      StepKeeps(other, r, e.key);
    } else if Step(other, r) != r {
      var o, v := other.ty.value, Choice(other.ty.value, r).value;
      var p := Parameter(o.name, o.flatten, v);
      if e.key == other.key {
        SetTypedSame(r.params, p);
        SetTypedFind(r.params, p, p.name);
      } else {
        SetTypedOther(r.params, p, Parameter(e.key, e.ty.value.flatten, []), e.key);
      }
    }
  }

  lemma {:induction false} MarkStays(es: seq<Entry>, i: nat, n: nat, r: Request)
    requires i < n <= |es| && Consistent(es) && es[i].ty.Some? && Marked(es[i], Pass(es[..i + 1], r))
    ensures Marked(es[i], Pass(es[..n], r))
    decreases n
  {
    if n > i + 1 {
      MarkStays(es, i, n - 1, r);
      assert es[..n][..n - 1] == es[..n - 1] && es[..n][n - 1] == es[n - 1];
      StepMarks(es[i], es[n - 1], Pass(es[..n - 1], r));
    }
  }

  lemma {:induction false} ValuesStay(es: seq<Entry>, i: nat, n: nat, r: Request, key: string)
    requires i <= n <= |es| && Consistent(es) && ValuesOf(Pass(es[..i], r).params, key) != []
    ensures ValuesOf(Pass(es[..n], r).params, key) != []
    decreases n
  {
    if n > i {
      ValuesStay(es, i, n - 1, r, key);
      assert es[..n][..n - 1] == es[..n - 1] && es[..n][n - 1] == es[n - 1];
      StepKeeps(es[n - 1], Pass(es[..n - 1], r), key);
    }
  }

  /** A run whose first step with something to do is step `i` does not end where it started, whatever the later
      steps do, also with the same key. */
  lemma SomethingIsLeft(es: seq<Entry>, i: nat, r: Request)
    requires i < |es| && Consistent(es) && Quiet(es[..i], r) && Step(es[i], r) != r
    ensures Pass(es, r) != r
  {
    QuietPass(es[..i], r);
    assert es[..i + 1][..i] == es[..i] && es[..|es|] == es;
    var t := es[i].ty.value;
    var p := Parameter(t.name, t.flatten, Choice(t, r).value);
    SetTypedSame(r.params, p);
    SetTypedFind(r.params, p, p.name);
    if p.values != [] {
      ValuesStay(es, i + 1, |es|, r, es[i].key);
    } else {
      MarkStays(es, i, |es|, r);
    }
  }

  lemma {:induction false} FirstWithSomething(es: seq<Entry>, r: Request) returns (i: nat)
    requires !Quiet(es, r)
    ensures i < |es| && Quiet(es[..i], r) && Step(es[i], r) != r
  {
    var n := |es| - 1;
    if Quiet(es[..n], r) {
      i := n;
      if Step(es[n], r) == r {
        QuietSnoc(es, n, r);
      }
    } else {
      i := FirstWithSomething(es[..n], r);
      assert es[..n][..i] == es[..i];
    }
  }

  /** For any language, whatever its contexts name and its defaults copy: a second pass changes nothing if and only
      if the first one leaves nothing to give to any key. */
  lemma FixedExactlyWhenNothingIsLeft(es: seq<Entry>, r: Request)
    requires Consistent(es)
    ensures Pass(es, Pass(es, r)) == Pass(es, r) <==> forall i :: 0 <= i < |es| ==> NothingLeft(es[i], Pass(es, r))
  {
    var q := Pass(es, r);
    forall i | 0 <= i < |es|
      ensures NothingLeft(es[i], q) <==> Step(es[i], q) == q
    {
      NothingLeftIsQuiet(es[i], q);
    }
    if Quiet(es, q) {
      QuietPass(es, q);
    } else {
      var i := FirstWithSomething(es, q);
      SomethingIsLeft(es, i, q);
    }
  }

  /** With distinct keys, a second pass changes nothing exactly when every step of the first is settled. */
  lemma FixedExactlyWhenSettled(es: seq<Entry>, r: Request)
    requires Ordered(es) && Consistent(es) && DistinctKeys(es)
    ensures Pass(es, Pass(es, r)) == Pass(es, r) <==> AllSettled(es, r)
  {
    if AllSettled(es, r) {
      SettledPassIsFixed(es, r);
    } else {
      var i := FirstUnsettled(es, r);
      var after := Pass(es[..i], r);
      PrefixOrdered(es, i);
      SettledIsQuiet(es[..i], r);
      SettledOnce(es[i], after);
      assert es[..i + 1][..i] == es[..i] && es[..|es|] == es;
      StillQuiet(es, i, |es|, r);
      StillToDo(es, i, |es|, r);
      SomethingIsLeft(es, i, Pass(es, r));
    }
  }

  lemma {:induction false} FirstUnsettled(es: seq<Entry>, r: Request) returns (i: nat)
    requires !AllSettled(es, r)
    ensures i < |es| && AllSettled(es[..i], r) && !Settled(es[i], Pass(es[..i], r))
  {
    var n := |es| - 1;
    if AllSettled(es[..n], r) {
      i := n;
      SettledSnoc(es, n, r);
    } else {
      i := FirstUnsettled(es[..n], r);
      assert es[..n][..i] == es[..i];
    }
  }

  lemma SettledSnoc(es: seq<Entry>, n: nat, r: Request)
    requires |es| == n + 1 && AllSettled(es[..n], r)
    ensures Settled(es[n], Pass(es[..n], r)) ==> AllSettled(es, r)
  {
    forall i | 0 <= i < |es| && Settled(es[n], Pass(es[..n], r))
      ensures Settled(es[i], Pass(es[..i], r))
    {
      if i < n {
        assert es[..n][..i] == es[..i] && es[..n][i] == es[i];
      }
    }
  }

  // ---- when every step is settled -------------------------------------------------------

  /** No list of values is empty: neither in the request, nor inherited, nor by default. */
  predicate Filled(es: seq<Entry>, r: Request) {
    && FilledRequest(r)
    && forall i :: 0 <= i < |es| ==> FilledEntry(es[i])
  }

  predicate FilledRequest(r: Request) {
    forall i :: 0 <= i < |r.params| ==> r.params[i].values != []
  }

  predicate FilledEntry(e: Entry) {
    e.ty.Some? ==>
      && e.ty.value.inheritance != Some([])
      && forall i :: 0 <= i < |e.ty.value.defaults| ==> e.ty.value.defaults[i].values != []
  }

  /** No default of a key depends on the key itself. */
  predicate SelfFree(es: seq<Entry>) {
    forall i :: 0 <= i < |es| && es[i].ty.Some? ==> !Reads(es[i].ty.value, es[i].key)
  }

  lemma ChoiceFilled(e: Entry, r: Request)
    requires e.ty.Some? && FilledEntry(e) && FilledRequest(r)
    ensures Choice(e.ty.value, r) != Some([])
  {
    FirstDefaultAgrees(e.ty.value.defaults, r, r);
  }

  lemma {:induction false} PassFilled(es: seq<Entry>, r: Request)
    requires Filled(es, r)
    ensures FilledRequest(Pass(es, r))
  {
    if es != [] {
      var n := |es| - 1;
      assert Filled(es[..n], r);
      PassFilled(es[..n], r);
      if Step(es[n], Pass(es[..n], r)) != Pass(es[..n], r) {
        ChoiceFilled(es[n], Pass(es[..n], r));
      }
    }
  }

  lemma FilledIsSettled(es: seq<Entry>, r: Request)
    requires Filled(es, r)
    ensures AllSettled(es, r)
  {
    forall i | 0 <= i < |es|
      ensures Settled(es[i], Pass(es[..i], r))
    {
      PassFilled(es[..i], r);
      if es[i].ty.Some? {
        ChoiceFilled(es[i], Pass(es[..i], r));
      }
    }
  }

  lemma SelfFreeIsSettled(es: seq<Entry>, r: Request)
    requires Consistent(es) && SelfFree(es)
    ensures AllSettled(es, r)
  {
    forall i | 0 <= i < |es| && es[i].ty.Some?
      ensures Settled(es[i], Pass(es[..i], r))
    {
      var t, before := es[i].ty.value, Pass(es[..i], r);
      var p := Parameter(t.name, t.flatten, []);
      forall key | Reads(t, key)
        ensures AgreeOn(before, Put(t, before, []), key)
      {
        SetTypedOther(before.params, p, p.(name := key), key);
      }
      ChoiceAgrees(t, before, Put(t, before, []));
    }
  }
}
