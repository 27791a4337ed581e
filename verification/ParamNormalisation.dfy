/** Params, and how the params of a request are rewritten to those of an axis. */
module ParamNormalisation {

  // ---- params ---------------------------------------------------------------------------

  /** Division and remainder as the source computes them: truncated towards zero. */
  function Div(a: int, b: int): int
    requires b > 0
  {
    if a >= 0 then a / b else -(-a / b)
  }

  function Rem(a: int, b: int): int
    requires b > 0
  {
    a - b * Div(a, b)
  }

  datatype Param = Param(table: int, value: int) {
    function Grib1Value(): int {
      Rem(value, 1000)
    }

    function ParamId(): int {
      var t := if table == 0 then Div(value, 1000) else table;
      (if t == 128 then 0 else t * 1000) + Rem(value, 1000)
    }

    predicate Less(other: Param) {
      if value == other.value then table < other.table else value < other.value
    }
  }

  function ReplaceTable(table: nat, paramId: int): int {
    table * 1000 + Rem(paramId, 1000)
  }

  /** Equal but for a multiple of 1000. */
  ghost predicate Congruent(a: int, b: int) {
    a % 1000 == b % 1000
  }

  lemma RemCongruent(a: int)
    ensures Congruent(Rem(a, 1000), a)
  {
  }

  lemma PlusTable(t: int, a: int)
    ensures Congruent(t * 1000 + a, a)
  {
  }

  /** What a param id keeps of its param, whatever the table. */
  lemma ParamIdCongruent(p: Param)
    ensures Congruent(p.ParamId(), p.value) && Congruent(p.Grib1Value(), p.value)
  {
    RemCongruent(p.value);
    PlusTable(if p.table == 0 then Div(p.value, 1000) else p.table, Rem(p.value, 1000));
  }

  lemma ReplaceTableCongruent(t: nat, paramId: int)
    ensures Congruent(ReplaceTable(t, paramId), paramId)
  {
    RemCongruent(paramId);
    PlusTable(t, Rem(paramId, 1000));
  }

  lemma SameRem(a: int, b: int)
    requires Rem(a, 1000) == Rem(b, 1000)
    ensures Congruent(a, b)
  {
    RemCongruent(a);
    RemCongruent(b);
  }

  // ---- one param ------------------------------------------------------------------------

  datatype Wind = Wind(u: Param, v: Param, vo: Param, d: Param)

  datatype Mode = Strict | Loose | FullTableDropping

  /** The tables that the matching is configured with. */
  datatype Config = Config(winds: seq<Wind>, dropTables: seq<nat>)

  /** The axis as a set, and the last param of the axis with each param id. */
  datatype Axis = Axis(params: set<Param>, byId: map<int, Param>)

  function AxisOf(axis: seq<Param>): Axis {
    if axis == [] then Axis({}, map[])
    else
      var n := |axis| - 1;
      var before := AxisOf(axis[..n]);
      Axis(before.params + {axis[n]}, before.byId[axis[n].ParamId() := axis[n]])
  }

  ghost predicate ValidAxis(a: Axis) {
    && (forall id :: id in a.byId ==> a.byId[id] in a.params && a.byId[id].ParamId() == id)
    && (forall p :: p in a.params ==> p.ParamId() in a.byId)
  }

  lemma {:induction false} AxisOfValid(axis: seq<Param>)
    ensures ValidAxis(AxisOf(axis))
    ensures forall p :: p in AxisOf(axis).params <==> p in axis
  {
    if axis != [] {
      var n := |axis| - 1;
      AxisOfValid(axis[..n]);
      assert axis == axis[..n] + [axis[n]];
    }
  }

  /** What becomes of a requested param: dropped, replaced, or replaced together with a wind pair. */
  datatype Outcome = Dropped | Kept(p: Param) | KeptWind(p: Param, vo: Param, d: Param)

  predicate WindMatches(w: Wind, id: int, strict: bool, a: Axis) {
    && (id == w.u.ParamId() || id == w.v.ParamId() || (!strict && (id == w.u.Grib1Value() || id == w.v.Grib1Value())))
    && w.vo in a.params && w.d in a.params
  }

  function WindOutput(w: Wind, id: int, strict: bool): Param {
    if id == w.u.ParamId() || (!strict && id == w.u.Grib1Value()) then w.u else w.v
  }

  /** The first wind family that matches exactly. */
  function ExactWind(winds: seq<Wind>, id: int, strict: bool, a: Axis): Outcome {
    if winds == [] then Dropped
    else if WindMatches(winds[0], id, strict, a) then
      KeptWind(WindOutput(winds[0], id, strict), winds[0].vo, winds[0].d)
    else ExactWind(winds[1..], id, strict, a)
  }

  /** It is the first one in the list, and `Dropped` means that there is none. */
  lemma {:induction false} ExactWindIsFirst(winds: seq<Wind>, id: int, strict: bool, a: Axis, i: nat)
    requires i <= |winds| && forall k :: 0 <= k < i ==> !WindMatches(winds[k], id, strict, a)
    requires i < |winds| ==> WindMatches(winds[i], id, strict, a)
    ensures ExactWind(winds, id, strict, a) ==
            if i == |winds| then Dropped else KeptWind(WindOutput(winds[i], id, strict), winds[i].vo, winds[i].d)
  {
    if i > 0 {
      assert !WindMatches(winds[0], id, strict, a);
      ExactWindIsFirst(winds[1..], id, strict, a, i - 1);
    }
  }

  /** The first table with which the param is in the axis. */
  function WithTable(tables: seq<nat>, id: int, a: Axis): Outcome {
    if tables == [] then Dropped
    else if ReplaceTable(tables[0], id) in a.byId then Kept(a.byId[ReplaceTable(tables[0], id)])
    else WithTable(tables[1..], id, a)
  }

  lemma {:induction false} WithTableIsFirst(tables: seq<nat>, id: int, a: Axis, i: nat)
    requires i <= |tables| && forall k :: 0 <= k < i ==> ReplaceTable(tables[k], id) !in a.byId
    requires i < |tables| ==> ReplaceTable(tables[i], id) in a.byId
    ensures WithTable(tables, id, a) == if i == |tables| then Dropped else Kept(a.byId[ReplaceTable(tables[i], id)])
  {
    if i > 0 {
      assert ReplaceTable(tables[0], id) !in a.byId;
      WithTableIsFirst(tables[1..], id, a, i - 1);
    }
  }

  /** The first table with which the vorticity and the divergence of the family are in the axis. */
  function WindWithTable(tables: seq<nat>, w: Wind, id: int, a: Axis): Outcome {
    if tables == [] then Dropped
    else
      var t, vo, d := tables[0], ReplaceTable(tables[0], w.vo.ParamId()), ReplaceTable(tables[0], w.d.ParamId());
      if vo in a.byId && d in a.byId then
        KeptWind(if a.byId[vo].table > 0 then Param(t, id) else Param(0, ReplaceTable(t, id)), a.byId[vo], a.byId[d])
      else WindWithTable(tables[1..], w, id, a)
  }

  function PartialWind(winds: seq<Wind>, tables: seq<nat>, id: int, a: Axis): Outcome {
    if winds == [] then Dropped
    else if id == winds[0].u.ParamId() || id == winds[0].v.ParamId() then
      var found := WindWithTable(tables, winds[0], id, a);
      if found.Dropped? then PartialWind(winds[1..], tables, id, a) else found
    else PartialWind(winds[1..], tables, id, a)
  }

  predicate SameShortId(a: Axis, id: int, k: int) {
    k in a.byId && Rem(k, 1000) == Rem(id, 1000)
  }

  /** The smallest param id of the axis that agrees but for the table. */
  ghost function Smallest(a: Axis, id: int): (k: int)
    requires exists k :: SameShortId(a, id, k)
    ensures SameShortId(a, id, k) && forall j :: SameShortId(a, id, j) ==> k <= j
  {
    SmallestExists(a, id);
    var k :| SameShortId(a, id, k) && forall j :: SameShortId(a, id, j) ==> k <= j; k
  }

  lemma SmallestExists(a: Axis, id: int)
    requires exists k :: SameShortId(a, id, k)
    ensures exists k :: SameShortId(a, id, k) && forall j :: SameShortId(a, id, j) ==> k <= j
  {
    var s := set j | j in a.byId.Keys && SameShortId(a, id, j);
    var k :| SameShortId(a, id, k);
    assert k in s;
    var m := Minimum(s);
    assert SameShortId(a, id, m);
    forall j | SameShortId(a, id, j)
      ensures m <= j
    {
      assert j in s;
    }
  }

  lemma AnyElement<T>(s: set<T>) returns (x: T)
    requires s != {}
    ensures x in s
  {
    x :| x in s;
  }

  lemma {:induction false} Minimum(s: set<int>) returns (m: int)
    requires s != {}
    ensures m in s && forall x :: x in s ==> m <= x
  {
    var x := AnyElement(s);
    if s == {x} {
      m := x;
    } else {
      assert s == s - {x} + {x};
      var n := Minimum(s - {x});
      m := if n < x then n else x;
    }
  }

  ghost function DropTable(a: Axis, id: int): Outcome {
    if exists k :: SameShortId(a, id, k) then Kept(a.byId[Smallest(a, id)]) else Dropped
  }

  /** What it does with a short id that came without a table and is found in no other way. */
  ghost function WithoutTable(id: int, a: Axis, cfg: Config, mode: Mode): Outcome {
    var tabled := WithTable(cfg.dropTables, id, a);
    if !tabled.Dropped? then tabled
    else
      var wind := PartialWind(cfg.winds, cfg.dropTables, id, a);
      if !wind.Dropped? || mode != FullTableDropping then wind
      else DropTable(a, id)
  }

  /** What `normalise` does with one requested param. */
  ghost function NormaliseOne(r: Param, a: Axis, cfg: Config, strict: bool, mode: Mode): Outcome {
    var id := r.ParamId();
    if r in a.params then Kept(r)
    else if id in a.byId then Kept(a.byId[id])
    else
      var exact := ExactWind(cfg.winds, id, strict, a);
      if !exact.Dropped? || strict || r.table != 0 || id >= 1000 then exact
      else WithoutTable(id, a, cfg, mode)
  }

  // ---- what one outcome keeps -----------------------------------------------------------

  /** The output is in the axis, or it is a wind substitute whose pair is in the axis. */
  ghost predicate InAxisOrWind(o: Outcome, a: Axis) {
    match o
    case Dropped => true
    case Kept(p) => p in a.params
    case KeptWind(p, vo, d) => vo in a.params && d in a.params
  }

  ghost predicate AgreesWith(o: Outcome, r: Param) {
    match o
    case Dropped => true
    case Kept(p) => Congruent(p.ParamId(), r.ParamId())
    case KeptWind(p, _, _) => Congruent(p.ParamId(), r.ParamId())
  }

  ghost predicate AgreesExactly(o: Outcome, r: Param) {
    match o
    case Dropped => true
    case Kept(p) => p.ParamId() == r.ParamId()
    case KeptWind(p, _, _) => p.ParamId() == r.ParamId()
  }

  lemma {:induction false} ExactWindKeeps(winds: seq<Wind>, r: Param, strict: bool, a: Axis)
    ensures var o := ExactWind(winds, r.ParamId(), strict, a);
            InAxisOrWind(o, a) && AgreesWith(o, r) && (strict ==> AgreesExactly(o, r)) && !o.Kept?
  {
    if winds != [] {
      ParamIdCongruent(winds[0].u);
      ParamIdCongruent(winds[0].v);
      ExactWindKeeps(winds[1..], r, strict, a);
    }
  }

  lemma {:induction false} WithTableKeeps(tables: seq<nat>, r: Param, a: Axis)
    requires ValidAxis(a)
    ensures InAxisOrWind(WithTable(tables, r.ParamId(), a), a) && AgreesWith(WithTable(tables, r.ParamId(), a), r)
  {
    if tables != [] {
      ReplaceTableCongruent(tables[0], r.ParamId());
      WithTableKeeps(tables[1..], r, a);
    }
  }

  lemma {:induction false} WindWithTableKeeps(tables: seq<nat>, w: Wind, r: Param, a: Axis)
    requires ValidAxis(a)
    ensures InAxisOrWind(WindWithTable(tables, w, r.ParamId(), a), a)
            && AgreesWith(WindWithTable(tables, w, r.ParamId(), a), r)
  {
    if tables != [] {
      var t := tables[0];
      ReplaceTableCongruent(t, r.ParamId());
      ParamIdCongruent(Param(t, r.ParamId()));
      ParamIdCongruent(Param(0, ReplaceTable(t, r.ParamId())));
      WindWithTableKeeps(tables[1..], w, r, a);
    }
  }

  lemma {:induction false} PartialWindKeeps(winds: seq<Wind>, tables: seq<nat>, r: Param, a: Axis)
    requires ValidAxis(a)
    ensures var o := PartialWind(winds, tables, r.ParamId(), a); InAxisOrWind(o, a) && AgreesWith(o, r)
  {
    if winds != [] {
      WindWithTableKeeps(tables, winds[0], r, a);
      PartialWindKeeps(winds[1..], tables, r, a);
    }
  }

  /** Every param that is kept is in the axis, or a wind substitute whose pair is in the axis; it has the
      id of the requested one but for the table, and exactly that id in strict mode. */
  lemma OneKeeps(r: Param, a: Axis, cfg: Config, strict: bool, mode: Mode)
    requires ValidAxis(a)
    ensures var o := NormaliseOne(r, a, cfg, strict, mode);
            InAxisOrWind(o, a) && AgreesWith(o, r) && (strict ==> AgreesExactly(o, r))
  {
    var id := r.ParamId();
    ExactWindKeeps(cfg.winds, r, strict, a);
    WithTableKeeps(cfg.dropTables, r, a);
    PartialWindKeeps(cfg.winds, cfg.dropTables, r, a);
    if exists k :: SameShortId(a, id, k) {
      SameRem(Smallest(a, id), id);
    }
  }

  lemma {:induction false} LooserWind(winds: seq<Wind>, id: int, a: Axis)
    ensures !ExactWind(winds, id, true, a).Dropped? ==> !ExactWind(winds, id, false, a).Dropped?
  {
    if winds != [] {
      LooserWind(winds[1..], id, a);
    }
  }

  /** A looser mode keeps whatever a stricter one keeps. */
  lemma LooserKeepsMore(r: Param, a: Axis, cfg: Config)
    ensures !NormaliseOne(r, a, cfg, true, Strict).Dropped? ==> !NormaliseOne(r, a, cfg, false, Loose).Dropped?
    ensures !NormaliseOne(r, a, cfg, false, Loose).Dropped? ==>
            !NormaliseOne(r, a, cfg, false, FullTableDropping).Dropped?
  {
    LooserWind(cfg.winds, r.ParamId(), a);
  }

  // ---- the list -------------------------------------------------------------------------

  function OutputOf(o: Outcome): seq<Param> {
    match o
    case Dropped => []
    case Kept(p) => [p]
    case KeptWind(p, _, _) => [p]
  }

  function WindOf(o: Outcome): set<Param> {
    if o.KeptWind? then {o.vo, o.d} else {}
  }

  /** One output for each kept input, in order. */
  ghost function Outputs(req: seq<Param>, a: Axis, cfg: Config, strict: bool, mode: Mode): seq<Param> {
    if req == [] then []
    else
      var n := |req| - 1;
      Outputs(req[..n], a, cfg, strict, mode) + OutputOf(NormaliseOne(req[n], a, cfg, strict, mode))
  }

  ghost function Winds(req: seq<Param>, a: Axis, cfg: Config, strict: bool, mode: Mode): set<Param> {
    if req == [] then {}
    else
      var n := |req| - 1;
      Winds(req[..n], a, cfg, strict, mode) + WindOf(NormaliseOne(req[n], a, cfg, strict, mode))
  }

  /** The wind params that are missing, in increasing order. */
  ghost predicate Increasing(ps: seq<Param>) {
    forall i, j :: 0 <= i < j < |ps| ==> ps[i].Less(ps[j])
  }

  /** What `normalise` leaves in the list. */
  ghost predicate Normalised(req: seq<Param>, axis: seq<Param>, cfg: Config, strict: bool, mode: Mode,
                             out: seq<Param>) {
    var a := AxisOf(axis);
    var outputs, winds := Outputs(req, a, cfg, strict, mode), Winds(req, a, cfg, strict, mode);
    && outputs <= out
    && var added := out[|outputs|..];
       Increasing(added) && forall p :: p in added <==> p in winds && p !in outputs
  }

  /** An output comes from a kept input. */
  lemma {:induction false} OutputComesFrom(req: seq<Param>, a: Axis, cfg: Config, strict: bool, mode: Mode, p: Param)
    returns (r: Param)
    requires p in Outputs(req, a, cfg, strict, mode)
    ensures r in req && OutputOf(NormaliseOne(r, a, cfg, strict, mode)) == [p]
    ensures WindOf(NormaliseOne(r, a, cfg, strict, mode)) <= Winds(req, a, cfg, strict, mode)
  {
    var n := |req| - 1;
    if p in OutputOf(NormaliseOne(req[n], a, cfg, strict, mode)) {
      r := req[n];
    } else {
      r := OutputComesFrom(req[..n], a, cfg, strict, mode, p);
      assert r in req;
    }
  }

  lemma {:induction false} WindsInAxis(req: seq<Param>, a: Axis, cfg: Config, strict: bool, mode: Mode)
    requires ValidAxis(a)
    ensures Winds(req, a, cfg, strict, mode) <= a.params
  {
    if req != [] {
      WindsInAxis(req[..|req| - 1], a, cfg, strict, mode);
      OneKeeps(req[|req| - 1], a, cfg, strict, mode);
    }
  }

  /** A wind substitute for a requested param, with its pair in the axis and in the list. */
  ghost predicate IsWindSubstitute(p: Param, req: seq<Param>, a: Axis, cfg: Config, strict: bool, mode: Mode,
                                   out: seq<Param>) {
    exists r :: r in req && WindSubstitute(NormaliseOne(r, a, cfg, strict, mode), p, a, out)
  }

  ghost predicate WindSubstitute(o: Outcome, p: Param, a: Axis, out: seq<Param>) {
    o.KeptWind? && o.p == p && o.vo in a.params && o.d in a.params && o.vo in out && o.d in out
  }

  /** After `normalise` every param is in the axis, or is a wind substitute whose vorticity and divergence
      are in the axis and in the list. */
  lemma NormalisedIsInAxis(req: seq<Param>, axis: seq<Param>, cfg: Config, strict: bool, mode: Mode, out: seq<Param>,
                           p: Param)
    requires Normalised(req, axis, cfg, strict, mode, out) && p in out
    ensures p in axis || IsWindSubstitute(p, req, AxisOf(axis), cfg, strict, mode, out)
  {
    var a := AxisOf(axis);
    var outputs, winds := Outputs(req, a, cfg, strict, mode), Winds(req, a, cfg, strict, mode);
    AxisOfValid(axis);
    WindsInAxis(req, a, cfg, strict, mode);
    NormalisedMembers(req, axis, cfg, strict, mode, out);
    if p in outputs {
      var r := OutputComesFrom(req, a, cfg, strict, mode, p);
      OneKeeps(r, a, cfg, strict, mode);
      var o := NormaliseOne(r, a, cfg, strict, mode);
      if o.KeptWind? {
        assert WindSubstitute(o, p, a, out);
      }
    }
  }

  /** The list holds the outputs and the recorded wind params, and nothing else. */
  lemma NormalisedMembers(req: seq<Param>, axis: seq<Param>, cfg: Config, strict: bool, mode: Mode, out: seq<Param>)
    requires Normalised(req, axis, cfg, strict, mode, out)
    ensures var a := AxisOf(axis);
            forall p :: p in out <==> p in Outputs(req, a, cfg, strict, mode) || p in Winds(req, a, cfg, strict, mode)
  {
    var outputs := Outputs(req, AxisOf(axis), cfg, strict, mode);
    assert out == outputs + out[|outputs|..];
  }

  // ---- normalising twice ----------------------------------------------------------------

  lemma NoElements<T>(s: seq<T>)
    ensures s == [] || exists x :: x in s
  {
    if s != [] {
      assert s[0] in s;
    }
  }

  /** What a param that is not in the axis must be to be given again: the first wind family that matches its id
      exactly gives it, or none does and the first one that matches it with a dropped table does. */
  predicate FoundAgain(p: Param, a: Axis, cfg: Config, strict: bool) {
    var id := p.ParamId();
    var exact := ExactWind(cfg.winds, id, strict, a);
    && id !in a.byId
    && if exact.KeptWind? then exact.p == p
       else
         && !strict && p.table == 0 && id < 1000 && WithTable(cfg.dropTables, id, a).Dropped?
         && PartialWind(cfg.winds, cfg.dropTables, id, a).KeptWind?
            && PartialWind(cfg.winds, cfg.dropTables, id, a).p == p
  }

  lemma {:induction false} TableGivesAxis(tables: seq<nat>, id: int, a: Axis)
    requires ValidAxis(a)
    ensures var o := WithTable(tables, id, a); o.Dropped? || (o.Kept? && o.p in a.params)
  {
    if tables != [] {
      TableGivesAxis(tables[1..], id, a);
    }
  }

  lemma DropTableGivesAxis(a: Axis, id: int)
    requires ValidAxis(a)
    ensures var o := DropTable(a, id); o.Dropped? || (o.Kept? && o.p in a.params)
  {
  }

  lemma {:induction false} NeverKept(winds: seq<Wind>, id: int, strict: bool, a: Axis)
    ensures !ExactWind(winds, id, strict, a).Kept?
  {
    if winds != [] {
      NeverKept(winds[1..], id, strict, a);
    }
  }

  lemma {:induction false} PartialNeverKept(winds: seq<Wind>, tables: seq<nat>, id: int, a: Axis)
    ensures !PartialWind(winds, tables, id, a).Kept?
  {
    if winds != [] {
      WithTableNeverKept(tables, winds[0], id, a);
      PartialNeverKept(winds[1..], tables, id, a);
    }
  }

  lemma {:induction false} WithTableNeverKept(tables: seq<nat>, w: Wind, id: int, a: Axis)
    ensures !WindWithTable(tables, w, id, a).Kept?
  {
    if tables != [] {
      WithTableNeverKept(tables[1..], w, id, a);
    }
  }

  /** That is exactly when normalising the param gives the param itself. */
  lemma FoundAgainExactly(p: Param, a: Axis, cfg: Config, strict: bool, mode: Mode)
    requires ValidAxis(a) && p !in a.params
    ensures FoundAgain(p, a, cfg, strict) <==> OutputOf(NormaliseOne(p, a, cfg, strict, mode)) == [p]
  {
    var id := p.ParamId();
    NeverKept(cfg.winds, id, strict, a);
    PartialNeverKept(cfg.winds, cfg.dropTables, id, a);
    TableGivesAxis(cfg.dropTables, id, a);
    DropTableGivesAxis(a, id);
  }

  /** The params of a list that are not in the axis. */
  function Outside(ps: seq<Param>, a: Axis): seq<Param> {
    if ps == [] then []
    else
      var n := |ps| - 1;
      Outside(ps[..n], a) + (if ps[n] in a.params then [] else [ps[n]])
  }

  lemma {:induction false} OutsideAppend(ps: seq<Param>, qs: seq<Param>, a: Axis)
    ensures Outside(ps + qs, a) == Outside(ps, a) + Outside(qs, a)
  {
    if qs == [] {
      assert ps + qs == ps;
    } else {
      var n := |qs| - 1;
      assert (ps + qs)[..|ps + qs| - 1] == ps + qs[..n];
      OutsideAppend(ps, qs[..n], a);
    }
  }

  lemma {:induction false} InOutside(ps: seq<Param>, a: Axis)
    ensures forall p :: p in Outside(ps, a) <==> p in ps && p !in a.params
  {
    if ps != [] {
      var n := |ps| - 1;
      assert ps == ps[..n] + [ps[n]];
      InOutside(ps[..n], a);
    }
  }

  /** Each param that is not in the axis gives at most one such param, and the others give none. */
  lemma {:induction false} OutsideOfOutputs(part: seq<Param>, a: Axis, cfg: Config, strict: bool, mode: Mode)
    requires ValidAxis(a)
    ensures var given := Outside(Outputs(part, a, cfg, strict, mode), a);
            && |given| <= |Outside(part, a)|
            && (given == Outside(part, a) ==>
                  forall p :: p in part && p !in a.params ==> OutputOf(NormaliseOne(p, a, cfg, strict, mode)) == [p])
  {
    if part != [] {
      var n := |part| - 1;
      var q, before := part[n], Outputs(part[..n], a, cfg, strict, mode);
      var one := OutputOf(NormaliseOne(q, a, cfg, strict, mode));
      assert part == part[..n] + [q];
      OutsideOfOutputs(part[..n], a, cfg, strict, mode);
      OutsideAppend(before, one, a);
      OutsideOfOne(q, a, cfg, strict, mode);
      SameParts(Outside(before, a), Outside(one, a), Outside(part[..n], a), if q in a.params then [] else [q]);
    }
  }

  lemma OutsideOfOne(q: Param, a: Axis, cfg: Config, strict: bool, mode: Mode)
    requires ValidAxis(a)
    ensures var one := OutputOf(NormaliseOne(q, a, cfg, strict, mode));
            && |Outside(one, a)| <= (if q in a.params then 0 else 1)
            && (Outside(one, a) == [q] ==> one == [q])
  {
    var one := OutputOf(NormaliseOne(q, a, cfg, strict, mode));
    if one != [] {
      assert one[..0] == [];
    }
  }

  lemma SameParts<T>(a: seq<T>, b: seq<T>, c: seq<T>, d: seq<T>)
    requires |a| <= |c| && |b| <= |d|
    ensures a + b == c + d ==> a == c && b == d
  {
    if a + b == c + d {
      assert |a| == |c| && |b| == |d|;
      assert a == (a + b)[..|a|] && b == (a + b)[|a|..];
      assert c == (c + d)[..|c|] && d == (c + d)[|c|..];
    }
  }

  /** The param is given again, and the pair that goes with it is in the list. */
  ghost predicate StaysIn(p: Param, a: Axis, cfg: Config, strict: bool, mode: Mode, out: seq<Param>) {
    var o := NormaliseOne(p, a, cfg, strict, mode);
    OutputOf(o) == [p] && forall w :: w in WindOf(o) ==> w in out
  }

  lemma {:induction false} OutputsStay(axis: seq<Param>, cfg: Config, strict: bool, mode: Mode, out: seq<Param>,
                                       part: seq<Param>)
    requires forall p :: p in part && p !in AxisOf(axis).params ==> StaysIn(p, AxisOf(axis), cfg, strict, mode, out)
    ensures Outputs(part, AxisOf(axis), cfg, strict, mode) == part
    ensures forall w :: w in Winds(part, AxisOf(axis), cfg, strict, mode) ==> w in out
  {
    if part != [] {
      var n := |part| - 1;
      assert part == part[..n] + [part[n]];
      assert forall p :: p in part[..n] ==> p in part;
      OutputsStay(axis, cfg, strict, mode, out, part[..n]);
      OneStays(axis, cfg, strict, mode, out, part[n]);
    }
  }

  lemma OneStays(axis: seq<Param>, cfg: Config, strict: bool, mode: Mode, out: seq<Param>, p: Param)
    requires p !in AxisOf(axis).params ==> StaysIn(p, AxisOf(axis), cfg, strict, mode, out)
    ensures StaysIn(p, AxisOf(axis), cfg, strict, mode, out)
  {
  }

  /** A second run leaves the list as it is exactly when every param that is not in the axis stays in it. */
  lemma AgainIsSame(axis: seq<Param>, cfg: Config, strict: bool, mode: Mode, out: seq<Param>, again: seq<Param>)
    requires Normalised(out, axis, cfg, strict, mode, again)
    ensures again == out <==>
            forall p :: p in out && p !in AxisOf(axis).params ==> StaysIn(p, AxisOf(axis), cfg, strict, mode, out)
  {
    var a := AxisOf(axis);
    AxisOfValid(axis);
    if forall p :: p in out && p !in a.params ==> StaysIn(p, a, cfg, strict, mode, out) {
      OutputsStay(axis, cfg, strict, mode, out, out);
      NoElements(again[|out|..]);
      assert again == out + again[|out|..];
    }
    if again == out {
      SameStays(axis, cfg, strict, mode, out);
    }
  }

  lemma SameStays(axis: seq<Param>, cfg: Config, strict: bool, mode: Mode, out: seq<Param>)
    requires Normalised(out, axis, cfg, strict, mode, out)
    ensures forall p :: p in out && p !in AxisOf(axis).params ==> StaysIn(p, AxisOf(axis), cfg, strict, mode, out)
  {
    var a := AxisOf(axis);
    var outputs := Outputs(out, a, cfg, strict, mode);
    AxisOfValid(axis);
    WindsInAxis(out, a, cfg, strict, mode);
    NormalisedMembers(out, axis, cfg, strict, mode, out);
    AddedAreInside(out, axis, cfg, strict, mode, out);
    OutsideOfOutputs(out, a, cfg, strict, mode);
    forall p | p in out && p !in a.params
      ensures StaysIn(p, a, cfg, strict, mode, out)
    {
      WindsOfMember(out, a, cfg, strict, mode, p);
    }
  }

  /** The wind params that are added are in the axis. */
  lemma AddedAreInside(req: seq<Param>, axis: seq<Param>, cfg: Config, strict: bool, mode: Mode, out: seq<Param>)
    requires Normalised(req, axis, cfg, strict, mode, out)
    ensures Outside(out, AxisOf(axis)) == Outside(Outputs(req, AxisOf(axis), cfg, strict, mode), AxisOf(axis))
  {
    var a := AxisOf(axis);
    var outputs := Outputs(req, a, cfg, strict, mode);
    var added := out[|outputs|..];
    AxisOfValid(axis);
    WindsInAxis(req, a, cfg, strict, mode);
    assert out == outputs + added;
    OutsideAppend(outputs, added, a);
    InOutside(added, a);
    NoElements(Outside(added, a));
  }

  lemma {:induction false} WindsOfMember(req: seq<Param>, a: Axis, cfg: Config, strict: bool, mode: Mode, r: Param)
    requires r in req
    ensures WindOf(NormaliseOne(r, a, cfg, strict, mode)) <= Winds(req, a, cfg, strict, mode)
    ensures forall p :: p in OutputOf(NormaliseOne(r, a, cfg, strict, mode)) ==> p in Outputs(req, a, cfg, strict, mode)
  {
    var n := |req| - 1;
    assert req == req[..n] + [req[n]];
    if r in req[..n] {
      WindsOfMember(req[..n], a, cfg, strict, mode, r);
    }
  }

  /** The param is among the outputs or the recorded winds of the request. */
  ghost predicate Given(p: Param, req: seq<Param>, a: Axis, cfg: Config, strict: bool, mode: Mode) {
    p in Outputs(req, a, cfg, strict, mode) || p in Winds(req, a, cfg, strict, mode)
  }

  /** What can be checked of a requested param before: if it becomes a wind substitute that is not in the axis,
      that substitute would be found again, with a pair that the request gives. */
  ghost predicate SubstituteStays(r: Param, req: seq<Param>, a: Axis, cfg: Config, strict: bool, mode: Mode) {
    var o := NormaliseOne(r, a, cfg, strict, mode);
    o.KeptWind? && o.p !in a.params ==>
      && FoundAgain(o.p, a, cfg, strict)
      && forall w :: w in WindOf(NormaliseOne(o.p, a, cfg, strict, mode)) ==> Given(w, req, a, cfg, strict, mode)
  }

  /** In every mode, normalising twice is normalising once if and only if the substitute of every requested
      param stays. */
  lemma IdempotentExactly(req: seq<Param>, axis: seq<Param>, cfg: Config, strict: bool, mode: Mode, out: seq<Param>,
                          again: seq<Param>)
    requires Normalised(req, axis, cfg, strict, mode, out) && Normalised(out, axis, cfg, strict, mode, again)
    ensures again == out <==> forall r :: r in req ==> SubstituteStays(r, req, AxisOf(axis), cfg, strict, mode)
  {
    var a := AxisOf(axis);
    AxisOfValid(axis);
    AgainIsSame(axis, cfg, strict, mode, out, again);
    NormalisedMembers(req, axis, cfg, strict, mode, out);
    if again == out {
      forall r | r in req
        ensures SubstituteStays(r, req, a, cfg, strict, mode)
      {
        WindsOfMember(req, a, cfg, strict, mode, r);
        SubstituteOf(req, axis, cfg, strict, mode, out, r);
      }
    }
    if forall r :: r in req ==> SubstituteStays(r, req, a, cfg, strict, mode) {
      forall p | p in out && p !in a.params
        ensures StaysIn(p, a, cfg, strict, mode, out)
      {
        NormalisedIsInAxis(req, axis, cfg, strict, mode, out, p);
        var r :| r in req && WindSubstitute(NormaliseOne(r, a, cfg, strict, mode), p, a, out);
        assert SubstituteStays(r, req, a, cfg, strict, mode);
        FoundAgainExactly(p, a, cfg, strict, mode);
      }
    }
  }

  lemma SubstituteOf(req: seq<Param>, axis: seq<Param>, cfg: Config, strict: bool, mode: Mode, out: seq<Param>,
                     r: Param)
    requires Normalised(req, axis, cfg, strict, mode, out) && r in req
    requires forall p :: p in out && p !in AxisOf(axis).params ==> StaysIn(p, AxisOf(axis), cfg, strict, mode, out)
    ensures SubstituteStays(r, req, AxisOf(axis), cfg, strict, mode)
  {
    var a := AxisOf(axis);
    var o := NormaliseOne(r, a, cfg, strict, mode);
    AxisOfValid(axis);
    NormalisedMembers(req, axis, cfg, strict, mode, out);
    WindsOfMember(req, a, cfg, strict, mode, r);
    if o.KeptWind? && o.p !in a.params {
      assert o.p in OutputOf(o) && StaysIn(o.p, a, cfg, strict, mode, out);
      FoundAgainExactly(o.p, a, cfg, strict, mode);
    }
  }

  /** In strict mode the condition always holds: the family that gave the substitute gives it again. */
  lemma StrictIsIdempotent(req: seq<Param>, axis: seq<Param>, cfg: Config, mode: Mode, out: seq<Param>,
                           again: seq<Param>)
    requires Normalised(req, axis, cfg, true, mode, out) && Normalised(out, axis, cfg, true, mode, again)
    ensures again == out
  {
    var a := AxisOf(axis);
    AxisOfValid(axis);
    IdempotentExactly(req, axis, cfg, true, mode, out, again);
    forall r | r in req
      ensures SubstituteStays(r, req, a, cfg, true, mode)
    {
      StrictStays(r, req, a, cfg, mode);
    }
  }

  lemma StrictStays(r: Param, req: seq<Param>, a: Axis, cfg: Config, mode: Mode)
    requires ValidAxis(a) && r in req
    ensures SubstituteStays(r, req, a, cfg, true, mode)
  {
    var o := NormaliseOne(r, a, cfg, true, mode);
    WindsOfMember(req, a, cfg, true, mode, r);
    if o.KeptWind? && o.p !in a.params {
      OneKeeps(r, a, cfg, true, mode);
      assert o.p.ParamId() == r.ParamId();
      assert NormaliseOne(o.p, a, cfg, true, mode) == o;
    }
  }

  /** In the other modes it may not hold: a wind substitute that is made with a dropped table is dropped the
      second time. */
  lemma LooseIsNotIdempotent(axis: seq<Param>, cfg: Config, mode: Mode, out: seq<Param>, again: seq<Param>)
    requires mode != Strict && axis == [Param(140, 138), Param(140, 155)]
    requires cfg == Config([Wind(Param(0, 131), Param(0, 132), Param(0, 138), Param(0, 155))], [140])
    requires Normalised([Param(0, 131)], axis, cfg, false, mode, out) && Normalised(out, axis, cfg, false, mode, again)
    ensures Param(140, 131) in out && again != out
  {
    var a, r := AxisOf(axis), Param(0, 131);
    TwoParamAxis(axis);
    OutcomesOfWind(axis, cfg, mode);
    assert [r][..0] == [];
    assert Outputs([r], a, cfg, false, mode) == [Param(140, 131)];
    assert Outputs([r], a, cfg, false, mode)[0] == out[0];
    assert !StaysIn(Param(140, 131), a, cfg, false, mode, out);
    AgainIsSame(axis, cfg, false, mode, out, again);
  }

  lemma OutcomesOfWind(axis: seq<Param>, cfg: Config, mode: Mode)
    requires axis == [Param(140, 138), Param(140, 155)] && AxisOf(axis).params == {axis[0], axis[1]}
    requires AxisOf(axis).byId == map[140138 := axis[0], 140155 := axis[1]]
    requires cfg == Config([Wind(Param(0, 131), Param(0, 132), Param(0, 138), Param(0, 155))], [140])
    ensures NormaliseOne(Param(0, 131), AxisOf(axis), cfg, false, mode)
            == KeptWind(Param(140, 131), Param(140, 138), Param(140, 155))
    ensures NormaliseOne(Param(140, 131), AxisOf(axis), cfg, false, mode) == Dropped
  {
    var a, w := AxisOf(axis), cfg.winds[0];
    assert Param(0, 131).ParamId() == 131;
    NoExactWind(w, 131, a);
    SubstituteIsMade(w, a);
    SubstituteIsDropped(w, a, cfg, mode);
  }

  lemma SubstituteIsDropped(w: Wind, a: Axis, cfg: Config, mode: Mode)
    requires w.vo !in a.params && cfg.winds == [w] && a.params == {Param(140, 138), Param(140, 155)}
    requires a.byId == map[140138 := Param(140, 138), 140155 := Param(140, 155)]
    ensures NormaliseOne(Param(140, 131), a, cfg, false, mode) == Dropped
  {
    assert Param(140, 131).ParamId() == 140131;
    NoExactWind(w, 140131, a);
  }

  lemma SubstituteIsMade(w: Wind, a: Axis)
    requires w == Wind(Param(0, 131), Param(0, 132), Param(0, 138), Param(0, 155))
    requires a.byId == map[140138 := Param(140, 138), 140155 := Param(140, 155)]
    ensures WithTable([140], 131, a) == Dropped
    ensures PartialWind([w], [140], 131, a) == KeptWind(Param(140, 131), Param(140, 138), Param(140, 155))
  {
    assert w.u.ParamId() == 131 && w.vo.ParamId() == 138 && w.d.ParamId() == 155;
    WindFromTable(w, a, 140, 131);
  }

  lemma NoExactWind(w: Wind, id: int, a: Axis)
    requires w.vo !in a.params
    ensures ExactWind([w], id, false, a) == Dropped
  {
    assert [w][1..] == [];
  }

  lemma WindFromTable(w: Wind, a: Axis, t: nat, id: int)
    requires ReplaceTable(t, id) !in a.byId
    requires ReplaceTable(t, w.vo.ParamId()) in a.byId && ReplaceTable(t, w.d.ParamId()) in a.byId
    requires a.byId[ReplaceTable(t, w.vo.ParamId())].table > 0
    ensures WithTable([t], id, a) == Dropped
    ensures WindWithTable([t], w, id, a)
            == KeptWind(Param(t, id), a.byId[ReplaceTable(t, w.vo.ParamId())], a.byId[ReplaceTable(t, w.d.ParamId())])
  {
    assert [t][1..] == [];
  }

  lemma TwoParamAxis(axis: seq<Param>)
    requires axis == [Param(140, 138), Param(140, 155)]
    ensures AxisOf(axis) == Axis({axis[0], axis[1]}, map[140138 := axis[0], 140155 := axis[1]])
  {
    assert axis[..1] == [axis[0]] && axis[..1][..0] == [];
    assert axis[0].ParamId() == 140138 && axis[1].ParamId() == 140155;
    assert AxisOf([]) == Axis({}, map[]);
    assert AxisOf(axis[..1]) == Axis({axis[0]}, map[140138 := axis[0]]);
  }
}
