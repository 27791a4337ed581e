/** What `normalise` gives for every requested param, by the axis, the wind families and the tables. */
module ParamMeaning {
  import opened ParamNormalisation

  // ---- ids ------------------------------------------------------------------------------

  /** The id of a param that is not negative: its value with its table in front, table 128 being no table. */
  lemma ParamIdMeaning(table: int, value: nat)
    ensures Param(table, value).Grib1Value() == value % 1000
    ensures table != 0 && table != 128 ==> Param(table, value).ParamId() == table * 1000 + value % 1000
    ensures Param(128, value).ParamId() == value % 1000
    ensures value < 128000 || 129000 <= value ==> Param(0, value).ParamId() == value
    ensures 128000 <= value < 129000 ==> Param(0, value).ParamId() == value - 128000
  {
  }

  // ---- the axis -------------------------------------------------------------------------

  /** Some param of the axis has this id. */
  ghost predicate OnAxis(axis: seq<Param>, id: int) {
    exists p :: p in axis && p.ParamId() == id
  }

  /** It is the last param of the axis with this id. */
  ghost predicate IsLast(axis: seq<Param>, id: int, p: Param) {
    p.ParamId() == id && exists i :: 0 <= i < |axis| && axis[i] == p && NotAfter(axis, i, id)
  }

  ghost predicate NotAfter(axis: seq<Param>, i: int, id: int) {
    forall j :: 0 <= i < j < |axis| ==> axis[j].ParamId() != id
  }

  lemma {:induction false} IndexMeaning(axis: seq<Param>, id: int)
    ensures id in AxisOf(axis).byId <==> OnAxis(axis, id)
    ensures id in AxisOf(axis).byId ==> IsLast(axis, id, AxisOf(axis).byId[id])
  {
    if axis != [] {
      var n := |axis| - 1;
      IndexMeaning(axis[..n], id);
      assert axis == axis[..n] + [axis[n]];
      if axis[n].ParamId() == id {
        assert NotAfter(axis, n, id);
      } else if id in AxisOf(axis[..n]).byId {
        var i :| 0 <= i < n && axis[..n][i] == AxisOf(axis).byId[id] && NotAfter(axis[..n], i, id);
        assert axis[i] == AxisOf(axis).byId[id] && NotAfter(axis, i, id);
      }
    }
  }

  // ---- wind families --------------------------------------------------------------------

  ghost predicate IsComponent(component: Param, id: int, strict: bool) {
    id == component.ParamId() || (!strict && id == component.Grib1Value())
  }

  /** The id is that of a component of the family, whose pair is in the axis. */
  ghost predicate Fits(w: Wind, id: int, strict: bool, axis: seq<Param>) {
    (IsComponent(w.u, id, strict) || IsComponent(w.v, id, strict)) && w.vo in axis && w.d in axis
  }

  ghost predicate FirstFit(winds: seq<Wind>, id: int, strict: bool, axis: seq<Param>, i: nat) {
    i < |winds| && Fits(winds[i], id, strict, axis) && forall k :: 0 <= k < i ==> !Fits(winds[k], id, strict, axis)
  }

  /** The component itself is given, with the pair. */
  ghost predicate GivesWind(o: Outcome, w: Wind, id: int, strict: bool) {
    o == KeptWind(if IsComponent(w.u, id, strict) then w.u else w.v, w.vo, w.d)
  }

  lemma ExactWindMeaning(winds: seq<Wind>, id: int, strict: bool, axis: seq<Param>)
    ensures var o := ExactWind(winds, id, strict, AxisOf(axis));
            || (o == Dropped && forall w :: w in winds ==> !Fits(w, id, strict, axis))
            || exists i: nat :: FirstFit(winds, id, strict, axis, i) && GivesWind(o, winds[i], id, strict)
  {
    AxisOfValid(axis);
    var i := 0;
    while i < |winds| && !Fits(winds[i], id, strict, axis)
      invariant i <= |winds| && forall k :: 0 <= k < i ==> !Fits(winds[k], id, strict, axis)
    {
      i := i + 1;
    }
    ExactWindIsFirst(winds, id, strict, AxisOf(axis), i);
    assert i < |winds| ==> FirstFit(winds, id, strict, axis, i);
  }

  // ---- dropped tables -------------------------------------------------------------------

  /** The id with its table replaced. */
  function InTable(t: nat, id: int): int {
    t * 1000 + Rem(id, 1000)
  }

  ghost predicate FirstTable(tables: seq<nat>, id: int, axis: seq<Param>, i: nat) {
    && i < |tables| && OnAxis(axis, InTable(tables[i], id))
    && forall k :: 0 <= k < i ==> !OnAxis(axis, InTable(tables[k], id))
  }

  lemma {:induction false} WithTableMeaning(tables: seq<nat>, id: int, axis: seq<Param>) returns (i: nat)
    ensures var o := WithTable(tables, id, AxisOf(axis));
            if o == Dropped then forall t :: t in tables ==> !OnAxis(axis, InTable(t, id))
            else FirstTable(tables, id, axis, i) && o.Kept? && IsLast(axis, InTable(tables[i], id), o.p)
  {
    i := 0;
    if tables != [] {
      IndexMeaning(axis, InTable(tables[0], id));
      if !OnAxis(axis, InTable(tables[0], id)) {
        i := WithTableMeaning(tables[1..], id, axis);
        i := i + 1;
        assert forall k :: 1 <= k < |tables| ==> tables[k] == tables[1..][k - 1];
      }
    }
  }

  /** With this table, the pair of the family is in the axis. */
  ghost predicate PairOnAxis(w: Wind, t: nat, axis: seq<Param>) {
    OnAxis(axis, InTable(t, w.vo.ParamId())) && OnAxis(axis, InTable(t, w.d.ParamId()))
  }

  ghost predicate FirstPair(tables: seq<nat>, w: Wind, axis: seq<Param>, j: nat) {
    j < |tables| && PairOnAxis(w, tables[j], axis) && forall k :: 0 <= k < j ==> !PairOnAxis(w, tables[k], axis)
  }

  /** The pair that is found, and the component in this table: named as the vorticity of the axis is, with the table
      apart or in front. */
  ghost predicate GivesPair(o: Outcome, w: Wind, t: nat, id: int, axis: seq<Param>) {
    && o.KeptWind?
    && IsLast(axis, InTable(t, w.vo.ParamId()), o.vo) && IsLast(axis, InTable(t, w.d.ParamId()), o.d)
    && o.p == if o.vo.table > 0 then Param(t, id) else Param(0, InTable(t, id))
  }

  /** What comes of the family: nothing if no table will do, and else the pair of the first table that will. */
  ghost predicate PairAnswer(o: Outcome, tables: seq<nat>, w: Wind, id: int, axis: seq<Param>, j: nat) {
    if o == Dropped then forall t :: t in tables ==> !PairOnAxis(w, t, axis)
    else FirstPair(tables, w, axis, j) && GivesPair(o, w, tables[j], id, axis)
  }

  lemma PairLater(o: Outcome, tables: seq<nat>, w: Wind, id: int, axis: seq<Param>, j: nat)
    requires tables != [] && !PairOnAxis(w, tables[0], axis) && PairAnswer(o, tables[1..], w, id, axis, j)
    ensures PairAnswer(o, tables, w, id, axis, j + 1)
  {
    assert forall k :: 1 <= k < |tables| ==> tables[k] == tables[1..][k - 1];
  }

  /** Whether the first table will do. */
  lemma FirstTableMeaning(tables: seq<nat>, w: Wind, id: int, axis: seq<Param>)
    requires tables != []
    ensures var o := WindWithTable(tables, w, id, AxisOf(axis));
            if PairOnAxis(w, tables[0], axis) then GivesPair(o, w, tables[0], id, axis)
            else o == WindWithTable(tables[1..], w, id, AxisOf(axis))
  {
    IndexMeaning(axis, InTable(tables[0], w.vo.ParamId()));
    IndexMeaning(axis, InTable(tables[0], w.d.ParamId()));
  }

  lemma {:induction false} WindWithTableMeaning(tables: seq<nat>, w: Wind, id: int, axis: seq<Param>) returns (j: nat)
    ensures PairAnswer(WindWithTable(tables, w, id, AxisOf(axis)), tables, w, id, axis, j)
  {
    j := 0;
    if tables != [] {
      FirstTableMeaning(tables, w, id, axis);
      if !PairOnAxis(w, tables[0], axis) {
        var k := WindWithTableMeaning(tables[1..], w, id, axis);
        PairLater(WindWithTable(tables, w, id, AxisOf(axis)), tables, w, id, axis, k);
        j := k + 1;
      }
    }
  }

  /** The id is exactly that of a component. */
  ghost predicate Names(w: Wind, id: int) {
    id == w.u.ParamId() || id == w.v.ParamId()
  }

  ghost predicate NoPair(w: Wind, tables: seq<nat>, id: int, axis: seq<Param>) {
    Names(w, id) ==> forall t :: t in tables ==> !PairOnAxis(w, t, axis)
  }

  /** The first family with the id for which some table will do, and the first such table. */
  ghost predicate FirstFamily(cfg: Config, id: int, axis: seq<Param>, i: nat, j: nat) {
    && i < |cfg.winds| && Names(cfg.winds[i], id) && FirstPair(cfg.dropTables, cfg.winds[i], axis, j)
    && forall k :: 0 <= k < i ==> NoPair(cfg.winds[k], cfg.dropTables, id, axis)
  }

  lemma {:induction false} PartialWindMeaning(cfg: Config, id: int, axis: seq<Param>) returns (i: nat, j: nat)
    ensures var o := PartialWind(cfg.winds, cfg.dropTables, id, AxisOf(axis));
            if o == Dropped then forall w :: w in cfg.winds ==> NoPair(w, cfg.dropTables, id, axis)
            else FirstFamily(cfg, id, axis, i, j) && GivesPair(o, cfg.winds[i], cfg.dropTables[j], id, axis)
    decreases |cfg.winds|
  {
    i, j := 0, 0;
    if cfg.winds != [] {
      var w := cfg.winds[0];
      j := WindWithTableMeaning(cfg.dropTables, w, id, axis);
      if !Names(w, id) || WindWithTable(cfg.dropTables, w, id, AxisOf(axis)) == Dropped {
        assert NoPair(w, cfg.dropTables, id, axis);
        i, j := PartialWindMeaning(Config(cfg.winds[1..], cfg.dropTables), id, axis);
        i := i + 1;
        assert forall k :: 1 <= k < |cfg.winds| ==> cfg.winds[k] == cfg.winds[1..][k - 1];
      }
    }
  }

  // ---- any table ------------------------------------------------------------------------

  ghost predicate SameShort(p: Param, id: int) {
    Rem(p.ParamId(), 1000) == Rem(id, 1000)
  }

  /** Among the params of the axis that agree but for the table, the last one with the smallest id. */
  ghost predicate IsSmallest(axis: seq<Param>, id: int, p: Param) {
    && SameShort(p, id) && IsLast(axis, p.ParamId(), p)
    && forall q :: q in axis && SameShort(q, id) ==> p.ParamId() <= q.ParamId()
  }

  lemma DropTableMeaning(axis: seq<Param>, id: int)
    ensures var o := DropTable(AxisOf(axis), id);
            if exists p :: p in axis && SameShort(p, id) then o.Kept? && IsSmallest(axis, id, o.p) else o == Dropped
  {
    var a := AxisOf(axis);
    AxisOfValid(axis);
    if exists k :: SameShortId(a, id, k) {
      var k := Smallest(a, id);
      IndexMeaning(axis, k);
      assert a.byId[k] in axis && SameShort(a.byId[k], id);
      forall q | q in axis && SameShort(q, id)
        ensures k <= q.ParamId()
      {
        assert SameShortId(a, id, q.ParamId());
      }
    } else if p :| p in axis && SameShort(p, id) {
      assert SameShortId(a, id, p.ParamId());
    }
  }

  // ---- one param ------------------------------------------------------------------------

  ghost predicate MayDropTable(r: Param, strict: bool) {
    !strict && r.table == 0 && r.ParamId() < 1000
  }

  /** The answer to one requested param. */
  ghost predicate Answers(o: Outcome, r: Param, axis: seq<Param>, cfg: Config, strict: bool, mode: Mode) {
    var id := r.ParamId();
    if r in axis then o == Kept(r)
    else if OnAxis(axis, id) then o.Kept? && IsLast(axis, id, o.p)
    else if exists w :: w in cfg.winds && Fits(w, id, strict, axis) then
      exists i: nat :: FirstFit(cfg.winds, id, strict, axis, i) && GivesWind(o, cfg.winds[i], id, strict)
    else if MayDropTable(r, strict) then AnswersShort(o, id, axis, cfg, mode)
    else o == Dropped
  }

  /** The answer to a short id without a table: the tables that may be dropped are tried in their order, first for
      the param itself, then for the pair of its wind family; after that any table will do, if the mode allows it. */
  ghost predicate AnswersShort(o: Outcome, id: int, axis: seq<Param>, cfg: Config, mode: Mode) {
    if exists t :: t in cfg.dropTables && OnAxis(axis, InTable(t, id)) then
      exists i: nat :: FirstTable(cfg.dropTables, id, axis, i)
                       && o.Kept? && IsLast(axis, InTable(cfg.dropTables[i], id), o.p)
    else if exists w :: w in cfg.winds && !NoPair(w, cfg.dropTables, id, axis) then
      exists i: nat, j: nat :: FirstFamily(cfg, id, axis, i, j)
                               && GivesPair(o, cfg.winds[i], cfg.dropTables[j], id, axis)
    else if mode == FullTableDropping && exists p :: p in axis && SameShort(p, id) then
      o.Kept? && IsSmallest(axis, id, o.p)
    else o == Dropped
  }

  lemma ShortMeaning(id: int, axis: seq<Param>, cfg: Config, mode: Mode)
    ensures AnswersShort(WithoutTable(id, AxisOf(axis), cfg, mode), id, axis, cfg, mode)
  {
    var i := WithTableMeaning(cfg.dropTables, id, axis);
    if WithTable(cfg.dropTables, id, AxisOf(axis)) == Dropped {
      PairMeaning(id, axis, cfg, mode);
    } else {
      assert cfg.dropTables[i] in cfg.dropTables;
    }
  }

  lemma PairMeaning(id: int, axis: seq<Param>, cfg: Config, mode: Mode)
    requires WithTable(cfg.dropTables, id, AxisOf(axis)) == Dropped
    requires forall t :: t in cfg.dropTables ==> !OnAxis(axis, InTable(t, id))
    ensures AnswersShort(WithoutTable(id, AxisOf(axis), cfg, mode), id, axis, cfg, mode)
  {
    var i, j := PartialWindMeaning(cfg, id, axis);
    if PartialWind(cfg.winds, cfg.dropTables, id, AxisOf(axis)) == Dropped {
      DropTableMeaning(axis, id);
    } else {
      assert cfg.winds[i] in cfg.winds && cfg.dropTables[j] in cfg.dropTables;
      assert !NoPair(cfg.winds[i], cfg.dropTables, id, axis);
    }
  }

  /** For all params, axes, families, tables and modes. */
  lemma OneMeaning(r: Param, axis: seq<Param>, cfg: Config, strict: bool, mode: Mode)
    ensures Answers(NormaliseOne(r, AxisOf(axis), cfg, strict, mode), r, axis, cfg, strict, mode)
  {
    AxisOfValid(axis);
    IndexMeaning(axis, r.ParamId());
    ExactWindMeaning(cfg.winds, r.ParamId(), strict, axis);
    ShortMeaning(r.ParamId(), axis, cfg, mode);
  }

  /** A requested param is dropped exactly when neither it nor its id is in the axis, no wind family fits, and it
      either says its table or none of the tables that may be dropped helps. */
  lemma DroppedExactly(r: Param, axis: seq<Param>, cfg: Config, strict: bool, mode: Mode)
    ensures NormaliseOne(r, AxisOf(axis), cfg, strict, mode) == Dropped <==>
            && r !in axis && !OnAxis(axis, r.ParamId())
            && (forall w :: w in cfg.winds ==> !Fits(w, r.ParamId(), strict, axis))
            && (MayDropTable(r, strict) ==> NoTableHelps(r.ParamId(), axis, cfg, mode))
  {
    OneMeaning(r, axis, cfg, strict, mode);
  }

  ghost predicate NoTableHelps(id: int, axis: seq<Param>, cfg: Config, mode: Mode) {
    && (forall t :: t in cfg.dropTables ==> !OnAxis(axis, InTable(t, id)))
    && (forall w, t :: w in cfg.winds && Names(w, id) && t in cfg.dropTables ==> !PairOnAxis(w, t, axis))
    && (mode == FullTableDropping ==> forall p :: p in axis ==> !SameShort(p, id))
  }

  // ---- the list -------------------------------------------------------------------------

  function GivenParams(answers: seq<Outcome>): seq<Param> {
    if answers == [] then []
    else
      var n := |answers| - 1;
      GivenParams(answers[..n]) + match answers[n] case Dropped => [] case Kept(p) => [p] case KeptWind(p, _, _) => [p]
  }

  /** One of the pair of a wind substitute. */
  ghost predicate OfPair(p: Param, answers: seq<Outcome>) {
    exists i :: 0 <= i < |answers| && answers[i].KeptWind? && (p == answers[i].vo || p == answers[i].d)
  }

  ghost predicate AllAnswered(answers: seq<Outcome>, req: seq<Param>, axis: seq<Param>, cfg: Config, strict: bool,
                              mode: Mode) {
    && |answers| == |req|
    && forall i :: 0 <= i < |req| ==> Answers(answers[i], req[i], axis, cfg, strict, mode)
  }

  /** The params that are given, in the order of the request, and after them the params of wind pairs that are not
      among them, each once, the one with the smaller value first and with equal values that of the smaller table. */
  ghost predicate IsList(out: seq<Param>, answers: seq<Outcome>) {
    var given := GivenParams(answers);
    && given <= out
    && (forall p :: p in out[|given|..] <==> OfPair(p, answers) && p !in given)
    && forall i, j :: |given| <= i < j < |out| ==>
         out[i].value < out[j].value || (out[i].value == out[j].value && out[i].table < out[j].table)
  }

  /** The answers give these params, and these pairs. */
  ghost predicate Answer(answers: seq<Outcome>, given: seq<Param>, pairs: set<Param>) {
    GivenParams(answers) == given && forall p :: OfPair(p, answers) <==> p in pairs
  }

  lemma AnswerNext(before: seq<Outcome>, o: Outcome, given: seq<Param>, pairs: set<Param>)
    requires Answer(before, given, pairs)
    ensures Answer(before + [o], given + OutputOf(o), pairs + WindOf(o))
  {
    OfPairLast(before, o);
  }

  lemma AllAnsweredNext(before: seq<Outcome>, o: Outcome, req: seq<Param>, axis: seq<Param>, cfg: Config, strict: bool,
                        mode: Mode)
    requires req != [] && AllAnswered(before, req[..|req| - 1], axis, cfg, strict, mode)
    requires Answers(o, req[|req| - 1], axis, cfg, strict, mode)
    ensures AllAnswered(before + [o], req, axis, cfg, strict, mode)
  {
    forall i | 0 <= i < |req|
      ensures Answers((before + [o])[i], req[i], axis, cfg, strict, mode)
    {
      if i < |req| - 1 {
        assert Answers(before[i], req[..|req| - 1][i], axis, cfg, strict, mode);
      }
    }
  }

  lemma {:induction false} AnswersOf(req: seq<Param>, axis: seq<Param>, cfg: Config, strict: bool, mode: Mode)
    returns (answers: seq<Outcome>)
    ensures AllAnswered(answers, req, axis, cfg, strict, mode)
    ensures Answer(answers, Outputs(req, AxisOf(axis), cfg, strict, mode), Winds(req, AxisOf(axis), cfg, strict, mode))
  {
    answers := [];
    if req != [] {
      var n := |req| - 1;
      var before := AnswersOf(req[..n], axis, cfg, strict, mode);
      var o := NormaliseOne(req[n], AxisOf(axis), cfg, strict, mode);
      OneMeaning(req[n], axis, cfg, strict, mode);
      AllAnsweredNext(before, o, req, axis, cfg, strict, mode);
      AnswerNext(before, o, Outputs(req[..n], AxisOf(axis), cfg, strict, mode),
                 Winds(req[..n], AxisOf(axis), cfg, strict, mode));
      answers := before + [o];
    }
  }

  lemma OfPairLast(before: seq<Outcome>, o: Outcome)
    ensures GivenParams(before + [o]) == GivenParams(before) + OutputOf(o)
    ensures forall p :: OfPair(p, before + [o]) <==> OfPair(p, before) || p in WindOf(o)
  {
    var all := before + [o];
    assert all[..|before|] == before && all[|before|] == o;
    forall p
      ensures OfPair(p, all) <==> OfPair(p, before) || p in WindOf(o)
    {
      if OfPair(p, before) {
        var i :| 0 <= i < |before| && before[i].KeptWind? && (p == before[i].vo || p == before[i].d);
        assert all[i] == before[i];
      }
    }
  }

  /** A normalised list is the list of the answers. */
  lemma ListMeaning(req: seq<Param>, axis: seq<Param>, cfg: Config, strict: bool, mode: Mode, out: seq<Param>)
    returns (answers: seq<Outcome>)
    requires Normalised(req, axis, cfg, strict, mode, out)
    ensures AllAnswered(answers, req, axis, cfg, strict, mode) && IsList(out, answers)
    ensures forall p :: OfPair(p, answers) <==> p in Winds(req, AxisOf(axis), cfg, strict, mode)
  {
    answers := AnswersOf(req, axis, cfg, strict, mode);
    var n := |GivenParams(answers)|;
    var added := out[n..];
    forall i, j | n <= i < j < |out|
      ensures out[i].value < out[j].value || (out[i].value == out[j].value && out[i].table < out[j].table)
    {
      assert added[i - n] == out[i] && added[j - n] == out[j];
    }
  }

  /** The param of the axis that has the id of a requested one: that one itself if it is in the axis. */
  ghost predicate IsFound(p: Param, r: Param, axis: seq<Param>) {
    p in axis && p.ParamId() == r.ParamId() && (r in axis ==> p == r)
  }

  lemma OneFound(o: Outcome, r: Param, axis: seq<Param>, cfg: Config, strict: bool, mode: Mode)
    requires Answers(o, r, axis, cfg, strict, mode) && OnAxis(axis, r.ParamId())
    ensures o.Kept? && IsFound(o.p, r, axis)
  {
  }

  lemma {:induction false} AnswersFound(answers: seq<Outcome>, req: seq<Param>, axis: seq<Param>, cfg: Config,
                                        strict: bool, mode: Mode)
    requires AllAnswered(answers, req, axis, cfg, strict, mode)
    requires forall i :: 0 <= i < |req| ==> OnAxis(axis, req[i].ParamId())
    ensures |GivenParams(answers)| == |req| && forall p :: !OfPair(p, answers)
    ensures forall i :: 0 <= i < |req| ==> IsFound(GivenParams(answers)[i], req[i], axis)
  {
    if req != [] {
      var n := |req| - 1;
      AnswersFound(answers[..n], req[..n], axis, cfg, strict, mode);
      assert answers == answers[..n] + [answers[n]];
      OneFound(answers[n], req[n], axis, cfg, strict, mode);
      OfPairLast(answers[..n], answers[n]);
    }
  }

  /** If the ids of all requested params are in the axis, each becomes its param of the axis, in every mode, and
      nothing is added. */
  lemma AllFound(req: seq<Param>, axis: seq<Param>, cfg: Config, strict: bool, mode: Mode, out: seq<Param>)
    requires Normalised(req, axis, cfg, strict, mode, out)
    requires forall i :: 0 <= i < |req| ==> OnAxis(axis, req[i].ParamId())
    ensures |out| == |req| && forall i :: 0 <= i < |req| ==> IsFound(out[i], req[i], axis)
  {
    var answers := ListMeaning(req, axis, cfg, strict, mode, out);
    AnswersFound(answers, req, axis, cfg, strict, mode);
    NoElements(out[|GivenParams(answers)|..]);
  }

  /** The table 128 is no table: 130.128 is found as 130. */
  lemma OldTableIsFound(cfg: Config, strict: bool, mode: Mode, out: seq<Param>)
    requires Normalised([Param(128, 130)], [Param(0, 130)], cfg, strict, mode, out)
    ensures out == [Param(0, 130)]
  {
    assert Param(0, 130) in [Param(0, 130)] && OnAxis([Param(0, 130)], 130);
    AllFound([Param(128, 130)], [Param(0, 130)], cfg, strict, mode, out);
  }
}
