/** The loops of `normalise`. */
module Normalising {
  import opened ParamNormalisation
  import opened ParamMeaning

  method FindExactWind(winds: seq<Wind>, id: int, strict: bool, a: Axis) returns (o: Outcome)
    ensures o == ExactWind(winds, id, strict, a)
  {
    for i := 0 to |winds|
      invariant ExactWind(winds, id, strict, a) == ExactWind(winds[i..], id, strict, a)
    {
      var w := winds[i];
      assert winds[i..][0] == w && winds[i..][1..] == winds[i + 1..];
      if (id == w.u.ParamId() || id == w.v.ParamId() || (!strict && (id == w.u.Grib1Value() || id == w.v.Grib1Value())))
         && w.vo in a.params && w.d in a.params {
        if id == w.u.ParamId() || (!strict && id == w.u.Grib1Value()) {
          return KeptWind(w.u, w.vo, w.d);
        }
        return KeptWind(w.v, w.vo, w.d);
      }
    }
    o := Dropped;
  }

  method FindWithTable(tables: seq<nat>, id: int, a: Axis) returns (o: Outcome)
    ensures o == WithTable(tables, id, a)
  {
    for i := 0 to |tables|
      invariant WithTable(tables, id, a) == WithTable(tables[i..], id, a)
    {
      assert tables[i..][0] == tables[i] && tables[i..][1..] == tables[i + 1..];
      var key := ReplaceTable(tables[i], id);
      if key in a.byId {
        return Kept(a.byId[key]);
      }
    }
    o := Dropped;
  }

  method FindWindWithTable(tables: seq<nat>, w: Wind, id: int, a: Axis) returns (o: Outcome)
    ensures o == WindWithTable(tables, w, id, a)
  {
    for i := 0 to |tables|
      invariant WindWithTable(tables, w, id, a) == WindWithTable(tables[i..], w, id, a)
    {
      var t := tables[i];
      assert tables[i..][0] == t && tables[i..][1..] == tables[i + 1..];
      var vo, d := ReplaceTable(t, w.vo.ParamId()), ReplaceTable(t, w.d.ParamId());
      if vo in a.byId && d in a.byId {
        var grib1 := a.byId[vo].table > 0;
        return KeptWind(if grib1 then Param(t, id) else Param(0, ReplaceTable(t, id)), a.byId[vo], a.byId[d]);
      }
    }
    o := Dropped;
  }

  method FindPartialWind(winds: seq<Wind>, tables: seq<nat>, id: int, a: Axis) returns (o: Outcome)
    ensures o == PartialWind(winds, tables, id, a)
  {
    for i := 0 to |winds|
      invariant PartialWind(winds, tables, id, a) == PartialWind(winds[i..], tables, id, a)
    {
      var w := winds[i];
      assert winds[i..][0] == w && winds[i..][1..] == winds[i + 1..];
      if id == w.u.ParamId() || id == w.v.ParamId() {
        o := FindWindWithTable(tables, w, id, a);
        if !o.Dropped? {
          return;
        }
      }
    }
    o := Dropped;
  }

  /** The map is ordered by param id: the first match is the smallest. */
  method FindDropTable(a: Axis, id: int) returns (o: Outcome)
    ensures o == DropTable(a, id)
  {
    var rest := a.byId.Keys;
    var found, best := false, 0;
    while rest != {}
      invariant rest <= a.byId.Keys
      invariant found ==> SameShortId(a, id, best)
      invariant forall k :: k in a.byId.Keys - rest && SameShortId(a, id, k) ==> found && best <= k
      decreases rest
    {
      ghost var some := AnyElement(rest);
      var k :| k in rest;
      rest := rest - {k};
      if Rem(k, 1000) == Rem(id, 1000) && (!found || k < best) {
        found, best := true, k;
      }
    }
    if !found {
      return Dropped;
    }
    assert Smallest(a, id) == best;
    o := Kept(a.byId[best]);
  }

  method NormaliseParam(r: Param, a: Axis, cfg: Config, strict: bool, mode: Mode) returns (o: Outcome)
    ensures o == NormaliseOne(r, a, cfg, strict, mode)
  {
    if r in a.params {
      return Kept(r);
    }
    var id := r.ParamId();
    if id in a.byId {
      return Kept(a.byId[id]);
    }
    o := FindExactWind(cfg.winds, id, strict, a);
    if o.Dropped? && !strict && r.table == 0 && id < 1000 {
      o := FindWithTable(cfg.dropTables, id, a);
      if o.Dropped? {
        o := FindPartialWind(cfg.winds, cfg.dropTables, id, a);
      }
      if mode == FullTableDropping && o.Dropped? {
        o := FindDropTable(a, id);
      }
    }
  }

  method IndexAxis(axis: seq<Param>) returns (a: Axis)
    ensures a == AxisOf(axis)
  {
    var params: set<Param>, byId: map<int, Param> := {}, map[];
    for i := 0 to |axis|
      invariant Axis(params, byId) == AxisOf(axis[..i])
    {
      assert axis[..i + 1][..i] == axis[..i];
      params := params + {axis[i]};
      byId := byId[axis[i].ParamId() := axis[i]];
    }
    assert axis[..|axis|] == axis;
    a := Axis(params, byId);
  }

  lemma Compared(p: Param, m: Param)
    ensures p == m || p.Less(m) || m.Less(p)
    ensures p.Less(m) ==> forall q: Param :: m.Less(q) ==> p.Less(q)
  {
  }

  method Smaller(wind: set<Param>) returns (m: Param)
    requires wind != {}
    ensures m in wind && forall p :: p in wind && p != m ==> m.Less(p)
  {
    m :| m in wind;
    var rest := wind - {m};
    while rest != {}
      invariant m in wind - rest && rest <= wind
      invariant forall p :: p in wind - rest && p != m ==> m.Less(p)
      decreases rest
    {
      var p :| p in rest;
      rest := rest - {p};
      Compared(p, m);
      if p.Less(m) {
        m := p;
      }
    }
  }

  /** The missing wind params, in increasing order. */
  method MissingWinds(wind: set<Param>, outputs: seq<Param>) returns (added: seq<Param>)
    ensures Increasing(added) && forall p :: p in added <==> p in wind && p !in outputs
  {
    added := [];
    var rest := wind;
    while rest != {}
      invariant rest <= wind && Increasing(added)
      invariant forall p :: p in added <==> p in wind - rest && p !in outputs
      invariant forall p, q :: p in wind - rest && q in rest ==> p.Less(q)
      decreases rest
    {
      var w := Smaller(rest);
      rest := rest - {w};
      if w !in outputs && w !in added {
        added := added + [w];
      }
    }
  }

  lemma OutputsNext(req: seq<Param>, i: nat, a: Axis, cfg: Config, strict: bool, mode: Mode)
    requires i < |req|
    ensures var o := NormaliseOne(req[i], a, cfg, strict, mode);
            && Outputs(req[..i + 1], a, cfg, strict, mode) == Outputs(req[..i], a, cfg, strict, mode) + OutputOf(o)
            && Winds(req[..i + 1], a, cfg, strict, mode) == Winds(req[..i], a, cfg, strict, mode) + WindOf(o)
  {
    assert req[..i + 1][..i] == req[..i];
  }

  /** `normalise`: the new list, and whether a wind conversion is needed. */
  method Normalise(req: seq<Param>, axis: seq<Param>, windConversion: bool, cfg: Config, useGribParamId: bool,
                   mode: Mode)
    returns (out: seq<Param>, converted: bool)
    ensures Normalised(req, axis, cfg, useGribParamId || mode == Strict, mode, out)
    ensures converted == (windConversion || Winds(req, AxisOf(axis), cfg, useGribParamId || mode == Strict, mode) != {})
    ensures exists answers ::
              && AllAnswered(answers, req, axis, cfg, useGribParamId || mode == Strict, mode) && IsList(out, answers)
              && (converted <==> windConversion || exists p :: OfPair(p, answers))
  {
    var strict := useGribParamId || mode == Strict;
    var a := IndexAxis(axis);
    var wind: set<Param> := {};
    out, converted := [], windConversion;
    for i := 0 to |req|
      invariant out == Outputs(req[..i], a, cfg, strict, mode)
      invariant wind == Winds(req[..i], a, cfg, strict, mode)
      invariant converted == (windConversion || wind != {})
    {
      OutputsNext(req, i, a, cfg, strict, mode);
      var o := NormaliseParam(req[i], a, cfg, strict, mode);
      match o {
        case Dropped =>
        case Kept(p) => out := out + [p];
        case KeptWind(p, vo, d) =>
          out := out + [p];
          wind := wind + {vo, d};
          converted := true;
          assert vo in wind;
      }
    }
    assert req[..|req|] == req;
    var added := MissingWinds(wind, out);
    ghost var outputs := out;
    out := out + added;
    assert out[|outputs|..] == added;
    ghost var answers := ListMeaning(req, axis, cfg, strict, mode, out);
    assert wind == {} || exists p :: p in wind;
  }
}
