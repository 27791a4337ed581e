/** The printed form of requests, and what the parser makes of it. */
module Printing {
  import opened Requests
  import opened Families
  import opened Parsing

  // ---- printing -------------------------------------------------------------------------

  predicate AllIdent(s: string) {
    forall i :: 0 <= i < |s| ==> InIdent(s[i])
  }

  function Quoted(v: string): string {
    if AllIdent(v) then v else "\"" + v + "\""
  }

  /** The printer leaves exactly the words over this alphabet, and the empty value, without quotes. */
  lemma QuotedMeaning(v: string)
    ensures if forall c :: c in v ==> WordChar(c) then Quoted(v) == v else Quoted(v) == "\"" + v + "\""
  {
    forall i | 0 <= i < |v|
      ensures InIdent(v[i]) <==> WordChar(v[i])
    {
      AlphabetMeaning(v[i]);
    }
  }

  /** Values after the first one, followed by `rest`. */
  function ValuesText(vs: seq<string>, rest: string): string {
    if vs == [] then rest else "/" + (Quoted(vs[0]) + ValuesText(vs[1..], rest))
  }

  function ListText(vs: seq<string>, rest: string): string {
    if vs == [] then rest else Quoted(vs[0]) + ValuesText(vs[1..], rest)
  }

  function ParamText(p: Parameter, rest: string): string {
    ",\n\t" + (p.name + ("=" + ListText(p.values, rest)))
  }

  function ParamsText(ps: seq<Parameter>, rest: string): string {
    if ps == [] then rest else ParamText(ps[0], ParamsText(ps[1..], rest))
  }

  /** The default dump of a request, followed by `rest`. */
  function DumpText(r: Request, rest: string): string {
    r.verb + (if r.params == [] then "," + ("\n\n" + rest) else ParamsText(r.params, "\n\n" + rest))
  }

  function DumpAll(rs: seq<Request>): string {
    if rs == [] then "" else DumpText(rs[0], DumpAll(rs[1..]))
  }

  lemma Assoc(a: string, b: string, c: string)
    ensures a + b + c == a + (b + c)
  {
  }

  lemma NoText(a: string)
    ensures "" + a == a && a + "" == a
  {
  }

  lemma {:induction false} ValuesTextRest(vs: seq<string>, a: string, b: string)
    ensures ValuesText(vs, a) + b == ValuesText(vs, a + b)
  {
    if vs != [] {
      ValuesTextRest(vs[1..], a, b);
      assert ValuesText(vs, a) + b == "/" + (Quoted(vs[0]) + (ValuesText(vs[1..], a) + b));
    }
  }

  lemma ParamTextRest(p: Parameter, a: string, b: string)
    ensures ParamText(p, a) + b == ParamText(p, a + b)
  {
    if p.values != [] {
      ValuesTextRest(p.values[1..], a, b);
    }
    assert ListText(p.values, a) + b == ListText(p.values, a + b);
    assert ParamText(p, a) + b == ",\n\t" + (p.name + ("=" + (ListText(p.values, a) + b)));
  }

  lemma {:induction false} ParamsTextRest(ps: seq<Parameter>, a: string, b: string)
    ensures ParamsText(ps, a) + b == ParamsText(ps, a + b)
  {
    if ps != [] {
      ParamsTextRest(ps[1..], a, b);
      ParamTextRest(ps[0], ParamsText(ps[1..], a), b);
    }
  }

  lemma {:induction false} ParamsTextSnoc(ps: seq<Parameter>, p: Parameter, rest: string)
    ensures ParamsText(ps + [p], rest) == ParamsText(ps, ParamText(p, rest))
  {
    if ps != [] {
      assert (ps + [p])[1..] == ps[1..] + [p];
      ParamsTextSnoc(ps[1..], p, rest);
    }
  }

  lemma {:induction false} ValuesTextSnoc(vs: seq<string>, v: string, rest: string)
    ensures ValuesText(vs + [v], rest) == ValuesText(vs, "/" + (Quoted(v) + rest))
  {
    if vs != [] {
      assert (vs + [v])[1..] == vs[1..] + [v];
      ValuesTextSnoc(vs[1..], v, rest);
    }
  }

  lemma ListTextSnoc(vs: seq<string>, v: string)
    requires vs != []
    ensures ListText(vs + [v], "") == ListText(vs, "") + ("/" + Quoted(v))
  {
    var q := "/" + Quoted(v);
    assert (vs + [v])[1..] == vs[1..] + [v] && (vs + [v])[0] == vs[0];
    NoText(Quoted(v));
    NoText(q);
    ValuesTextSnoc(vs[1..], v, "");
    ValuesTextRest(vs[1..], "", q);
    Assoc(Quoted(vs[0]), ValuesText(vs[1..], ""), q);
  }

  method PrintQuoted(value: string) returns (out: string)
    ensures out == Quoted(value)
    ensures if forall c :: c in value ==> WordChar(c) then out == value else out == "\"" + value + "\""
  {
    var quote := false;
    for j := 0 to |value|
      invariant !quote && AllIdent(value[..j])
    {
      PrefixIdent(value, j);
      if !InIdent(value[j]) {
        quote := true;
        break;
      }
    }
    assert value[..|value|] == value;
    out := if quote then "\"" + value + "\"" else value;
    QuotedMeaning(value);
  }

  lemma PrefixIdent(s: string, j: nat)
    requires j < |s|
    ensures AllIdent(s[..j + 1]) <==> AllIdent(s[..j]) && InIdent(s[j])
  {
    assert s[..j + 1] == s[..j] + [s[j]];
  }

  method DumpValues(vs: seq<string>) returns (out: string)
    ensures out == ListText(vs, "")
  {
    out := "";
    for k := 0 to |vs|
      invariant out == ListText(vs[..k], "")
    {
      if k > 0 {
        ListTextSnoc(vs[..k], vs[k]);
        out := out + "/";
      }
      var v := PrintQuoted(vs[k]);
      TakeOneMore(vs, k);
      assert out + v == if k > 0 then ListText(vs[..k], "") + ("/" + v) else v;
      out := out + v;
    }
    assert vs[..|vs|] == vs;
  }

  /** The parameters as they are printed, each on a line of its own. */
  method DumpParams(ps: seq<Parameter>) returns (out: string)
    requires ps != []
    ensures "," + out == ParamsText(ps, "")
  {
    out := "\n\t";
    for i := 0 to |ps|
      invariant i == 0 ==> out == "\n\t"
      invariant i > 0 ==> "," + out == ParamsText(ps[..i], "")
    {
      if i > 0 {
        out := out + ",";
        out := out + "\n\t";
      }
      var values := DumpValues(ps[i].values);
      DumpStep(ps, i, out, values);
      out := out + ps[i].name + "=" + values;
    }
    assert ps[..|ps|] == ps;
  }

  lemma DumpStep(ps: seq<Parameter>, i: nat, out: string, values: string)
    requires i < |ps| && values == ListText(ps[i].values, "")
    requires if i == 0 then "," + out == ",\n\t" else "," + out == ParamsText(ps[..i], "") + "," + "\n\t"
    ensures "," + (out + ps[i].name + "=" + values) == ParamsText(ps[..i + 1], "")
  {
    var p := ps[i];
    TakeOneMore(ps, i);
    ParamsTextSnoc(ps[..i], p, "");
    ParamsTextRest(ps[..i], "", ParamText(p, ""));
    NoText(ParamText(p, ""));
    if i == 0 {
      assert ps[..0] == [];
      Fields(out, p.name, values, "");
    } else {
      Fields(out, p.name, values, ParamsText(ps[..i], ""));
    }
  }

  lemma Fields(out: string, name: string, values: string, before: string)
    requires "," + out == before + ",\n\t" || "," + out == before + "," + "\n\t"
    ensures "," + (out + name + "=" + values) == before + (",\n\t" + (name + ("=" + values)))
  {
    assert before + "," + "\n\t" == before + ",\n\t";
    Assoc(out + name, "=", values);
    Assoc(out, name, "=" + values);
    Assoc(",", out, name + ("=" + values));
    Assoc(before, ",\n\t", name + ("=" + values));
  }

  /** `dump` with its default arguments */
  method Dump(r: Request) returns (out: string)
    ensures out == DumpText(r, "")
  {
    out := r.verb + ",";
    if r.params != [] {
      var params := DumpParams(r.params);
      DumpEnd(r, params);
      out := out + params;
    }
    out := out + "\n" + "\n";
  }

  lemma DumpEnd(r: Request, params: string)
    requires r.params != [] && "," + params == ParamsText(r.params, "")
    ensures r.verb + "," + params + "\n" + "\n" == DumpText(r, "")
  {
    Assoc(r.verb, ",", params);
    assert r.verb + "," + params + "\n" + "\n" == r.verb + ("," + params) + "\n\n";
    Assoc(r.verb, "," + params, "\n\n");
    ParamsTextRest(r.params, "", "\n\n");
    NoText("\n\n");
  }
}
