/** Parsing what was printed gives the requests back. */
module RoundTrip {
  import opened Requests
  import opened Families
  import opened Results
  import opened Parsing
  import opened Printing

  // ---- the requests in question ---------------------------------------------------------

  /** Values are printed without escapes, and the stream drops comments. */
  predicate Clean(v: string) {
    '"' !in v && '\\' !in v && '#' !in v
  }

  predicate AllClean(vs: seq<string>) {
    forall i :: 0 <= i < |vs| ==> Clean(vs[i])
  }

  predicate ValidVerb(v: string) {
    v != "" && (IsAlpha(v[0]) || v[0] == '_') && AllIdent(v)
  }

  predicate ValidParam(p: Parameter) {
    p.name != "" && AllIdent(p.name) && p.values != [] && AllClean(p.values)
  }

  predicate ValidParams(ps: seq<Parameter>) {
    forall i :: 0 <= i < |ps| ==> ValidParam(ps[i])
  }

  predicate ValidRequest(r: Request) {
    ValidVerb(r.verb) && r.params != [] && ValidParams(r.params)
  }

  /** The last value of the last parameter. */
  function LastValue(ps: seq<Parameter>): string
    requires ps != [] && ps[|ps| - 1].values != []
  {
    var vs := ps[|ps| - 1].values;
    vs[|vs| - 1]
  }

  // ---- identifiers and strings ----------------------------------------------------------

  /** Where an identifier ends, and no blank makes it go on. */
  predicate Stops(rest: string) {
    rest == "" || (!InIdent(rest[0]) && rest[0] != ' ')
  }

  lemma {:induction false} IdentBack(s: string, rest: string)
    requires AllIdent(s) && (rest == "" || !InIdent(rest[0]))
    ensures IdentLength(s + rest) == |s|
  {
    if s != "" {
      assert (s + rest)[1..] == s[1..] + rest && (s + rest)[0] == s[0];
      IdentBack(s[1..], rest);
    } else {
      NoText(rest);
    }
  }

  lemma WordBack(s: string, rest: string)
    requires s != "" && AllIdent(s) && (rest == "" || !InIdent(rest[0]))
    ensures IndentOf(s + rest) == Read(s, rest)
  {
    IdentBack(s, rest);
    assert (s + rest)[0] == s[0] && SkipSpaces(s + rest) == s + rest;
    assert (s + rest)[..|s|] == s && (s + rest)[|s|..] == rest;
  }

  lemma IndentBack(s: string, rest: string)
    requires s != "" && AllIdent(s) && Stops(rest)
    ensures IndentOf(s + rest) == Read(s, rest) && IndentsOf(s + rest) == Read(s, rest)
  {
    WordBack(s, rest);
  }

  lemma {:induction false} StringBack(v: string, s: string, rest: string)
    requires Clean(v)
    ensures StringOf('"', s, v + ("\"" + rest)) == Ok(Read(s + v, rest))
  {
    var t := v + ("\"" + rest);
    if v == "" {
      NoText(s);
      assert t == "\"" + rest && t[1..] == rest;
    } else {
      assert t[0] == v[0] && t[1..] == v[1..] + ("\"" + rest);
      assert v[0] in v && forall c :: c in v[1..] ==> c in v;
      StringBack(v[1..], s + [v[0]], rest);
      assert s + [v[0]] + v[1..] == s + v;
    }
  }

  // ---- what a quoted string can hold ----------------------------------------------------

  /** A backslash in front of the characters that need one. */
  function Escape(v: string): string {
    if v == "" then ""
    else (if v[0] == '"' || v[0] == '\\' then ['\\', v[0]] else [v[0]]) + Escape(v[1..])
  }

  lemma PlainChar(s: string, c: char, more: string)
    requires c != '\\' && c != '"'
    ensures StringOf('"', s, [c] + more) == StringOf('"', s + [c], more)
  {
    assert ([c] + more)[1..] == more;
  }

  lemma EscapedChar(s: string, c: char, more: string)
    requires c == '\\' || c == '"'
    ensures StringOf('"', s, ['\\', c] + more) == StringOf('"', s + [c], more)
  {
    assert (['\\', c] + more)[2..] == more;
  }

  /** Every string has a quoted form that is read back, although the printer does not write it. */
  lemma {:induction false} EscapedBack(v: string, s: string, rest: string)
    ensures StringOf('"', s, Escape(v) + ("\"" + rest)) == Ok(Read(s + v, rest))
  {
    if v == "" {
      NoText(s);
      NoText("\"" + rest);
      assert ("\"" + rest)[1..] == rest;
    } else {
      var more := Escape(v[1..]) + ("\"" + rest);
      EscapedBack(v[1..], s + [v[0]], rest);
      MoveFirst(s, v);
      if v[0] == '"' || v[0] == '\\' {
        EscapedChar(s, v[0], more);
        Assoc(['\\', v[0]], Escape(v[1..]), "\"" + rest);
      } else {
        PlainChar(s, v[0], more);
        Assoc([v[0]], Escape(v[1..]), "\"" + rest);
      }
    }
  }

  function Blanks(n: nat): string {
    if n == 0 then "" else " " + Blanks(n - 1)
  }

  lemma {:induction false} SkipSomeBlanks(n: nat, t: string)
    requires t == "" || t[0] != ' '
    ensures SkipBlanks(Blanks(n) + t) == t
  {
    if n == 0 {
      NoText(t);
    } else {
      assert (Blanks(n) + t)[1..] == Blanks(n - 1) + t;
      SkipSomeBlanks(n - 1, t);
    }
  }

  /** However many blanks stand between two words, the value has one. */
  lemma BlanksAreJoined(a: string, n: nat, b: string, rest: string)
    requires a != "" && AllIdent(a) && b != "" && AllIdent(b) && n > 0
    requires Stops(rest)
    ensures IndentsOf(a + (Blanks(n) + (b + rest))) == Read(a + " " + b, rest)
  {
    var more := Blanks(n) + (b + rest);
    assert more[0] == ' ' && (b + rest)[0] == b[0];
    WordBack(a, more);
    SkipSomeBlanks(n, b + rest);
    WordBack(b, rest);
    assert MoreIndents(a, more) == MoreIndents(a + " " + b, rest);
  }

  // ---- values ---------------------------------------------------------------------------

  /** The text after a value does not become part of it. */
  predicate Follows(v: string, rest: string) {
    if v == "" then SkipSpaces(rest) == "" || (rest != "" && rest[0] in "/,") else Stops(rest)
  }

  lemma Separated(v: string, rest: string)
    requires rest != "" && rest[0] in "/,"
    ensures Follows(v, rest) && Peek(rest) == rest[0]
  {
  }

  /** The value is read, and nothing but spaces after it. */
  ghost predicate ReadsBack(r: Result<Read<string>>, v: string, rest: string) {
    r.Ok? && r.value.value == v && SkipSpaces(r.value.rest) == SkipSpaces(rest)
  }

  lemma EmptyBack(rest: string)
    requires Follows("", rest)
    ensures ReadsBack(ValueOf(rest), "", rest)
  {
    var u := SkipSpaces(rest);
    assert u != "" ==> u == rest;
    assert IndentOf(u) == Read("", u);
  }

  lemma PlainBack(v: string, rest: string)
    requires v != "" && AllIdent(v) && Stops(rest)
    ensures ValueOf(v + rest) == Ok(Read(v, rest))
  {
    IndentBack(v, rest);
    assert (v + rest)[0] == v[0];
  }

  lemma QuotedBack(v: string, rest: string)
    requires Clean(v)
    ensures ValueOf("\"" + v + "\"" + rest) == Ok(Read(v, rest))
  {
    var t := "\"" + v + "\"" + rest;
    assert t[0] == '"' && t[1..] == v + ("\"" + rest);
    StringBack(v, "", rest);
    NoText(v);
  }

  lemma ValueBack(v: string, rest: string)
    requires Clean(v) && Follows(v, rest)
    ensures ReadsBack(ValueOf(Quoted(v) + rest), v, rest)
  {
    if v == "" {
      NoText(rest);
      EmptyBack(rest);
    } else if AllIdent(v) {
      PlainBack(v, rest);
    } else {
      QuotedBack(v, rest);
    }
  }

  lemma MoreValuesStep(acc: seq<string>, t: string, v: string, rest: string)
    requires t != "" && t[0] == '/' && ReadsBack(ValueOf(t[1..]), v, rest)
    ensures MoreValues(acc, t) == MoreValues(acc + [v], rest)
  {
  }

  lemma CleanTail(vs: seq<string>)
    requires vs != [] && AllClean(vs)
    ensures AllClean(vs[1..]) && (|vs| > 1 ==> vs[1..][|vs[1..]| - 1] == vs[|vs| - 1])
  {
  }

  /** The values of a list are read back one by one. */
  lemma {:induction false} ValuesBack(acc: seq<string>, vs: seq<string>, rest: string)
    requires AllClean(vs) && (vs != [] ==> Follows(vs[|vs| - 1], rest))
    ensures MoreValues(acc, ValuesText(vs, rest)) == MoreValues(acc + vs, rest)
    decreases |vs|
  {
    if vs == [] {
      assert acc + vs == acc;
    } else {
      var more := ValuesText(vs[1..], rest);
      var t := ValuesText(vs, rest);
      assert t[0] == '/' && t[1..] == Quoted(vs[0]) + more;
      assert |vs| > 1 ==> more[0] == '/';
      ValueBack(vs[0], more);
      MoreValuesStep(acc, t, vs[0], more);
      CleanTail(vs);
      ValuesBack(acc + [vs[0]], vs[1..], rest);
      MoveFirst(acc, vs);
    }
  }

  lemma FirstValue(t: string, v: string, rest: string)
    requires ReadsBack(ValueOf(t), v, rest)
    ensures ValuesOfText(t) == MoreValues([v], rest)
  {
  }

  lemma ListBack(vs: seq<string>, rest: string)
    requires vs != [] && AllClean(vs) && Follows(vs[|vs| - 1], rest)
    ensures ValuesOfText(ListText(vs, rest)) == MoreValues(vs, rest)
  {
    var more := ValuesText(vs[1..], rest);
    if |vs| > 1 {
      Separated(vs[0], more);
    }
    ValueBack(vs[0], more);
    FirstValue(ListText(vs, rest), vs[0], more);
    ValuesBack([vs[0]], vs[1..], rest);
    assert [vs[0]] + vs[1..] == vs;
  }

  // ---- parameters -----------------------------------------------------------------------

  function SetAll(acc: seq<Parameter>, ps: seq<Parameter>): seq<Parameter>
    decreases |ps|
  {
    if ps == [] then acc else SetAll(SetValues(acc, ps[0].name, ps[0].values), ps[1..])
  }

  /** What `ParamOf` does with a printed parameter depends on its list only. */
  lemma KeyBack(ps: seq<Parameter>, name: string, list: string)
    requires name != "" && AllIdent(name)
    ensures var r, vs := ParamOf(ps, "\n\t" + (name + ("=" + list))), ValuesOfText(list);
            if vs.Error? then r.Error? else r == Ok(Read(SetValues(ps, name, vs.value.value), vs.value.rest))
  {
    var t := name + ("=" + list);
    IndentBack(name, "=" + list);
    assert t[0] == name[0];
    SkipLine(t);
    IndentsSkip("\n\t" + t, t);
    ParamOfParts(ps, "\n\t" + t, name, "=" + list, list);
  }

  lemma IndentsSkip(t: string, u: string)
    requires SkipSpaces(t) == SkipSpaces(u)
    ensures IndentsOf(t) == IndentsOf(u)
  {
  }

  lemma ParamOfParts(ps: seq<Parameter>, t: string, name: string, rest: string, list: string)
    requires IndentsOf(t) == Read(name, rest) && rest == "=" + list
    ensures var r, vs := ParamOf(ps, t), ValuesOfText(list);
            if vs.Error? then r.Error? else r == Ok(Read(SetValues(ps, name, vs.value.value), vs.value.rest))
  {
    assert rest[0] == '=' && rest[1..] == list;
  }

  lemma OneSpace(c: char, t: string)
    requires IsSpace(c)
    ensures SkipSpaces([c] + t) == SkipSpaces(t)
  {
    assert ([c] + t)[1..] == t;
  }

  lemma SkipLine(t: string)
    requires t != "" && !IsSpace(t[0])
    ensures SkipSpaces("\n\t" + t) == t && SkipSpaces("\n\n" + t) == t
  {
    OneSpace('\t', t);
    OneSpace('\n', t);
    OneSpace('\n', "\t" + t);
    OneSpace('\n', "\n" + t);
    assert "\n\t" + t == ['\n'] + ("\t" + t) && "\n\n" + t == ['\n'] + ("\n" + t);
  }

  lemma MoreParamsStep(acc: seq<Parameter>, name: string, list: string)
    requires name != "" && AllIdent(name)
    ensures var t, vs := ",\n\t" + (name + ("=" + list)), ValuesOfText(list);
            MoreParams(acc, t)
            == if vs.Error? then Error else MoreParams(SetValues(acc, name, vs.value.value), vs.value.rest)
  {
    var t := ",\n\t" + (name + ("=" + list));
    assert t[0] == ',' && t[1..] == "\n\t" + (name + ("=" + list));
    KeyBack(acc, name, list);
  }

  lemma ListEnds(vs: seq<string>, rest: string)
    requires Peek(rest) != '/'
    ensures MoreValues(vs, rest) == Ok(Read(vs, SkipSpaces(rest)))
  {
  }

  lemma SkipTwice(t: string)
    ensures SkipSpaces(SkipSpaces(t)) == SkipSpaces(t)
  {
  }

  lemma MoreParamsSkip(acc: seq<Parameter>, t: string)
    ensures MoreParams(acc, SkipSpaces(t)) == MoreParams(acc, t)
  {
    SkipTwice(t);
  }

  lemma ParamBack(acc: seq<Parameter>, p: Parameter, rest: string)
    requires ValidParam(p) && Follows(p.values[|p.values| - 1], rest) && Peek(rest) != '/'
    ensures MoreParams(acc, ParamText(p, rest)) == MoreParams(SetValues(acc, p.name, p.values), rest)
  {
    ListRead(p.values, rest);
    ParamEnds(acc, p.name, p.values, ListText(p.values, rest), rest);
  }

  lemma ListRead(vs: seq<string>, rest: string)
    requires vs != [] && AllClean(vs) && Follows(vs[|vs| - 1], rest) && Peek(rest) != '/'
    ensures ValuesOfText(ListText(vs, rest)) == Ok(Read(vs, SkipSpaces(rest)))
  {
    ListBack(vs, rest);
    ListEnds(vs, rest);
  }

  lemma ParamEnds(acc: seq<Parameter>, name: string, vs: seq<string>, list: string, rest: string)
    requires name != "" && AllIdent(name) && ValuesOfText(list) == Ok(Read(vs, SkipSpaces(rest)))
    ensures MoreParams(acc, ",\n\t" + (name + ("=" + list))) == MoreParams(SetValues(acc, name, vs), rest)
  {
    MoreParamsStep(acc, name, list);
    MoreParamsSkip(SetValues(acc, name, vs), rest);
  }

  lemma {:induction false} ParamsBack(acc: seq<Parameter>, ps: seq<Parameter>, rest: string)
    requires ValidParams(ps) && (ps != [] ==> Follows(LastValue(ps), rest)) && Peek(rest) != '/'
    ensures MoreParams(acc, ParamsText(ps, rest)) == MoreParams(SetAll(acc, ps), rest)
    decreases |ps|
  {
    if ps != [] {
      var p, more := ps[0], ParamsText(ps[1..], rest);
      if |ps| > 1 {
        Separated(p.values[|p.values| - 1], more);
      }
      ParamBack(acc, p, more);
      ParamsBack(SetValues(acc, ps[0].name, ps[0].values), ps[1..], rest);
    }
  }

  // ---- requests -------------------------------------------------------------------------

  function ParsedRequest(r: Request): Request {
    Request(r.verb, SetAll([], r.params))
  }

  /** What may come after a request: the end, or the verb of another one. */
  predicate Separate(rest: string) {
    rest == "" || IsAlpha(rest[0]) || rest[0] == '_'
  }

  lemma SkipEnd(rest: string)
    requires Separate(rest)
    ensures SkipSpaces("\n\n" + rest) == rest
  {
    if rest == "" {
      assert "\n\n" + rest == "\n\n" && "\n\n"[1..] == "\n" && "\n"[1..] == "";
    } else {
      SkipLine(rest);
    }
  }

  lemma VerbBack(verb: string, more: string)
    requires ValidVerb(verb) && more != "" && more[0] == ','
    ensures Peek(verb + more) == verb[0] && IndentOf(verb + more) == Read(verb, more)
  {
    IndentBack(verb, more);
    assert (verb + more)[0] == verb[0];
  }

  lemma RequestFromParams(verb: string, more: string)
    requires ValidVerb(verb) && more != "" && more[0] == ','
    ensures var ps := MoreParams([], more);
            RequestOf(verb + more) ==
            if ps.Error? then Error else Ok(Read(Request(verb, ps.value.value), SkipDot(SkipSpaces(ps.value.rest))))
    ensures Peek(verb + more) == verb[0]
  {
    VerbBack(verb, more);
  }

  /** A printed request is read back, unless it ends with an empty value and another request follows. */
  lemma RequestBack(r: Request, rest: string)
    requires ValidRequest(r) && Separate(rest) && (rest == "" || LastValue(r.params) != "")
    ensures RequestOf(DumpText(r, rest)) == Ok(Read(ParsedRequest(r), rest))
  {
    SkipEnd(rest);
    RequestFromParams(r.verb, ParamsText(r.params, "\n\n" + rest));
    ParamsBack([], r.params, "\n\n" + rest);
  }

  // ---- an empty value before another request --------------------------------------------

  /** The last value replaced. */
  function FillList(vs: seq<string>, v: string): seq<string>
    requires vs != []
  {
    vs[..|vs| - 1] + [v]
  }

  function Fill(ps: seq<Parameter>, v: string): seq<Parameter>
    requires ps != [] && ps[|ps| - 1].values != []
  {
    var p := ps[|ps| - 1];
    ps[..|ps| - 1] + [p.(values := FillList(p.values, v))]
  }

  /** The parser takes the verb of the second request for the missing value, and its parameters for
      parameters of the first. */
  function Absorb(r: Request, q: Request): Request
    requires ValidRequest(r)
  {
    Request(r.verb, Fill(r.params, q.verb) + q.params)
  }

  lemma ValueOfVerb(verb: string, more: string)
    requires ValidVerb(verb) && more != "" && more[0] == ','
    ensures ValueOf("\n\n" + (verb + more)) == ValueOf(verb + more)
    ensures Quoted(verb) == verb
  {
    assert (verb + more)[0] == verb[0];
    SkipLine(verb + more);
  }

  lemma FilledList(vs: seq<string>, verb: string, more: string)
    requires vs != [] && AllClean(vs) && vs[|vs| - 1] == "" && ValidVerb(verb) && more != "" && more[0] == ','
    ensures ValuesOfText(ListText(vs, "\n\n" + (verb + more))) == ValuesOfText(ListText(FillList(vs, verb), more))
  {
    var rest, init := "\n\n" + (verb + more), vs[..|vs| - 1];
    ValueOfVerb(verb, more);
    NoText(rest);
    if |vs| == 1 {
      assert vs == [""] && FillList(vs, verb) == [verb];
      assert ListText(vs, rest) == rest && ListText([verb], more) == verb + more;
    } else {
      assert vs == init + [""];
      ListSnoc(init, "", rest);
      ListSnoc(init, verb, more);
      SameNextValue(init, rest, verb + more);
    }
  }

  lemma SameNextValue(vs: seq<string>, a: string, b: string)
    requires vs != [] && AllClean(vs) && ValueOf(a) == ValueOf(b)
    ensures ValuesOfText(ListText(vs, "/" + a)) == ValuesOfText(ListText(vs, "/" + b))
  {
    Separated(vs[|vs| - 1], "/" + a);
    Separated(vs[|vs| - 1], "/" + b);
    ListBack(vs, "/" + a);
    ListBack(vs, "/" + b);
    NextValue(vs, a);
    NextValue(vs, b);
  }

  lemma NextValue(vs: seq<string>, t: string)
    ensures var v := ValueOf(t);
            MoreValues(vs, "/" + t) == if v.Error? then Error else MoreValues(vs + [v.value.value], v.value.rest)
  {
    assert ("/" + t)[1..] == t;
  }

  lemma ListSnoc(vs: seq<string>, v: string, rest: string)
    requires vs != []
    ensures ListText(vs + [v], rest) == ListText(vs, "/" + (Quoted(v) + rest))
  {
    assert (vs + [v])[1..] == vs[1..] + [v];
    ValuesTextSnoc(vs[1..], v, rest);
  }

  lemma FilledParam(acc: seq<Parameter>, p: Parameter, verb: string, more: string)
    requires ValidParam(p) && p.values[|p.values| - 1] == "" && ValidVerb(verb) && more != "" && more[0] == ','
    ensures MoreParams(acc, ParamText(p, "\n\n" + (verb + more)))
            == MoreParams(acc, ParamText(p.(values := FillList(p.values, verb)), more))
  {
    FilledList(p.values, verb, more);
    MoreParamsStep(acc, p.name, ListText(p.values, "\n\n" + (verb + more)));
    MoreParamsStep(acc, p.name, ListText(FillList(p.values, verb), more));
  }

  lemma FilledParams(ps: seq<Parameter>, verb: string, more: string)
    requires ps != [] && ValidParams(ps) && LastValue(ps) == "" && ValidVerb(verb) && more != "" && more[0] == ','
    ensures MoreParams([], ParamsText(ps, "\n\n" + (verb + more))) == MoreParams([], ParamsText(Fill(ps, verb), more))
  {
    var n := |ps| - 1;
    var p, init, rest := ps[n], ps[..n], "\n\n" + (verb + more);
    var q := p.(values := FillList(p.values, verb));
    assert ps == init + [p];
    ParamsTextSnoc(init, p, rest);
    ParamsTextSnoc(init, q, more);
    ParamsBack([], init, ParamText(p, rest));
    ParamsBack([], init, ParamText(q, more));
    FilledParam(SetAll([], init), p, verb, more);
  }

  lemma {:induction false} ParamsTextAppend(ps: seq<Parameter>, qs: seq<Parameter>, rest: string)
    ensures ParamsText(ps + qs, rest) == ParamsText(ps, ParamsText(qs, rest))
  {
    if ps == [] {
      assert ps + qs == qs;
    } else {
      assert (ps + qs)[1..] == ps[1..] + qs;
      ParamsTextAppend(ps[1..], qs, rest);
    }
  }

  /** A request that ends with an empty value is read as one with the request after it. */
  lemma AbsorbedBack(r: Request, q: Request, rest: string)
    requires ValidRequest(r) && ValidRequest(q) && LastValue(r.params) == ""
    ensures RequestOf(DumpText(r, DumpText(q, rest))) == RequestOf(DumpText(Absorb(r, q), rest))
  {
    var more := ParamsText(q.params, "\n\n" + rest);
    RequestFromParams(r.verb, ParamsText(r.params, "\n\n" + (q.verb + more)));
    RequestFromParams(r.verb, ParamsText(Fill(r.params, q.verb), more));
    FilledParams(r.params, q.verb, more);
    ParamsTextAppend(Fill(r.params, q.verb), q.params, "\n\n" + rest);
  }

  lemma AbsorbIsValid(r: Request, q: Request)
    requires ValidRequest(r) && ValidRequest(q)
    ensures ValidRequest(Absorb(r, q)) && LastValue(Absorb(r, q).params) == LastValue(q.params)
  {
    forall i | 0 <= i < |q.verb|
      ensures q.verb[i] != '"' && q.verb[i] != '\\' && q.verb[i] != '#'
    {
    }
    assert Clean(q.verb);
    assert AllClean(FillList(r.params[|r.params| - 1].values, q.verb));
    assert ValidParams(Fill(r.params, q.verb));
  }

  // ---- lists of requests ----------------------------------------------------------------

  predicate AllValid(rs: seq<Request>) {
    forall i :: 0 <= i < |rs| ==> ValidRequest(rs[i])
  }

  /** The first two requests as one. */
  function AbsorbFirst(rs: seq<Request>): (qs: seq<Request>)
    requires AllValid(rs) && |rs| > 1
    ensures AllValid(qs) && |qs| == |rs| - 1
  {
    AbsorbIsValid(rs[0], rs[1]);
    [Absorb(rs[0], rs[1])] + rs[2..]
  }

  /** The requests that the parser finds in the printed list. */
  function Found(rs: seq<Request>): seq<Request>
    requires AllValid(rs)
    decreases |rs|
  {
    if rs == [] then []
    else if |rs| > 1 && LastValue(rs[0].params) == "" then Found(AbsorbFirst(rs))
    else [ParsedRequest(rs[0])] + Found(rs[1..])
  }

  lemma DumpStarts(rs: seq<Request>)
    requires AllValid(rs)
    ensures Separate(DumpAll(rs)) && Peek(DumpAll(rs)) == if rs == [] then '\0' else rs[0].verb[0]
  {
    if rs != [] {
      assert DumpAll(rs)[0] == rs[0].verb[0];
    }
  }

  lemma {:induction false} FoundIsParsed(acc: seq<Request>, rs: seq<Request>)
    requires AllValid(rs)
    ensures MoreRequests(acc, DumpAll(rs)) == Ok(acc + Found(rs))
    decreases |rs|
  {
    DumpStarts(rs);
    if rs == [] {
      assert acc + [] == acc;
    } else if |rs| > 1 && LastValue(rs[0].params) == "" {
      var qs := AbsorbFirst(rs);
      DumpStarts(qs);
      AbsorbedBack(rs[0], rs[1], DumpAll(rs[2..]));
      assert DumpAll(rs[1..]) == DumpText(rs[1], DumpAll(rs[2..])) by { assert rs[1..][1..] == rs[2..]; }
      assert qs[1..] == rs[2..];
      SameRequest(acc, DumpAll(rs), DumpAll(qs));
      FoundIsParsed(acc, qs);
    } else {
      DumpStarts(rs[1..]);
      RequestBack(rs[0], DumpAll(rs[1..]));
      FoundIsParsed(acc + [ParsedRequest(rs[0])], rs[1..]);
      assert acc + [ParsedRequest(rs[0])] + Found(rs[1..]) == acc + Found(rs);
    }
  }

  lemma SameRequest(acc: seq<Request>, t: string, u: string)
    requires Peek(t) != '\0' && Peek(u) != '\0' && RequestOf(t) == RequestOf(u)
    ensures MoreRequests(acc, t) == MoreRequests(acc, u)
  {
  }

  // ---- comments -------------------------------------------------------------------------

  lemma {:induction false} NoComments(t: string)
    requires '#' !in t
    ensures WithoutComments(t, false) == t
  {
    if t != [] {
      assert t[0] in t && forall c :: c in t[1..] ==> c in t;
      NoComments(t[1..]);
      assert t == [t[0]] + t[1..];
    }
  }

  lemma IdentNoHash(s: string)
    requires AllIdent(s)
    ensures '#' !in s
  {
  }

  lemma {:induction false} ValuesNoHash(vs: seq<string>, rest: string)
    requires AllClean(vs) && '#' !in rest
    ensures '#' !in ValuesText(vs, rest) && '#' !in ListText(vs, rest)
  {
    if vs != [] {
      ValuesNoHash(vs[1..], rest);
      assert '#' !in Quoted(vs[0]);
    }
  }

  lemma {:induction false} ParamsNoHash(ps: seq<Parameter>, rest: string)
    requires ValidParams(ps) && '#' !in rest
    ensures '#' !in ParamsText(ps, rest)
  {
    if ps != [] {
      ParamsNoHash(ps[1..], rest);
      ValuesNoHash(ps[0].values, ParamsText(ps[1..], rest));
      IdentNoHash(ps[0].name);
    }
  }

  lemma {:induction false} DumpNoHash(rs: seq<Request>)
    requires AllValid(rs)
    ensures '#' !in DumpAll(rs)
  {
    if rs != [] {
      DumpNoHash(rs[1..]);
      IdentNoHash(rs[0].verb);
      ParamsNoHash(rs[0].params, "\n\n" + DumpAll(rs[1..]));
    }
  }

  /** What parsing a printed list of requests gives, whatever its keys and last values are. */
  lemma ParseOfDump(rs: seq<Request>)
    requires AllValid(rs)
    ensures Parse(DumpAll(rs)) == Ok(Found(rs))
  {
    DumpNoHash(rs);
    NoComments(DumpAll(rs));
    FoundIsParsed([], rs);
    assert [] + Found(rs) == Found(rs);
  }

  // ---- the round trip -------------------------------------------------------------------

  /** The request with the type that the parser gives to every key. */
  function Untyped(r: Request): Request {
    Request(r.verb, UntypedParams(r.params))
  }

  function UntypedParams(ps: seq<Parameter>): seq<Parameter> {
    seq(|ps|, i requires 0 <= i < |ps| => Parameter(ps[i].name, true, ps[i].values))
  }

  function AllUntyped(rs: seq<Request>): seq<Request> {
    seq(|rs|, i requires 0 <= i < |rs| => Untyped(rs[i]))
  }

  lemma {:induction false} SetAllDistinct(ps: seq<Parameter>, n: nat)
    requires DistinctNames(ps) && n <= |ps|
    ensures SetAll(UntypedParams(ps[..n]), ps[n..]) == UntypedParams(ps)
    decreases |ps| - n
  {
    if n == |ps| {
      assert ps[..n] == ps;
    } else {
      var acc := UntypedParams(ps[..n]);
      assert ps[n..][0] == ps[n] && ps[n..][1..] == ps[n + 1..];
      assert forall i :: 0 <= i < n ==> acc[i].name == ps[i].name;
      assert !Has(acc, ps[n].name);
      assert UntypedParams(ps[..n + 1]) == acc + [Parameter(ps[n].name, true, ps[n].values)];
      SetAllDistinct(ps, n + 1);
    }
  }

  lemma ParsedIsUntyped(r: Request)
    requires DistinctNames(r.params)
    ensures ParsedRequest(r) == Untyped(r)
  {
    SetAllDistinct(r.params, 0);
    assert UntypedParams(r.params[..0]) == [] && r.params[0..] == r.params;
  }

  /** No request but the last one ends with an empty value. */
  predicate AllEnd(rs: seq<Request>)
    requires AllValid(rs)
  {
    forall i :: 0 <= i < |rs| - 1 ==> LastValue(rs[i].params) != ""
  }

  predicate AllDistinct(rs: seq<Request>) {
    forall i :: 0 <= i < |rs| ==> DistinctNames(rs[i].params)
  }

  lemma {:induction false} FoundAll(rs: seq<Request>)
    requires AllValid(rs) && AllDistinct(rs) && AllEnd(rs)
    ensures Found(rs) == AllUntyped(rs)
  {
    if rs != [] {
      ParsedIsUntyped(rs[0]);
      FoundAll(rs[1..]);
      assert AllUntyped(rs) == [Untyped(rs[0])] + AllUntyped(rs[1..]);
    }
  }

  lemma {:induction false} FoundFewer(rs: seq<Request>)
    requires AllValid(rs)
    ensures |Found(rs)| <= |rs| && (!AllEnd(rs) ==> |Found(rs)| < |rs|)
    decreases |rs|
  {
    if |rs| > 1 && LastValue(rs[0].params) == "" {
      FoundFewer(AbsorbFirst(rs));
    } else if rs != [] {
      FoundFewer(rs[1..]);
      assert AllEnd(rs[1..]) ==> AllEnd(rs);
    }
  }

  /** Parsing the dumps of a list of requests returns the same verbs, keys and values in the same order,
      exactly when no request but the last one ends with an empty value. */
  lemma DumpsAreParsedBack(rs: seq<Request>)
    requires AllValid(rs) && AllDistinct(rs)
    ensures Parse(DumpAll(rs)) == Ok(AllUntyped(rs)) <==> AllEnd(rs)
  {
    ParseOfDump(rs);
    if AllEnd(rs) {
      FoundAll(rs);
    } else {
      FoundFewer(rs);
    }
  }

  /** The dumps one after the other. */
  lemma DumpAllIsConcatenation(r: Request, rs: seq<Request>)
    ensures DumpAll([r] + rs) == DumpText(r, "") + DumpAll(rs)
  {
    var rest := DumpAll(rs);
    assert ([r] + rs)[0] == r && ([r] + rs)[1..] == rs;
    NoText("\n\n");
    if r.params == [] {
      assert DumpText(r, "") + rest == DumpText(r, rest);
    } else {
      ParamsTextRest(r.params, "\n\n", rest);
      Assoc(r.verb, ParamsText(r.params, "\n\n"), rest);
    }
  }
}
