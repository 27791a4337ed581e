/** The parser of the request language: a recursive descent over the characters that are left. */
module Parsing {
  import opened Requests
  import opened Results

  // ---- characters -----------------------------------------------------------------------

  predicate IsAlpha(c: char) {
    'a' <= c <= 'z' || 'A' <= c <= 'Z'
  }

  /** The characters of identifiers. */
  predicate InIdent(c: char) {
    IsAlpha(c) || '0' <= c <= '9' || c == '_' || c == ':' || c == '-' || c == '.' || c == '@'
  }

  predicate IsSpace(c: char) {
    c == ' ' || '\t' <= c <= '\r'
  }

  /** Letters, digits, underscore, colon, dash, dot and at sign. */
  predicate WordChar(c: char) {
    'a' <= c <= 'z' || 'A' <= c <= 'Z' || '0' <= c <= '9' || c in "_:-.@"
  }

  /** Blank, tab, line feed, vertical tab, form feed and carriage return. */
  predicate Space(c: char) {
    c as int in {32, 9, 10, 11, 12, 13}
  }

  lemma AlphabetMeaning(c: char)
    ensures InIdent(c) <==> WordChar(c)
    ensures IsSpace(c) <==> Space(c)
  {
  }

  function SkipSpaces(t: string): (u: string)
    ensures |u| <= |t| && (u != [] ==> !IsSpace(u[0]))
  {
    if t != [] && IsSpace(t[0]) then SkipSpaces(t[1..]) else t
  }

  function SkipBlanks(t: string): (u: string)
    ensures |u| <= |t| && (u != [] ==> u[0] != ' ')
  {
    if t != [] && t[0] == ' ' then SkipBlanks(t[1..]) else t
  }

  function IdentLength(t: string): (n: nat)
    ensures n <= |t| && (forall i :: 0 <= i < n ==> InIdent(t[i])) && (n < |t| ==> !InIdent(t[n]))
  {
    if t != [] && InIdent(t[0]) then 1 + IdentLength(t[1..]) else 0
  }

  /** The next character that is no space, or 0 at the end. */
  function Peek(t: string): char {
    var u := SkipSpaces(t);
    if u == [] then '\0' else u[0]
  }

  // ---- what each parse function reads ---------------------------------------------------

  /** A value, and what is left of the text after it. */
  datatype Read<+T> = Read(value: T, rest: string)

  function IndentOf(t: string): (r: Read<string>)
    ensures |r.rest| <= |t|
  {
    var u := SkipSpaces(t);
    Read(u[..IdentLength(u)], u[IdentLength(u)..])
  }

  /** More identifiers on the same line, joined by single blanks. */
  function MoreIndents(s: string, t: string): (r: Read<string>)
    ensures |r.rest| <= |t|
    decreases |t|
  {
    var u := SkipBlanks(t);
    if u == [] || !InIdent(u[0]) then Read(s, u)
    else MoreIndents(s + " " + IndentOf(u).value, IndentOf(u).rest)
  }

  function IndentsOf(t: string): (r: Read<string>)
    ensures |r.rest| <= |t|
  {
    MoreIndents(IndentOf(t).value, IndentOf(t).rest)
  }

  function Escaped(c: char): Option<char> {
    match c
    case '"' => Some('"')
    case '\'' => Some('\'')
    case '\\' => Some('\\')
    case '/' => Some('/')
    case 'b' => Some(8 as char)
    case 'f' => Some(12 as char)
    case 'n' => Some('\n')
    case 'r' => Some('\r')
    case 't' => Some('\t')
    case _ => None
  }

  /** The rest of a quoted string. */
  function StringOf(quote: char, s: string, t: string): (r: Result<Read<string>>)
    ensures r.Ok? ==> |r.value.rest| < |t|
    decreases |t|
  {
    if t == [] then Error
    else if t[0] == '\\' then
      if |t| < 2 || Escaped(t[1]).None? then Error else StringOf(quote, s + [Escaped(t[1]).value], t[2..])
    else if t[0] == quote then Ok(Read(s, t[1..]))
    else StringOf(quote, s + [t[0]], t[1..])
  }

  function ValueOf(t: string): (r: Result<Read<string>>)
    ensures r.Ok? ==> |r.value.rest| <= |t|
  {
    var u := SkipSpaces(t);
    if u != [] && (u[0] == '"' || u[0] == '\'') then StringOf(u[0], [], u[1..]) else Ok(IndentsOf(u))
  }

  function MoreValues(vs: seq<string>, t: string): (r: Result<Read<seq<string>>>)
    ensures r.Ok? ==> |r.value.rest| <= |t|
    decreases |t|
  {
    var u := SkipSpaces(t);
    if u == [] || u[0] != '/' then Ok(Read(vs, u))
    else
      var v := ValueOf(u[1..]);
      if v.Error? then Error else MoreValues(vs + [v.value.value], v.value.rest)
  }

  function ValuesOfText(t: string): (r: Result<Read<seq<string>>>)
    ensures r.Ok? ==> |r.value.rest| <= |t|
  {
    var v := ValueOf(t);
    if v.Error? then Error else MoreValues([v.value.value], v.value.rest)
  }

  /** One `key = values`. */
  function ParamOf(ps: seq<Parameter>, t: string): (r: Result<Read<seq<Parameter>>>)
    ensures r.Ok? ==> |r.value.rest| <= |t|
  {
    var key := IndentsOf(t);
    var u := SkipSpaces(key.rest);
    if u == [] || u[0] != '=' then Error
    else
      var vs := ValuesOfText(u[1..]);
      if vs.Error? then Error else Ok(Read(SetValues(ps, key.value, vs.value.value), vs.value.rest))
  }

  function MoreParams(ps: seq<Parameter>, t: string): (r: Result<Read<seq<Parameter>>>)
    ensures r.Ok? ==> |r.value.rest| <= |t|
    decreases |t|
  {
    var u := SkipSpaces(t);
    if u == [] || u[0] != ',' then Ok(Read(ps, u))
    else
      var p := ParamOf(ps, u[1..]);
      if p.Error? then Error else MoreParams(p.value.value, p.value.rest)
  }

  /** A final dot is dropped. */
  function SkipDot(t: string): (u: string)
    ensures |u| <= |t|
  {
    if t != [] && t[0] == '.' then t[1..] else t
  }

  function RequestOf(t: string): (r: Result<Read<Request>>)
    ensures r.Ok? ==> |r.value.rest| < |t|
  {
    if !IsAlpha(Peek(t)) && Peek(t) != '_' then Error
    else
      var verb := IndentOf(t);
      var ps := MoreParams([], verb.rest);
      if ps.Error? then Error else Ok(Read(Request(verb.value, ps.value.value), SkipDot(SkipSpaces(ps.value.rest))))
  }

  function MoreRequests(rs: seq<Request>, t: string): Result<seq<Request>>
    decreases |t|
  {
    if Peek(t) == '\0' then Ok(rs)
    else
      var r := RequestOf(t);
      if r.Error? then Error else MoreRequests(rs + [r.value.value], r.value.rest)
  }

  /** The stream drops what follows a `#` on a line. */
  function WithoutComments(t: string, inside: bool): string {
    if t == [] then []
    else if t[0] == '\n' then ['\n'] + WithoutComments(t[1..], false)
    else if inside || t[0] == '#' then WithoutComments(t[1..], true)
    else [t[0]] + WithoutComments(t[1..], false)
  }

  function Parse(text: string): Result<seq<Request>> {
    MoreRequests([], WithoutComments(text, false))
  }

  /** Leading spaces, a word as long as possible, and what is left. */
  ghost predicate IsWordOf(t: string, s: string, rest: string) {
    exists n: nat :: IsWordAt(t, n, s, rest)
  }

  /** The first `n` characters are the spaces. */
  ghost predicate IsWordAt(t: string, n: nat, s: string, rest: string) {
    && n <= |t| && t[n..] == s + rest
    && (forall i :: 0 <= i < n ==> Space(t[i]))
    && (n < |t| ==> !Space(t[n]))
    && (forall i :: 0 <= i < |s| ==> WordChar(s[i]))
    && (rest == "" || !WordChar(rest[0]))
  }

  lemma {:induction false} LeadingSpaces(t: string) returns (n: nat)
    ensures n <= |t| && SkipSpaces(t) == t[n..]
    ensures forall i :: 0 <= i < n ==> Space(t[i])
  {
    n := 0;
    if t != [] && IsSpace(t[0]) {
      AlphabetMeaning(t[0]);
      n := LeadingSpaces(t[1..]);
      n := n + 1;
    }
  }

  lemma IndentMeaning(t: string)
    ensures IsWordOf(t, IndentOf(t).value, IndentOf(t).rest)
  {
    var n := LeadingSpaces(t);
    var u := SkipSpaces(t);
    var k := IdentLength(u);
    forall i | 0 <= i < |u|
      ensures InIdent(u[i]) <==> WordChar(u[i])
      ensures IsSpace(u[i]) <==> Space(u[i])
    {
      AlphabetMeaning(u[i]);
    }
    assert u == u[..k] + u[k..];
    assert IsWordAt(t, n, u[..k], u[k..]);
  }

  lemma NextInIdent(u: string, k: nat)
    requires k < |u| && InIdent(u[k])
    ensures u[..k] + [u[k]] == u[..k + 1] && u[k..][0] == u[k] && u[k..][1..] == u[k + 1..]
    ensures IdentLength(u[k..]) == 1 + IdentLength(u[k + 1..])
  {
    assert u[k..][1..] == u[k + 1..];
  }

  lemma IndentIsShorter(t: string)
    requires t != [] && InIdent(t[0])
    ensures |IndentOf(t).rest| < |t|
  {
    assert SkipSpaces(t) == t;
  }

  lemma WordRead(t: string, s: string, rest: string)
    requires IndentOf(t) == Read(s, rest)
    ensures IsWordOf(t, s, rest)
  {
    IndentMeaning(t);
  }

  // ---- the parser -----------------------------------------------------------------------

  class MarsParser {
    var text: string

    constructor (t: string)
      ensures text == WithoutComments(t, false)
    {
      text := WithoutComments(t, false);
    }

    method PeekChar(spaces: bool) returns (c: char)
      modifies this
      ensures text == if spaces then old(text) else SkipSpaces(old(text))
      ensures c == if text == [] then '\0' else text[0]
    {
      if !spaces {
        while text != [] && IsSpace(text[0])
          invariant SkipSpaces(text) == SkipSpaces(old(text))
          decreases |text|
        {
          text := text[1..];
        }
      }
      c := if text == [] then '\0' else text[0];
    }

    method Next(spaces: bool) returns (r: Result<char>)
      modifies this
      ensures var u := if spaces then old(text) else SkipSpaces(old(text));
              if u == [] then r == Error && text == [] else r == Ok(u[0]) && text == u[1..]
    {
      var _ := PeekChar(spaces);
      if text == [] {
        return Error;
      }
      r := Ok(text[0]);
      text := text[1..];
    }

    method Consume(c: char) returns (ok: bool)
      modifies this
      ensures var u := SkipSpaces(old(text));
              if u != [] && u[0] == c then ok && text == u[1..] else !ok
    {
      var n := Next(false);
      ok := n == Ok(c);
    }

    method ParseIndent() returns (s: string)
      modifies this
      ensures IndentOf(old(text)) == Read(s, text)
      ensures IsWordOf(old(text), s, text)
    {
      var c := PeekChar(false);
      ghost var u, k := text, 0;
      s := [];
      while text != [] && InIdent(c)
        invariant c == if text == [] then '\0' else text[0]
        invariant k <= |u| && s == u[..k] && text == u[k..]
        invariant k + IdentLength(text) == IdentLength(u)
        decreases |text|
      {
        NextInIdent(u, k);
        s := s + [text[0]];
        text := text[1..];
        k := k + 1;
        c := PeekChar(true);
      }
      WordRead(old(text), s, text);
    }

    method ParseIndents() returns (s: string)
      modifies this
      ensures IndentsOf(old(text)) == Read(s, text)
    {
      s := ParseIndent();
      while true
        invariant MoreIndents(s, text) == IndentsOf(old(text))
        decreases |text|
      {
        ghost var before := text;
        var c := PeekChar(true);
        while c == ' '
          invariant c == if text == [] then '\0' else text[0]
          invariant SkipBlanks(text) == SkipBlanks(before) && |text| <= |before|
          decreases |text|
        {
          text := text[1..];
          c := PeekChar(true);
        }
        if !InIdent(c) {
          return;
        }
        IndentIsShorter(text);
        var t := ParseIndent();
        s := s + " " + t;
      }
    }

    method ParseString(quote: char) returns (r: Result<string>)
      requires text != [] && text[0] == quote && !IsSpace(quote)
      modifies this
      ensures var spec := StringOf(quote, [], old(text)[1..]);
              if r.Ok? then spec == Ok(Read(r.value, text)) else spec.Error?
    {
      var _ := Consume(quote);
      var s := [];
      while true
        invariant StringOf(quote, s, text) == StringOf(quote, [], old(text)[1..])
        decreases |text|
      {
        var c := Next(true);
        if c.Error? {
          return Error;
        }
        if c.value == '\\' {
          var e := Next(true);
          if e.Error? || Escaped(e.value).None? {
            return Error;
          }
          s := s + [Escaped(e.value).value];
        } else if c.value == quote {
          return Ok(s);
        } else {
          s := s + [c.value];
        }
      }
    }

    method ParseValue() returns (r: Result<string>)
      modifies this
      ensures var spec := ValueOf(old(text));
              if r.Ok? then spec == Ok(Read(r.value, text)) else spec.Error?
    {
      var c := PeekChar(false);
      if c == '"' || c == '\'' {
        r := ParseString(c);
      } else {
        var s := ParseIndents();
        r := Ok(s);
      }
    }

    method ParseValues() returns (r: Result<seq<string>>)
      modifies this
      ensures var spec := ValuesOfText(old(text));
              if r.Ok? then spec == Ok(Read(r.value, text)) else spec.Error?
    {
      var first := ParseValue();
      if first.Error? {
        return Error;
      }
      var vs := [first.value];
      ghost var spec := MoreValues(vs, text);
      var c := PeekChar(false);
      while c == '/'
        invariant c == if text == [] then '\0' else text[0]
        invariant SkipSpaces(text) == text
        invariant MoreValues(vs, text) == spec
        decreases |text|
      {
        var _ := Consume('/');
        var v := ParseValue();
        if v.Error? {
          return Error;
        }
        vs := vs + [v.value];
        c := PeekChar(false);
      }
      r := Ok(vs);
    }

    method ParseVerb() returns (r: Result<string>)
      modifies this
      ensures if r.Ok? then IndentOf(old(text)) == Read(r.value, text)
              && (IsAlpha(Peek(old(text))) || Peek(old(text)) == '_')
              else !IsAlpha(Peek(old(text))) && Peek(old(text)) != '_'
    {
      var c := PeekChar(false);
      if !IsAlpha(c) && c != '_' {
        return Error;
      }
      var s := ParseIndent();
      r := Ok(s);
    }

    method ParseParam(request: MarsRequest) returns (ok: bool)
      modifies this, request`params
      ensures var spec := ParamOf(old(request.params), old(text));
              if ok then spec == Ok(Read(request.params, text)) else spec.Error?
    {
      var key := ParseIndents();
      ok := Consume('=');
      if ok {
        var vs := ParseValues();
        ok := vs.Ok?;
        if ok {
          request.Values(key, vs.value);
        }
      }
    }

    method ParseRequest() returns (r: Result<Request>)
      modifies this
      ensures var spec := RequestOf(old(text));
              if r.Ok? then spec == Ok(Read(r.value, text)) else spec.Error?
    {
      var verb := ParseVerb();
      if verb.Error? {
        return Error;
      }
      var request := new MarsRequest(Request(verb.value, []));
      var ok := ParseParams(request);
      if !ok {
        return Error;
      }
      var c := PeekChar(false);
      if c == '.' {
        var _ := Consume('.');
      }
      r := Ok(request.Value());
    }

    /** The loop over the keys of a request. */
    method ParseParams(request: MarsRequest) returns (ok: bool)
      modifies this, request`params
      ensures var spec := MoreParams(old(request.params), old(text));
              if ok then spec == Ok(Read(request.params, text)) else spec.Error?
    {
      ghost var spec := MoreParams(request.params, text);
      var c := PeekChar(false);
      while c == ','
        invariant c == if text == [] then '\0' else text[0]
        invariant SkipSpaces(text) == text
        invariant MoreParams(request.params, text) == spec
        decreases |text|
      {
        var _ := Consume(',');
        ok := ParseParam(request);
        if !ok {
          return;
        }
        c := PeekChar(false);
      }
      ok := true;
    }

    /** `parse` */
    method ParseRequests() returns (r: Result<seq<Request>>)
      modifies this
      ensures r == MoreRequests([], old(text))
    {
      var result: seq<Request> := [];
      var c := PeekChar(false);
      while c != '\0'
        invariant c == if text == [] then '\0' else text[0]
        invariant SkipSpaces(text) == text
        invariant MoreRequests(result, text) == MoreRequests([], old(text))
        decreases |text|
      {
        var request := ParseRequest();
        if request.Error? {
          return Error;
        }
        result := result + [request.value];
        c := PeekChar(false);
      }
      r := Ok(result);
    }
  }
}
