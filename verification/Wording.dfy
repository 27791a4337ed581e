/** What the parser makes of texts that are given character by character, and what the printer writes. */
module Wording {
  import opened Requests
  import opened Families
  import opened Results
  import opened Parsing
  import opened Printing
  import opened RoundTrip

  // ---- words ----------------------------------------------------------------------------

  predicate Word(s: string) {
    s != "" && forall c :: c in s ==> WordChar(c)
  }

  /** A word that starts with a letter or an underscore. */
  predicate VerbWord(s: string) {
    Word(s) && ('a' <= s[0] <= 'z' || 'A' <= s[0] <= 'Z' || s[0] == '_')
  }

  lemma WordIsIdent(s: string)
    requires Word(s)
    ensures AllIdent(s) && Clean(s)
  {
    forall i | 0 <= i < |s|
      ensures InIdent(s[i])
    {
      AlphabetMeaning(s[i]);
    }
  }

  // ---- texts of words -------------------------------------------------------------------

  /** The words with slashes between them. */
  function Slashed(vs: seq<string>): string {
    if vs == [] then "" else if |vs| == 1 then vs[0] else vs[0] + "/" + Slashed(vs[1..])
  }

  /** `,key=value/value` for every parameter. */
  function Assigned(ps: seq<Parameter>): string {
    if ps == [] then "" else "," + ps[0].name + "=" + Slashed(ps[0].values) + Assigned(ps[1..])
  }

  function TextOf(r: Request): string {
    r.verb + Assigned(r.params)
  }

  predicate WordParam(p: Parameter) {
    Word(p.name) && p.values != [] && forall v :: v in p.values ==> Word(v)
  }

  predicate WordParams(ps: seq<Parameter>) {
    forall i :: 0 <= i < |ps| ==> WordParam(ps[i])
  }

  /** The text does not go on with a word. */
  predicate WordEnds(rest: string) {
    rest == "" || (!WordChar(rest[0]) && rest[0] != ' ')
  }

  lemma {:induction false} SlashedIsList(vs: seq<string>, rest: string)
    requires vs != [] && forall v :: v in vs ==> Word(v)
    ensures ListText(vs, rest) == Slashed(vs) + rest
  {
    WordIsIdent(vs[0]);
    if |vs| == 1 {
      assert vs[1..] == [];
    } else {
      SlashedIsList(vs[1..], rest);
      assert vs[1..][0] == vs[1];
      assert ValuesText(vs[1..], rest) == "/" + ListText(vs[1..], rest);
      assert vs[0] + "/" + Slashed(vs[1..]) + rest == vs[0] + ("/" + (Slashed(vs[1..]) + rest));
    }
  }

  lemma SlashedIsRead(vs: seq<string>, rest: string)
    requires vs != [] && forall v :: v in vs ==> Word(v)
    requires WordEnds(rest) && Peek(rest) != '/'
    ensures ValuesOfText(Slashed(vs) + rest) == Ok(Read(vs, SkipSpaces(rest)))
  {
    SlashedIsList(vs, rest);
    forall i | 0 <= i < |vs|
      ensures Clean(vs[i])
    {
      WordIsIdent(vs[i]);
    }
    if rest != "" {
      AlphabetMeaning(rest[0]);
    }
    assert vs[|vs| - 1] in vs;
    ListRead(vs, rest);
  }

  lemma KeyIsRead(acc: seq<Parameter>, name: string, list: string)
    requires Word(name)
    ensures var r, vs := ParamOf(acc, name + ("=" + list)), ValuesOfText(list);
            if vs.Error? then r.Error? else r == Ok(Read(SetValues(acc, name, vs.value.value), vs.value.rest))
  {
    WordIsIdent(name);
    IndentBack(name, "=" + list);
    ParamOfParts(acc, name + ("=" + list), name, "=" + list, list);
  }

  lemma AssignedIsRead(acc: seq<Parameter>, p: Parameter, rest: string)
    requires WordParam(p) && WordEnds(rest) && Peek(rest) != '/'
    ensures MoreParams(acc, "," + p.name + "=" + Slashed(p.values) + rest)
            == MoreParams(SetValues(acc, p.name, p.values), rest)
  {
    var list := Slashed(p.values) + rest;
    var t := "," + p.name + "=" + Slashed(p.values) + rest;
    assert t == "," + (p.name + ("=" + list));
    assert t[0] == ',' && t[1..] == p.name + ("=" + list);
    KeyIsRead(acc, p.name, list);
    SlashedIsRead(p.values, rest);
    MoreParamsSkip(SetValues(acc, p.name, p.values), rest);
  }

  lemma AssignedGoesOn(ps: seq<Parameter>, rest: string)
    requires WordEnds(rest) && Peek(rest) != '/'
    ensures WordEnds(Assigned(ps) + rest) && Peek(Assigned(ps) + rest) != '/'
  {
    if ps == [] {
      NoText(rest);
    } else {
      assert (Assigned(ps) + rest)[0] == ',';
    }
  }

  lemma {:induction false} AllAssignedAreRead(acc: seq<Parameter>, ps: seq<Parameter>, rest: string)
    requires WordParams(ps) && WordEnds(rest) && Peek(rest) != '/'
    ensures MoreParams(acc, Assigned(ps) + rest) == MoreParams(SetAll(acc, ps), rest)
    decreases |ps|
  {
    if ps == [] {
      NoText(rest);
    } else {
      var more := Assigned(ps[1..]) + rest;
      var first := "," + ps[0].name + "=" + Slashed(ps[0].values);
      Assoc(first, Assigned(ps[1..]), rest);
      AssignedGoesOn(ps[1..], rest);
      AssignedIsRead(acc, ps[0], more);
      AllAssignedAreRead(SetValues(acc, ps[0].name, ps[0].values), ps[1..], rest);
    }
  }

  lemma VerbIsRead(verb: string, more: string)
    requires VerbWord(verb) && WordEnds(more)
    ensures Peek(verb + more) == verb[0] && IndentOf(verb + more) == Read(verb, more)
  {
    WordIsIdent(verb);
    if more != "" {
      AlphabetMeaning(more[0]);
    }
    WordBack(verb, more);
    assert (verb + more)[0] == verb[0];
  }

  /** A request that is written with words only is read as it stands, up to what follows it. */
  lemma TextIsRead(r: Request, rest: string)
    requires VerbWord(r.verb) && WordParams(r.params) && DistinctNames(r.params)
    requires WordEnds(rest) && Peek(rest) != '/' && Peek(rest) != ','
    ensures RequestOf(TextOf(r) + rest) == Ok(Read(Untyped(r), SkipDot(SkipSpaces(rest))))
  {
    var more := Assigned(r.params) + rest;
    assert TextOf(r) + rest == r.verb + more;
    assert r.params == [] ==> more == rest by {
      NoText(rest);
    }
    assert r.params != [] ==> more[0] == ',';
    VerbIsRead(r.verb, more);
    AllAssignedAreRead([], r.params, rest);
    ParsedIsUntyped(r);
    SkipTwice(rest);
  }

  lemma {:induction false} SlashedNoHash(vs: seq<string>)
    requires forall v :: v in vs ==> Word(v)
    ensures '#' !in Slashed(vs)
  {
    if |vs| == 1 {
      WordIsIdent(vs[0]);
    } else if vs != [] {
      WordIsIdent(vs[0]);
      SlashedNoHash(vs[1..]);
    }
  }

  lemma {:induction false} AssignedNoHash(ps: seq<Parameter>)
    requires WordParams(ps)
    ensures '#' !in Assigned(ps)
  {
    if ps != [] {
      WordIsIdent(ps[0].name);
      SlashedNoHash(ps[0].values);
      AssignedNoHash(ps[1..]);
    }
  }

  lemma AssignedStarts(ps: seq<Parameter>)
    ensures WordEnds(Assigned(ps))
  {
  }

  lemma OnlyRequest(t: string, r: Request)
    requires Peek(t) != '\0' && RequestOf(t) == Ok(Read(r, ""))
    ensures MoreRequests([], t) == Ok([r])
  {
    assert [] + [r] == [r];
    assert MoreRequests([r], "") == Ok([r]);
  }

  /** A text of one such request gives this request. */
  lemma TextIsParsed(r: Request)
    requires VerbWord(r.verb) && WordParams(r.params) && DistinctNames(r.params)
    ensures Parse(TextOf(r)) == Ok([Untyped(r)])
  {
    var t := TextOf(r);
    WordIsIdent(r.verb);
    AssignedNoHash(r.params);
    NoComments(t);
    TextIsRead(r, "");
    NoText(t);
    AssignedStarts(r.params);
    VerbIsRead(r.verb, Assigned(r.params));
    OnlyRequest(t, Untyped(r));
  }

  /** `retrieve,date=2024-01-11` and the like. */
  lemma WordIsParsed(verb: string, key: string, word: string)
    requires VerbWord(verb) && Word(key) && Word(word)
    ensures Parse(verb + "," + key + "=" + word) == Ok([Request(verb, [Parameter(key, true, [word])])])
  {
    var ps := [Parameter(key, true, [word])];
    var r := Request(verb, ps);
    assert Assigned(ps) == "," + key + "=" + word by {
      assert Assigned(ps[1..]) == "" && Slashed([word]) == word;
      NoText("," + key + "=" + word);
    }
    assert TextOf(r) == verb + "," + key + "=" + word;
    TextIsParsed(r);
    assert UntypedParams(ps) == ps;
  }

  lemma DateIsParsed()
    ensures Parse("retrieve,date=2024-01-11") == Ok([Request("retrieve", [Parameter("date", true, ["2024-01-11"])])])
  {
    assert "retrieve" + "," + "date" + "=" + "2024-01-11" == "retrieve,date=2024-01-11";
    WordIsParsed("retrieve", "date", "2024-01-11");
  }

  /** A dot that stands on its own line ends a request. */
  lemma DotIsRead(r: Request, rest: string)
    requires VerbWord(r.verb) && WordParams(r.params) && DistinctNames(r.params)
    ensures RequestOf(TextOf(r) + ("\n." + rest)) == Ok(Read(Untyped(r), rest))
  {
    var end := "\n." + rest;
    assert end == ['\n'] + ("." + rest) && ("." + rest)[1..] == rest;
    OneSpace('\n', "." + rest);
    TextIsRead(r, end);
  }

  // ---- errors ---------------------------------------------------------------------------

  /** A text that does not start with a letter or an underscore is no request. */
  lemma BadVerb(t: string)
    requires t != "" && !Space(t[0]) && t[0] != '\0'
    requires !('a' <= t[0] <= 'z' || 'A' <= t[0] <= 'Z' || t[0] == '_') && t[0] != '#'
    ensures Parse(t).Error?
  {
    var u := WithoutComments(t, false);
    AlphabetMeaning(t[0]);
    assert u[0] == t[0];
  }

  /** A key without an equals sign after it is an error, whatever follows. */
  lemma NoEquals(acc: seq<Parameter>, name: string, rest: string)
    requires Word(name) && WordEnds(rest) && Peek(rest) != '='
    ensures ParamOf(acc, name + rest).Error?
    ensures MoreParams(acc, "," + (name + rest)).Error?
  {
    WordIsIdent(name);
    if rest != "" {
      AlphabetMeaning(rest[0]);
    }
    IndentBack(name, rest);
    var t := "," + (name + rest);
    assert t[0] == ',' && t[1..] == name + rest;
  }

  // ---- quoted strings -------------------------------------------------------------------

  /** A character as it stands, or a backslash and a letter that stand for one. */
  datatype Quote = Char(c: char) | Backslash(letter: char, c: char)

  function QuoteText(q: Quote): string {
    match q
    case Char(c) => [c]
    case Backslash(letter, _) => ['\\', letter]
  }

  /** Between these quotes. */
  predicate ValidQuote(q: Quote, quote: char) {
    match q
    case Char(c) => c != quote && c != '\\'
    case Backslash(letter, c) =>
      (letter, c as int) in
      {('"', 34), ('\'', 39), ('\\', 92), ('/', 47), ('b', 8), ('f', 12), ('n', 10), ('r', 13), ('t', 9)}
  }

  function QuotesText(qs: seq<Quote>): string {
    if qs == [] then "" else QuoteText(qs[0]) + QuotesText(qs[1..])
  }

  function QuotesValue(qs: seq<Quote>): string {
    if qs == [] then "" else [qs[0].c] + QuotesValue(qs[1..])
  }

  lemma QuoteIsRead(quote: char, s: string, q: Quote, more: string)
    requires quote == '"' || quote == '\''
    requires ValidQuote(q, quote)
    ensures StringOf(quote, s, QuoteText(q) + more) == StringOf(quote, s + [q.c], more)
  {
    match q
    case Char(c) => assert ([c] + more)[1..] == more;
    case Backslash(letter, c) =>
      assert (['\\', letter] + more)[2..] == more;
      assert Escaped(letter) == Some(c);
  }

  lemma FirstQuoteIsRead(quote: char, s: string, qs: seq<Quote>, more: string)
    requires quote == '"' || quote == '\''
    requires qs != [] && ValidQuote(qs[0], quote)
    ensures StringOf(quote, s, QuotesText(qs) + more)
            == StringOf(quote, s + [qs[0].c], QuotesText(qs[1..]) + more)
    ensures s + [qs[0].c] + QuotesValue(qs[1..]) == s + QuotesValue(qs)
  {
    Assoc(QuoteText(qs[0]), QuotesText(qs[1..]), more);
    QuoteIsRead(quote, s, qs[0], QuotesText(qs[1..]) + more);
    Assoc(s, [qs[0].c], QuotesValue(qs[1..]));
  }

  lemma {:induction false} QuotesAreRead(quote: char, s: string, qs: seq<Quote>, more: string)
    requires quote == '"' || quote == '\''
    requires forall i :: 0 <= i < |qs| ==> ValidQuote(qs[i], quote)
    ensures StringOf(quote, s, QuotesText(qs) + more) == StringOf(quote, s + QuotesValue(qs), more)
    decreases |qs|
  {
    if qs == [] {
      NoText(more);
      NoText(s);
    } else {
      QuotesAreRead(quote, s + [qs[0].c], qs[1..], more);
      FirstQuoteIsRead(quote, s, qs, more);
    }
  }

  lemma QuoteStarts(quote: char, more: string)
    requires quote == '"' || quote == '\''
    ensures ValueOf([quote] + more) == StringOf(quote, "", more)
  {
    var t := [quote] + more;
    assert t[0] == quote && t[1..] == more && SkipSpaces(t) == t;
  }

  lemma QuoteEnds(quote: char, s: string, rest: string)
    requires quote != '\\'
    ensures StringOf(quote, s, [quote] + rest) == Ok(Read(s, rest))
  {
    assert ([quote] + rest)[1..] == rest;
  }

  /** A string between single or double quotes is read with its escapes replaced, up to the closing quote. */
  lemma StringIsRead(quote: char, qs: seq<Quote>, rest: string)
    requires quote == '"' || quote == '\''
    requires forall i :: 0 <= i < |qs| ==> ValidQuote(qs[i], quote)
    ensures ValueOf([quote] + (QuotesText(qs) + ([quote] + rest))) == Ok(Read(QuotesValue(qs), rest))
  {
    QuoteStarts(quote, QuotesText(qs) + ([quote] + rest));
    QuotesAreRead(quote, "", qs, [quote] + rest);
    NoText(QuotesValue(qs));
    QuoteEnds(quote, QuotesValue(qs), rest);
  }

  /** It is an error when the text ends before the closing quote. */
  lemma OpenString(quote: char, qs: seq<Quote>)
    requires quote == '"' || quote == '\''
    requires forall i :: 0 <= i < |qs| ==> ValidQuote(qs[i], quote)
    ensures ValueOf([quote] + QuotesText(qs)).Error?
  {
    QuoteStarts(quote, QuotesText(qs));
    QuotesAreRead(quote, "", qs, "");
    NoText(QuotesText(qs));
    assert StringOf(quote, "" + QuotesValue(qs), "").Error?;
  }

  /** Any other escape is an error. */
  lemma BadEscape(quote: char, qs: seq<Quote>, letter: char, rest: string)
    requires quote == '"' || quote == '\''
    requires forall i :: 0 <= i < |qs| ==> ValidQuote(qs[i], quote)
    requires letter !in {'"', '\'', '\\', '/', 'b', 'f', 'n', 'r', 't'}
    ensures ValueOf([quote] + (QuotesText(qs) + (['\\', letter] + rest))).Error?
  {
    var more := ['\\', letter] + rest;
    QuoteStarts(quote, QuotesText(qs) + more);
    QuotesAreRead(quote, "", qs, more);
    assert StringOf(quote, "" + QuotesValue(qs), more).Error? by {
      assert more[0] == '\\' && more[1] == letter;
    }
  }

  // ---- comments -------------------------------------------------------------------------

  /** What follows a `#` is dropped up to the end of the line. */
  lemma {:induction false} CommentIsDropped(t: string, comment: string, rest: string)
    requires '#' !in t && '\n' !in comment
    ensures WithoutComments(t + ("#" + (comment + ("\n" + rest))), false) == t + ("\n" + WithoutComments(rest, false))
  {
    var all := t + ("#" + (comment + ("\n" + rest)));
    if t == "" {
      NoText("#" + (comment + ("\n" + rest)));
      assert all[0] == '#' && all[1..] == comment + ("\n" + rest);
      InsideComment(comment, rest);
      NoText("\n" + WithoutComments(rest, false));
    } else {
      assert t[0] in t && forall c :: c in t[1..] ==> c in t;
      assert all[0] == t[0] && all[1..] == t[1..] + ("#" + (comment + ("\n" + rest)));
      CommentIsDropped(t[1..], comment, rest);
      assert [t[0]] + (t[1..] + ("\n" + WithoutComments(rest, false))) == t + ("\n" + WithoutComments(rest, false));
    }
  }

  lemma {:induction false} InsideComment(comment: string, rest: string)
    requires '\n' !in comment
    ensures WithoutComments(comment + ("\n" + rest), true) == "\n" + WithoutComments(rest, false)
  {
    var all := comment + ("\n" + rest);
    if comment == "" {
      NoText("\n" + rest);
      assert all[1..] == rest;
    } else {
      assert comment[0] in comment && forall c :: c in comment[1..] ==> c in comment;
      assert all[0] == comment[0] && all[1..] == comment[1..] + ("\n" + rest);
      InsideComment(comment[1..], rest);
    }
  }

  // ---- the printed text -----------------------------------------------------------------

  lemma OneShown(v: string, rest: string)
    ensures ListText([v], rest) == Quoted(v) + rest
  {
    assert [v][1..] == [];
  }

  lemma TwoShown(a: string, b: string, rest: string)
    ensures ListText([a, b], rest) == Quoted(a) + ("/" + (Quoted(b) + rest))
  {
    assert [a, b][1..] == [b] && [b][1..] == [];
    assert ValuesText([b], rest) == "/" + (Quoted(b) + ValuesText([], rest));
  }

  lemma TwoParams(p: Parameter, q: Parameter, rest: string)
    ensures ParamsText([p, q], rest) == ParamText(p, ParamText(q, rest))
  {
    assert [p, q][1..] == [q] && [q][1..] == [];
    assert ParamsText([q], rest) == ParamText(q, ParamsText([], rest));
  }

  /** Each parameter on a line of its own after a tab, values that are no words in quotes, and an empty line. */
  lemma DumpedText(verb: string, k: string, a: string, b: string, m: string, c: string)
    requires Word(a) && Word(b) && exists x :: x in c && !WordChar(x)
    ensures DumpText(Request(verb, [Parameter(k, true, [a, b]), Parameter(m, true, [c])]), "")
            == verb + ",\n\t" + k + "=" + a + "/" + b + ",\n\t" + m + "=\"" + c + "\"\n\n"
  {
    var last := ",\n\t" + m + "=\"" + c + "\"\n\n";
    var p, q := Parameter(k, true, [a, b]), Parameter(m, true, [c]);
    LastParam(m, c);
    FirstParam(k, a, b, last);
    NoText("\n\n");
    TwoParams(p, q, "\n\n");
    FirstText(verb, k, a, b, last);
    LastLine(verb + ",\n\t" + k + "=" + a + "/" + b, m, c);
  }

  lemma LastParam(m: string, c: string)
    requires exists x :: x in c && !WordChar(x)
    ensures ParamText(Parameter(m, true, [c]), "\n\n") == ",\n\t" + m + "=\"" + c + "\"\n\n"
  {
    QuotedMeaning(c);
    OneShown(c, "\n\n");
    LastText(m, c);
  }

  lemma FirstParam(k: string, a: string, b: string, rest: string)
    requires Word(a) && Word(b)
    ensures ParamText(Parameter(k, true, [a, b]), rest) == ",\n\t" + (k + ("=" + (a + ("/" + (b + rest)))))
  {
    QuotedMeaning(a);
    QuotedMeaning(b);
    TwoShown(a, b, rest);
  }

  lemma LastLine(before: string, m: string, c: string)
    ensures before + (",\n\t" + m + "=\"" + c + "\"\n\n") == before + ",\n\t" + m + "=\"" + c + "\"\n\n"
  {
    Grouped(before, ",\n\t", m, "=\"", c + "\"\n\n");
    Assoc(before + ",\n\t" + m + "=\"", c, "\"\n\n");
    Grouped(",\n\t", m, "=\"", c, "\"\n\n");
  }

  lemma Grouped(a: string, b: string, c: string, d: string, e: string)
    ensures a + (b + (c + (d + e))) == a + b + c + d + e
  {
    Assoc(a + b + c, d, e);
    Assoc(a + b, c, d + e);
    Assoc(a, b, c + (d + e));
  }

  lemma LastText(m: string, c: string)
    ensures ",\n\t" + (m + ("=" + ("\"" + c + "\"" + "\n\n"))) == ",\n\t" + m + "=\"" + c + "\"\n\n"
  {
    assert "=" + ("\"" + c + "\"" + "\n\n") == "=\"" + (c + "\"\n\n");
    Grouped(",\n\t", m, "=\"", c, "\"\n\n");
  }

  lemma FirstText(verb: string, k: string, a: string, b: string, rest: string)
    ensures verb + (",\n\t" + (k + ("=" + (a + ("/" + (b + rest))))))
            == verb + ",\n\t" + k + "=" + a + "/" + b + rest
  {
    Grouped(verb, ",\n\t", k, "=", a + ("/" + (b + rest)));
    var start := verb + ",\n\t" + k + "=";
    Grouped(start, a, "/", b, rest);
  }

  /** A request without parameters is its verb, a comma and an empty line. */
  lemma DumpedVerb(verb: string)
    ensures DumpText(Request(verb, []), "") == verb + ",\n\n"
  {
    NoText("\n\n");
    assert verb + ("," + "\n\n") == verb + ",\n\n";
  }
}
