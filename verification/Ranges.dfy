/** Lists with ranges: `a/to/b/by/c` stands for the progression from `a` towards `b` in steps of `c`. */
module Ranges {
  import opened Results
  import opened Integers

  function Abs(n: int): nat {
    if n < 0 then -n else n
  }

  // ---- progressions ---------------------------------------------------------------------

  function Towards(src: int, to: int, step: nat): int {
    if src < to then src + step else src - step
  }

  /** What follows `src` on the way to `to`, without going past it. */
  function Progression(src: int, to: int, step: nat): seq<int>
    requires step > 0
    decreases Abs(to - src)
  {
    if Abs(to - src) < step || src == to then []
    else [Towards(src, to, step)] + Progression(Towards(src, to, step), to, step)
  }

  /** There are as many elements as steps fit. */
  lemma {:induction false} ProgressionFits(src: int, to: int, step: nat)
    requires step > 0
    ensures var n := |Progression(src, to, step)|; n * step <= Abs(to - src) < (n + 1) * step
    decreases Abs(to - src)
  {
    if Abs(to - src) < step || src == to {
    } else {
      var next := Towards(src, to, step);
      ProgressionFits(next, to, step);
      var n: int := |Progression(next, to, step)|;
      assert (n + 1) * step == n * step + step && (n + 2) * step == (n + 1) * step + step;
    }
  }

  /** Every element is one step further than the one before. */
  lemma {:induction false} ProgressionAt(src: int, to: int, step: nat, k: nat)
    requires step > 0 && k < |Progression(src, to, step)|
    ensures Progression(src, to, step)[k] == if src < to then src + (k + 1) * step else src - (k + 1) * step
    decreases k
  {
    var next := Towards(src, to, step);
    if k > 0 {
      assert Progression(src, to, step)[k] == Progression(next, to, step)[k - 1];
      ProgressionAt(next, to, step, k - 1);
      assert (k + 1) * step == k * step + step;
    }
  }

  lemma QuotientIs(d: nat, step: nat, n: nat)
    requires step > 0 && n * step <= d < (n + 1) * step
    ensures d / step == n && (d % step == 0 <==> n * step == d)
  {
    var q: int := d / step;
    assert d == q * step + d % step;
    if q < n {
      Scale(q + 1, n, step);
    } else if q > n {
      Scale(n + 1, q, step);
    }
  }

  lemma Scale(a: int, b: int, step: nat)
    requires a <= b
    ensures a * step <= b * step
  {
  }

  /** A progression is an arithmetic one that stays between its ends, has as many elements as the distance
      holds steps, and ends at its end exactly when the step divides the distance. */
  lemma ProgressionMeaning(src: int, to: int, step: nat)
    requires step > 0
    ensures var p := Progression(src, to, step);
            && |p| == Abs(to - src) / step
            && (forall k: nat :: k < |p| ==> p[k] == if src < to then src + (k + 1) * step else src - (k + 1) * step)
            && (forall k: nat :: k < |p| ==> if src < to then src < p[k] <= to else to <= p[k] < src)
            && (src != to ==> ((p != [] && p[|p| - 1] == to) <==> Abs(to - src) % step == 0))
  {
    var p := Progression(src, to, step);
    ProgressionFits(src, to, step);
    QuotientIs(Abs(to - src), step, |p|);
    forall k: nat | k < |p|
      ensures p[k] == if src < to then src + (k + 1) * step else src - (k + 1) * step
      ensures if src < to then src < p[k] <= to else to <= p[k] < src
    {
      ProgressionAt(src, to, step, k);
      Scale(k + 1, |p|, step);
      Scale(1, k + 1, step);
    }
  }

  // ---- lists with ranges ----------------------------------------------------------------

  /** How the source reads a number from a string. */
  type Translator = string -> Result<int>

  /** It reads at least what the source prints. */
  ghost predicate ReadsPrinted(read: Translator) {
    forall n: int :: read(Print(n)) == Ok(n)
  }

  /** "to" or "t0", in either case. */
  predicate IsTo(s: string) {
    |s| == 2 && s[0] in "tT" && s[1] in "oO0"
  }

  predicate IsBy(s: string) {
    |s| == 2 && s[0] in "bB" && s[1] in "yY"
  }

  /** Both words are known in lower and upper case, and `to` with a zero. */
  lemma TokensMeaning(s: string)
    ensures IsTo(s) <==> s in {"to", "tO", "To", "TO", "t0", "T0"}
    ensures IsBy(s) <==> s in {"by", "bY", "By", "BY"}
  {
    if |s| == 2 {
      assert s == [s[0], s[1]];
      assert s[0] in "tT" <==> s[0] == 't' || s[0] == 'T';
      assert s[1] in "oO0" <==> s[1] == 'o' || s[1] == 'O' || s[1] == '0';
      assert s[0] in "bB" <==> s[0] == 'b' || s[0] == 'B';
      assert s[1] in "yY" <==> s[1] == 'y' || s[1] == 'Y';
    }
  }

  /** The range of the type, the step when there is no `by`, and the translator. */
  datatype Settings = Settings(range: Option<Bounds>, step: string, read: Translator) {
    /** The number that a string stands for, once tidied. */
    function End(s: string): Result<int> {
      read(Tidy(range, s))
    }
  }

  function Printed(p: seq<int>): seq<string> {
    seq(|p|, i requires 0 <= i < |p| => Print(p[i]))
  }

  /** What a range adds after its start. */
  function Range(src: Result<int>, to: Result<int>, usual: Result<int>, step: Result<int>): Result<seq<string>> {
    if src.Error? || to.Error? || usual.Error? || step.Error? then Error
    else if step.value == 0 || (src.value < to.value && step.value < 0) then Error
    else Ok(Printed(Progression(src.value, to.value, Abs(step.value))))
  }

  function RangeOf(st: Settings, src: string, to: string, step: string): Result<seq<string>> {
    Range(st.End(src), st.End(to), st.read(st.step), st.read(step))
  }

  function Then(a: Result<seq<string>>, b: Result<seq<string>>): Result<seq<string>> {
    if a.Error? || b.Error? then Error else Ok(a.value + b.value)
  }

  /** The rest of a list, after the value `prev`. */
  function ExpandRest(st: Settings, rest: seq<string>, prev: Option<string>): Result<seq<string>>
    decreases |rest|
  {
    if rest == [] then Ok([])
    else if !IsTo(rest[0]) then Then(Ok([Tidy(st.range, rest[0])]), ExpandRest(st, rest[1..], Some(rest[0])))
    else if prev.None? || |rest| < 2 then Error
    else if |rest| > 2 && IsBy(rest[2]) then
      if |rest| < 4 then Error
      else Then(RangeOf(st, prev.value, rest[1], rest[3]), ExpandRest(st, rest[4..], Some(rest[3])))
    else Then(RangeOf(st, prev.value, rest[1], st.step), ExpandRest(st, rest[2..], Some(rest[1])))
  }

  function Expanded(st: Settings, values: seq<string>): Result<seq<string>> {
    if |values| == 1 then Ok(values) else ExpandRest(st, values, None)
  }

  lemma ThenNothing(a: Result<seq<string>>)
    ensures Then(Ok([]), a) == a && Then(a, Ok([])) == a
  {
    if a.Ok? {
      assert [] + a.value == a.value && a.value + [] == a.value;
    }
  }

  lemma ThenThen(a: Result<seq<string>>, b: Result<seq<string>>, c: Result<seq<string>>)
    ensures Then(Then(a, b), c) == Then(a, Then(b, c))
  {
    if a.Ok? && b.Ok? && c.Ok? {
      assert a.value + b.value + c.value == a.value + (b.value + c.value);
    }
  }

  // ---- lists made of groups -------------------------------------------------------------

  datatype Item = Plain(s: string) | To(b: string) | ToBy(b: string, c: string) {
    function Tokens(): seq<string> {
      match this
      case Plain(s) => [s]
      case To(b) => ["to", b]
      case ToBy(b, c) => ["to", b, "by", c]
    }

    function Last(): string {
      match this
      case Plain(s) => s
      case To(b) => b
      case ToBy(_, c) => c
    }

    predicate Valid() {
      Plain? ==> !IsTo(s) && !IsBy(s)
    }
  }

  function Render(items: seq<Item>): seq<string> {
    if items == [] then [] else items[0].Tokens() + Render(items[1..])
  }

  /** What one item contributes, after the value `prev`. */
  function Contribution(st: Settings, item: Item, prev: Option<string>): Result<seq<string>> {
    if item.Plain? then Ok([Tidy(st.range, item.s)])
    else if prev.None? then Error
    else RangeOf(st, prev.value, item.b, if item.ToBy? then item.c else st.step)
  }

  function Contributions(st: Settings, items: seq<Item>, prev: Option<string>): Result<seq<string>> {
    if items == [] then Ok([])
    else Then(Contribution(st, items[0], prev), Contributions(st, items[1..], Some(items[0].Last())))
  }

  /** A list of items is expanded item by item. */
  lemma {:induction false} RestOfItems(st: Settings, items: seq<Item>, prev: Option<string>)
    requires forall i :: 0 <= i < |items| ==> items[i].Valid()
    ensures ExpandRest(st, Render(items), prev) == Contributions(st, items, prev)
  {
    if items != [] {
      var item, rest := items[0], Render(items[1..]);
      var all := Render(items);
      RestOfItems(st, items[1..], Some(item.Last()));
      FirstToken(items[1..]);
      match item {
        case Plain(s) =>
          assert all[1..] == rest;
        case To(b) =>
          assert all[2..] == rest && (|all| > 2 ==> all[2] == rest[0]);
        case ToBy(b, c) =>
          assert all[4..] == rest;
      }
    }
  }

  lemma FirstToken(items: seq<Item>)
    requires forall i :: 0 <= i < |items| ==> items[i].Valid()
    ensures Render(items) != [] ==> !IsBy(Render(items)[0])
  {
  }

  /** A group `a/to/b/by/c` with readable numbers gives `a` and the progression towards `b`; it is rejected
      exactly when the step is 0, or negative although `a` is less than `b`. */
  lemma GroupMeaning(st: Settings, item: Item, prev: string, a: int, b: int, c: int)
    requires !item.Plain? && st.End(prev) == Ok(a) && st.End(item.b) == Ok(b)
    requires st.read(if item.ToBy? then item.c else st.step) == Ok(c) && st.read(st.step).Ok?
    ensures Contribution(st, item, Some(prev)) ==
            if c == 0 || (a < b && c < 0) then Error else Ok(Printed(Progression(a, b, Abs(c))))
  {
  }

  /** The numbers of an item can be read; a range needs a value before it. */
  predicate Readable(st: Settings, item: Item, prev: Option<string>) {
    item.Plain? ||
    (prev.Some? && st.End(prev.value).Ok? && st.End(item.b).Ok? && Step(st, item).Ok? && st.read(st.step).Ok?)
  }

  function Step(st: Settings, item: Item): Result<int> {
    st.read(if item.ToBy? then item.c else st.step)
  }

  predicate AllReadable(st: Settings, items: seq<Item>, prev: Option<string>) {
    items == [] || (Readable(st, items[0], prev) && AllReadable(st, items[1..], Some(items[0].Last())))
  }

  /** The step leads somewhere: it is not 0, and not negative between increasing ends. */
  predicate Leads(a: int, b: int, c: int) {
    c != 0 && !(a < b && c < 0)
  }

  predicate AllLead(st: Settings, items: seq<Item>, prev: Option<string>)
    requires AllReadable(st, items, prev)
  {
    items == [] ||
    ((items[0].Plain? || Leads(st.End(prev.value).value, st.End(items[0].b).value, Step(st, items[0]).value))
     && AllLead(st, items[1..], Some(items[0].Last())))
  }

  /** How many steps fit between the ends. */
  function StepsIn(a: int, b: int, c: int): nat {
    if c == 0 then 0 else Abs(b - a) / Abs(c)
  }

  /** One value for each plain item, and one for each step that fits in a range. */
  function ValueCount(st: Settings, items: seq<Item>, prev: Option<string>): nat
    requires AllReadable(st, items, prev)
  {
    if items == [] then 0
    else
      (if items[0].Plain? then 1
       else StepsIn(st.End(prev.value).value, st.End(items[0].b).value, Step(st, items[0]).value))
      + ValueCount(st, items[1..], Some(items[0].Last()))
  }

  /** A readable list is rejected exactly when one of its steps leads nowhere, and otherwise has as many
      values as its items announce. */
  lemma {:induction false} RejectedExactly(st: Settings, items: seq<Item>, prev: Option<string>)
    requires AllReadable(st, items, prev)
    ensures var r := Contributions(st, items, prev);
            && (r.Ok? <==> AllLead(st, items, prev))
            && (r.Ok? ==> |r.value| == ValueCount(st, items, prev))
  {
    if items != [] {
      var item := items[0];
      RejectedExactly(st, items[1..], Some(item.Last()));
      if !item.Plain? {
        RangeRejected(st, item, prev.value, st.End(prev.value).value, st.End(item.b).value, Step(st, item).value);
      }
    }
  }

  lemma RangeRejected(st: Settings, item: Item, prev: string, a: int, b: int, c: int)
    requires !item.Plain? && st.End(prev) == Ok(a) && st.End(item.b) == Ok(b) && Step(st, item) == Ok(c)
             && st.read(st.step).Ok?
    ensures var r := Contribution(st, item, Some(prev));
            (r.Ok? <==> Leads(a, b, c)) && (r.Ok? ==> |r.value| == StepsIn(a, b, c))
  {
    GroupMeaning(st, item, prev, a, b, c);
    if c != 0 {
      ProgressionMeaning(a, b, Abs(c));
    }
  }

  /** A list of items is expanded item by item: it is accepted exactly when every step leads somewhere. */
  lemma ExpandedItems(st: Settings, items: seq<Item>)
    requires forall i :: 0 <= i < |items| ==> items[i].Valid()
    requires AllReadable(st, items, None) && |Render(items)| != 1
    ensures var r := Expanded(st, Render(items));
            && r == Contributions(st, items, None)
            && (r.Ok? <==> AllLead(st, items, None))
            && (r.Ok? ==> |r.value| == ValueCount(st, items, None))
  {
    RestOfItems(st, items, None);
    RejectedExactly(st, items, None);
  }

  /** The ends of a range are tidied before they are read, and a plain value is tidied. */
  lemma EndIsTidied(st: Settings, s: string)
    requires ReadsPrinted(st.read) && Canonical(st.range, s).Some?
    ensures st.End(s) == Ok(ValueOf(s)) && Tidy(st.range, s) == Print(ValueOf(s))
  {
  }

  /** `a/to/b/by/c` over integers in the range: the first value, then the progression, in canonical form. */
  lemma RangeBy(st: Settings, a: string, to: string, b: string, every: string, c: int)
    requires ReadsPrinted(st.read) && st.read(st.step).Ok? && to in {"to", "TO"} && every in {"by", "BY"}
    requires Canonical(st.range, a).Some? && Canonical(st.range, b).Some? && !IsTo(a)
    ensures Expanded(st, [a, to, b, every, Print(c)]) ==
            if c == 0 || (ValueOf(a) < ValueOf(b) && c < 0) then Error
            else Ok([Print(ValueOf(a))] + Printed(Progression(ValueOf(a), ValueOf(b), Abs(c))))
  {
    var values := [a, to, b, every, Print(c)];
    TokensMeaning(to);
    TokensMeaning(every);
    EndIsTidied(st, a);
    EndIsTidied(st, b);
    var rest := values[1..];
    assert rest[0] == to && rest[1] == b && rest[2] == every && rest[3] == Print(c) && rest[4..] == [];
    assert ExpandRest(st, [], Some(Print(c))) == Ok([]);
    var r := RangeOf(st, a, b, Print(c));
    ThenNothing(r);
    assert ExpandRest(st, rest, Some(a)) == r;
    assert Expanded(st, values) == Then(Ok([Print(ValueOf(a))]), r);
  }

  /** `a/to/b` uses the step of the type. */
  lemma RangeTo(st: Settings, a: string, to: string, b: string, c: int)
    requires ReadsPrinted(st.read) && st.read(st.step) == Ok(c) && to in {"to", "TO"}
    requires Canonical(st.range, a).Some? && Canonical(st.range, b).Some? && !IsTo(a)
    ensures Expanded(st, [a, to, b]) ==
            if c == 0 || (ValueOf(a) < ValueOf(b) && c < 0) then Error
            else Ok([Print(ValueOf(a))] + Printed(Progression(ValueOf(a), ValueOf(b), Abs(c))))
  {
    var values := [a, to, b];
    TokensMeaning(to);
    EndIsTidied(st, a);
    EndIsTidied(st, b);
    var rest := values[1..];
    assert rest[0] == to && rest[1] == b && rest[2..] == [];
    assert ExpandRest(st, [], Some(b)) == Ok([]);
    var r := RangeOf(st, a, b, st.step);
    ThenNothing(r);
    assert ExpandRest(st, rest, Some(a)) == r;
    assert Expanded(st, values) == Then(Ok([Print(ValueOf(a))]), r);
  }

  /** A list that starts with `to`, or has nothing after it, is rejected. */
  lemma MisplacedTo(st: Settings, values: seq<string>)
    requires |values| != 1 && values != []
    requires values[0] in {"to", "TO"} || (values[|values| - 1] in {"to", "TO"} && |values| == 2)
    ensures Expanded(st, values).Error?
  {
    TokensMeaning(values[0]);
    TokensMeaning(values[|values| - 1]);
    if |values| == 2 {
      assert values[1..] == [values[1]];
      assert IsTo(values[1]) ==> ExpandRest(st, values[1..], Some(values[0])).Error?;
    }
  }

  /** A `to` chained after a `by` starts from the step: 1/to/5/by/2/to/6 goes to 5, then on from 2. */
  lemma ChainAfterByStartsFromTheStep(st: Settings, items: seq<Item>)
    requires ReadsPrinted(st.read) && st.range == None && st.step == Print(1)
    requires items == [Plain(Print(1)), ToBy(Print(5), Print(2)), To(Print(6))]
    ensures Contributions(st, items, None) == Ok([Print(1)] + (Printed([3, 5]) + Printed([3, 4, 5, 6])))
  {
    TidyPrint(None, 1);
    TidyPrint(None, 2);
    TidyPrint(None, 5);
    TidyPrint(None, 6);
    GroupMeaning(st, items[1], Print(1), 1, 5, 2);
    GroupMeaning(st, items[2], Print(2), 2, 6, 1);
    assert Progression(1, 5, 2) == [3] + Progression(3, 5, 2) == [3, 5];
    assert Progression(4, 6, 1) == [5] + Progression(5, 6, 1) == [5, 6];
    assert Progression(2, 6, 1) == [3] + Progression(3, 6, 1) == [3, 4, 5, 6];
    ThreeItems(st, items);
  }

  lemma ThreeItems(st: Settings, items: seq<Item>)
    requires |items| == 3
    ensures Contributions(st, items, None) ==
            Then(Contribution(st, items[0], None),
                 Then(Contribution(st, items[1], Some(items[0].Last())),
                      Contribution(st, items[2], Some(items[1].Last()))))
  {
    ThenNothing(Contribution(st, items[2], Some(items[1].Last())));
    assert items[2..][1..] == [] && items[1..][1..] == items[2..];
    assert Contributions(st, items[2..], Some(items[1].Last())) == Contribution(st, items[2], Some(items[1].Last()));
  }

  // ---- the operation --------------------------------------------------------------------

  /** The loop over one range; it stops at the first value past the end. */
  method Sequence(st: Settings, src: int, to: int, toString: string, step: int) returns (added: seq<string>)
    requires ReadsPrinted(st.read) && st.read(toString) == Ok(to)
    requires step != 0 && !(src < to && step < 0)
    ensures added == Printed(Progression(src, to, Abs(step)))
  {
    var addBy := (src < to && step > 0) || (src > to && step < 0);
    added := [];
    var j := src;
    ghost var whole := Progression(src, to, Abs(step));
    while j != to
      invariant src < to ==> src <= j <= to
      invariant src > to ==> src >= j >= to
      invariant src == to ==> j == to
      invariant |added| <= |whole| && whole[|added|..] == Progression(j, to, Abs(step))
      invariant added == Printed(whole[..|added|])
      decreases Abs(to - j)
    {
      ghost var before := j;
      j := if addBy then j + step else j - step;
      assert j == Towards(before, to, Abs(step));
      var js := Tidy(st.range, Print(j));
      TidyPrint(st.range, j);
      assert st.read(Print(j)) == Ok(j);
      if ((src < to && j > to) || (src > to && j < to)) && j != to && js != toString {
        assert whole[..|added|] == whole;
        return;
      }
      assert whole[|added|..][0] == j && whole[|added|..][1..] == whole[|added| + 1..];
      added := added + [js];
    }
    assert whole[..|added|] == whole;
  }

  /** The range at position `i`: what it adds, and the position of its last token. */
  method RangeAt(st: Settings, values: seq<string>, start: nat) returns (r: Result<seq<string>>, i: nat)
    requires ReadsPrinted(st.read)
    requires 0 < start < |values| && IsTo(values[start])
    ensures start <= i && (r.Ok? ==> i < |values|)
    ensures ExpandRest(st, values[start..], Some(values[start - 1])) ==
            if r.Error? then Error else Then(r, ExpandRest(st, values[i + 1..], Some(values[i])))
  {
    i := start;
    if |values| <= i + 1 {
      return Error, i;
    }
    var src, toString := st.End(values[i - 1]), Tidy(st.range, values[i + 1]);
    var to, usual := st.read(toString), st.read(st.step);
    if src.Error? || to.Error? || usual.Error? {
      return Error, i;
    }
    var step := usual;
    if i + 2 < |values| && IsBy(values[i + 2]) {
      if |values| <= i + 3 {
        return Error, i;
      }
      step := st.read(values[i + 3]);
      i := i + 2;
    }
    i := i + 1;
    assert values[start..][i - start + 1..] == values[i + 1..];
    if step.Error? || step.value == 0 || (src.value < to.value && step.value < 0) {
      return Error, i;
    }
    var added := Sequence(st, src.value, to.value, toString, step.value);
    r := Ok(added);
  }

  /** `expandRanges` */
  /** The new list so far, and what the values from here on add to it, are the whole. */
  ghost predicate ToCome(st: Settings, values: seq<string>, newval: seq<string>, i: nat)
    requires i <= |values|
  {
    Expanded(st, values) == Then(Ok(newval), ExpandRest(st, values[i..], Before(values, i)))
  }

  lemma AllToCome(st: Settings, values: seq<string>)
    requires |values| != 1
    ensures ToCome(st, values, [], 0)
  {
    ThenNothing(ExpandRest(st, values, None));
    assert values[0..] == values;
  }

  /** A `to` without a value in front of it. */
  lemma NoStart(st: Settings, values: seq<string>, newval: seq<string>)
    requires values != [] && IsTo(values[0]) && ToCome(st, values, newval, 0)
    ensures Expanded(st, values).Error?
  {
  }

  lemma RangeFails(st: Settings, values: seq<string>, newval: seq<string>, i: nat)
    requires i < |values| && ToCome(st, values, newval, i) && ExpandRest(st, values[i..], Before(values, i)).Error?
    ensures Expanded(st, values).Error?
  {
  }

  lemma RangeTaken(st: Settings, values: seq<string>, newval: seq<string>, i: nat, last: nat, added: seq<string>)
    requires i <= last < |values| && ToCome(st, values, newval, i)
    requires ExpandRest(st, values[i..], Before(values, i))
             == Then(Ok(added), ExpandRest(st, values[last + 1..], Some(values[last])))
    ensures ToCome(st, values, newval + added, last + 1)
  {
    ThenThen(Ok(newval), Ok(added), ExpandRest(st, values[last + 1..], Some(values[last])));
  }

  lemma PlainTaken(st: Settings, values: seq<string>, newval: seq<string>, i: nat)
    requires i < |values| && !IsTo(values[i]) && ToCome(st, values, newval, i)
    ensures ToCome(st, values, newval + [Tidy(st.range, values[i])], i + 1)
  {
    assert values[i..][1..] == values[i + 1..];
    RangeTaken(st, values, newval, i, i, [Tidy(st.range, values[i])]);
  }

  lemma NothingToCome(st: Settings, values: seq<string>, newval: seq<string>)
    requires ToCome(st, values, newval, |values|)
    ensures Expanded(st, values) == Ok(newval)
  {
    ThenNothing(Ok(newval));
  }

  /** One `to` with what belongs to it: the list with the range added, and the position after it. */
  method TakeRange(st: Settings, values: seq<string>, newval: seq<string>, i: nat)
    returns (r: Result<seq<string>>, next: nat)
    requires ReadsPrinted(st.read)
    requires i < |values| && IsTo(values[i]) && ToCome(st, values, newval, i) && (newval == [] <==> i == 0)
    ensures r.Error? ==> Expanded(st, values).Error?
    ensures r.Ok? ==> i < next <= |values| && r.value != [] && ToCome(st, values, r.value, next)
  {
    next := i;
    if newval == [] {
      NoStart(st, values, newval);
      return Error, next;
    }
    var added, last := RangeAt(st, values, i);
    if added.Error? {
      RangeFails(st, values, newval, i);
      return Error, next;
    }
    RangeTaken(st, values, newval, i, last, added.value);
    r, next := Ok(newval + added.value), last + 1;
  }

  method ExpandRanges(st: Settings, values: seq<string>) returns (r: Result<seq<string>>)
    requires ReadsPrinted(st.read)
    ensures r == Expanded(st, values)
  {
    if |values| == 1 {
      return Ok(values);
    }
    var newval: seq<string> := [];
    var i := 0;
    AllToCome(st, values);
    while i < |values|
      invariant i <= |values| && ToCome(st, values, newval, i)
      invariant newval == [] <==> i == 0
      decreases |values| - i
    {
      if IsTo(values[i]) {
        var taken, next := TakeRange(st, values, newval, i);
        if taken.Error? {
          return Error;
        }
        newval, i := taken.value, next;
      } else {
        PlainTaken(st, values, newval, i);
        newval, i := newval + [Tidy(st.range, values[i])], i + 1;
      }
    }
    NothingToCome(st, values, newval);
    r := Ok(newval);
  }

  function Before(values: seq<string>, i: nat): Option<string>
    requires i <= |values|
  {
    if i == 0 then None else Some(values[i - 1])
  }
}
