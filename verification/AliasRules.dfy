/** The tables of a param rule: the values it knows, and the id that each alias stands for. */
module AliasRules {
  /** An id with its aliases, the preferred ones first; an id without a list of aliases has none. */
  datatype Definition = Definition(id: string, aliases: seq<string>)

  datatype Table = Table(values: seq<string>, mapping: map<string, string>, precedence: map<string, nat>) {
    /** A look-up creates a missing precedence, which is 0. */
    function Precedence(v: string): nat {
      if v in precedence then precedence[v] else 0
    }

    predicate Keeps(v: string, j: nat) {
      v in mapping && Precedence(v) <= j
    }
  }

  function Note(t: Table, id: string, v: string, j: nat): Table {
    if t.Keeps(v, j) then t
    else Table(t.values + [v], t.mapping[v := id], t.precedence[v := j])
  }

  /** The first `k` aliases of a definition. */
  function NoteAliases(t: Table, d: Definition, k: nat): Table
    requires k <= |d.aliases|
  {
    if k == 0 then t.(values := t.values + [d.id])
    else Note(NoteAliases(t, d, k - 1), d.id, d.aliases[k - 1], k - 1)
  }

  function Fill(t: Table, ds: seq<Definition>): Table {
    if ds == [] then t
    else
      var d := ds[|ds| - 1];
      NoteAliases(Fill(t, ds[..|ds| - 1]), d, |d.aliases|)
  }

  // ---- the id that an alias should stand for --------------------------------------------

  ghost predicate ListedAt(ds: seq<Definition>, v: string, i: nat, j: nat) {
    i < |ds| && j < |ds[i].aliases| && ds[i].aliases[j] == v
  }

  /** Definition `i` lists the alias at the smallest position of all, and is the first to do so. */
  ghost predicate Wins(ds: seq<Definition>, v: string, i: nat, j: nat) {
    && ListedAt(ds, v, i, j)
    && forall a: nat, b: nat :: ListedAt(ds, v, a, b) ==> j < b || (j == b && i <= a)
  }

  ghost predicate Listed(ds: seq<Definition>, v: string) {
    exists i: nat, j: nat :: ListedAt(ds, v, i, j)
  }

  // ---- one definition -------------------------------------------------------------------

  /** The position of the alias among the first `k`, or `k`. */
  function FirstAmong(aliases: seq<string>, v: string, k: nat): (j: nat)
    requires k <= |aliases|
    ensures j <= k && (j < k ==> aliases[j] == v) && forall i :: 0 <= i < j ==> aliases[i] != v
  {
    if k == 0 then 0
    else
      var j := FirstAmong(aliases, v, k - 1);
      if j < k - 1 || aliases[k - 1] == v then j else k
  }

  lemma {:induction false} AfterAliases(t: Table, d: Definition, k: nat, v: string)
    requires k <= |d.aliases|
    ensures var j, u := FirstAmong(d.aliases, v, k), NoteAliases(t, d, k);
            if j == k || t.Keeps(v, j) then
              (v in u.mapping <==> v in t.mapping) && (v in t.mapping ==> u.mapping[v] == t.mapping[v])
              && u.Precedence(v) == t.Precedence(v)
            else v in u.mapping && u.mapping[v] == d.id && v in u.precedence && u.precedence[v] == j
  {
    if k > 0 {
      AfterAliases(t, d, k - 1, v);
    }
  }

  // ---- the whole table ------------------------------------------------------------------

  /** What the table says of one alias: nothing, what it said before, or what the winner says. */
  ghost predicate Right(t: Table, ds: seq<Definition>, v: string, u: Table) {
    if v in t.mapping then v in u.mapping && u.mapping[v] == t.mapping[v] && u.Precedence(v) == 0
    else
      && (v in u.mapping <==> Listed(ds, v))
      && (v in u.mapping ==> exists i: nat, j: nat ::
            Wins(ds, v, i, j) && u.mapping[v] == ds[i].id && u.Precedence(v) == j)
  }

  lemma ListedSnoc(ds: seq<Definition>, n: nat, v: string)
    requires |ds| == n + 1
    ensures forall i: nat, j: nat :: ListedAt(ds, v, i, j) <==>
            if i < n then ListedAt(ds[..n], v, i, j) else ListedAt(ds, v, i, j) && i == n
  {
  }

  /** An alias stands for the id that lists it at the smallest position, and of those for the first one; an
      alias that was there before stays as it was. */
  lemma {:induction false} AliasesAreRight(t: Table, ds: seq<Definition>, v: string)
    requires t.precedence == map[]
    ensures Right(t, ds, v, Fill(t, ds))
  {
    if ds != [] {
      var n := |ds| - 1;
      var before, d := Fill(t, ds[..n]), ds[n];
      var j := FirstAmong(d.aliases, v, |d.aliases|);
      AliasesAreRight(t, ds[..n], v);
      AfterAliases(before, d, |d.aliases|, v);
      ListedSnoc(ds, n, v);
      if v !in t.mapping {
        OneMore(ds, n, v, j, before, Fill(t, ds));
      }
    }
  }

  lemma OneMore(ds: seq<Definition>, n: nat, v: string, j: nat, before: Table, after: Table)
    requires |ds| == n + 1 && j == FirstAmong(ds[n].aliases, v, |ds[n].aliases|)
    requires v in before.mapping <==> Listed(ds[..n], v)
    requires v in before.mapping ==>
               exists i: nat, k: nat ::
                 Wins(ds[..n], v, i, k) && before.mapping[v] == ds[..n][i].id && before.Precedence(v) == k
    requires if j == |ds[n].aliases| || before.Keeps(v, j) then
               && (v in after.mapping <==> v in before.mapping)
               && (v in before.mapping ==> after.mapping[v] == before.mapping[v])
               && after.Precedence(v) == before.Precedence(v)
             else v in after.mapping && after.mapping[v] == ds[n].id && after.Precedence(v) == j
    ensures v in after.mapping <==> Listed(ds, v)
    ensures v in after.mapping ==>
              exists i: nat, k: nat :: Wins(ds, v, i, k) && after.mapping[v] == ds[i].id && after.Precedence(v) == k
  {
    ListedSnoc(ds, n, v);
    if j < |ds[n].aliases| {
      assert ListedAt(ds, v, n, j);
    }
    if v in before.mapping {
      var i: nat, k: nat :| Wins(ds[..n], v, i, k) && before.mapping[v] == ds[..n][i].id && before.Precedence(v) == k;
      assert ListedAt(ds, v, i, k);
      if j == |ds[n].aliases| || before.Keeps(v, j) {
        assert Wins(ds, v, i, k);
      } else {
        assert Wins(ds, v, n, j);
      }
    } else if j < |ds[n].aliases| {
      assert forall a: nat, b: nat :: ListedAt(ds, v, a, b) ==> a == n;
      assert Wins(ds, v, n, j);
    }
  }

  /** The winner is the only one: the id is determined. */
  lemma WinnerIsUnique(ds: seq<Definition>, v: string, i: nat, j: nat, a: nat, b: nat)
    requires Wins(ds, v, i, j) && Wins(ds, v, a, b)
    ensures i == a && j == b
  {
    assert ListedAt(ds, v, i, j) && ListedAt(ds, v, a, b);
  }

  // ---- the values -----------------------------------------------------------------------

  lemma {:induction false} ValuesAfterAliases(t: Table, d: Definition, k: nat, v: string)
    requires k <= |d.aliases| && (v in t.mapping ==> v in t.values)
    ensures var u := NoteAliases(t, d, k);
            && (v in u.mapping ==> v in u.values)
            && (v in t.values || v == d.id ==> v in u.values)
            && (v in u.values ==> v in t.values || v == d.id || v in u.mapping)
  {
    if k > 0 {
      ValuesAfterAliases(t, d, k - 1, v);
    }
  }

  ghost predicate IsId(ds: seq<Definition>, v: string) {
    exists i :: 0 <= i < |ds| && ds[i].id == v
  }

  /** The values are those that were there, every id, and every mapped alias. */
  lemma {:induction false} ValuesAreRight(t: Table, ds: seq<Definition>, v: string)
    requires t.precedence == map[] && (v in t.mapping ==> v in t.values)
    ensures v in Fill(t, ds).values <==> v in t.values || IsId(ds, v) || v in Fill(t, ds).mapping
  {
    if ds != [] {
      var n := |ds| - 1;
      ValuesAreRight(t, ds[..n], v);
      ValuesAfterAliases(Fill(t, ds[..n]), ds[n], |ds[n].aliases|, v);
      AfterAliases(Fill(t, ds[..n]), ds[n], |ds[n].aliases|, v);
      IdOfLast(ds, v);
    }
  }

  lemma IdOfLast(ds: seq<Definition>, v: string)
    requires ds != []
    ensures var n := |ds| - 1; IsId(ds, v) <==> IsId(ds[..n], v) || ds[n].id == v
  {
    var n := |ds| - 1;
    if i :| 0 <= i < n && ds[..n][i].id == v {
      assert ds[i].id == v;
    }
    if i :| 0 <= i < |ds| && ds[i].id == v {
      assert i < n ==> ds[..n][i].id == v;
    }
  }

  /** The values of each definition go after what is there: its id first, then its aliases. */
  lemma {:induction false} DefinitionGoesAfter(t: Table, d: Definition, k: nat)
    requires k <= |d.aliases|
    ensures t.values + [d.id] <= NoteAliases(t, d, k).values
  {
    if k > 0 {
      DefinitionGoesAfter(t, d, k - 1);
    }
  }

  lemma {:induction false} ValuesGrow(t: Table, ds: seq<Definition>, n: nat)
    requires n < |ds|
    ensures t.values <= Fill(t, ds[..n]).values
    ensures Fill(t, ds[..n]).values + [ds[n].id] <= Fill(t, ds[..n + 1]).values
  {
    if n > 0 {
      ValuesGrow(t, ds, n - 1);
    }
    assert ds[..n + 1][..n] == ds[..n];
    DefinitionGoesAfter(Fill(t, ds[..n]), ds[n], |ds[n].aliases|);
  }

  // ---- the operation --------------------------------------------------------------------

  class Rule {
    var values: seq<string>
    var mapping: map<string, string>

    /** A rule starts with empty tables. */
    constructor ()
      ensures values == [] && mapping == map[]
    {
      values, mapping := [], map[];
    }

    /** The loops of the constructor and of `setDefault`. */
    method Define(ds: seq<Definition>)
      modifies this
      ensures var t := Fill(Table(old(values), old(mapping), map[]), ds); values == t.values && mapping == t.mapping
      ensures forall v :: v in mapping <==> v in old(mapping) || Listed(ds, v)
      ensures forall v :: v in old(mapping) ==> mapping[v] == old(mapping[v])
      ensures forall v, i: nat, j: nat ::
                v !in old(mapping) && Wins(ds, v, i, j) ==> v in mapping && mapping[v] == ds[i].id
    {
      ghost var start := Table(values, mapping, map[]);
      var precedence: map<string, nat> := map[];
      for i := 0 to |ds|
        invariant Table(values, mapping, precedence) == Fill(start, ds[..i])
      {
        var d := ds[i];
        assert ds[..i + 1][..i] == ds[..i];
        ghost var before := Fill(start, ds[..i]);
        values := values + [d.id];
        for j := 0 to |d.aliases|
          invariant Table(values, mapping, precedence) == NoteAliases(before, d, j)
        {
          var v := d.aliases[j];
          if v in mapping {
            var known := if v in precedence then precedence[v] else 0;
            if known <= j {
              continue;
            }
          }
          precedence := precedence[v := j];
          mapping := mapping[v := d.id];
          values := values + [v];
        }
      }
      assert ds[..|ds|] == ds;
      forall v
        ensures v in mapping <==> v in start.mapping || Listed(ds, v)
        ensures v in start.mapping ==> v in mapping && mapping[v] == start.mapping[v]
      {
        AliasesAreRight(start, ds, v);
      }
      forall v, i: nat, j: nat | v !in start.mapping && Wins(ds, v, i, j)
        ensures v in mapping && mapping[v] == ds[i].id
      {
        Winner(start, ds, v, i, j);
      }
    }
  }

  lemma Winner(t: Table, ds: seq<Definition>, v: string, i: nat, j: nat)
    requires t.precedence == map[] && v !in t.mapping && Wins(ds, v, i, j)
    ensures v in Fill(t, ds).mapping && Fill(t, ds).mapping[v] == ds[i].id
  {
    var u := Fill(t, ds);
    AliasesAreRight(t, ds, v);
    assert ListedAt(ds, v, i, j);
    var a: nat, b: nat :| Wins(ds, v, a, b) && u.mapping[v] == ds[a].id && u.Precedence(v) == b;
    WinnerIsUnique(ds, v, i, j, a, b);
  }
}
