/**
 * The top-spender list of `TopSpenders` in src/App.jsx: gross and net summed per spender
 * name in a map, the spenders ordered by gross, largest first, and the first three kept.
 *
 * The name of a transaction is a parameter `nameOf`. The source derives it from a `text`
 * field that the parsed rows never carry, so in practice every transaction is named
 * "Unknown" (`Unnamed`); the grouping is proved for any naming.
 */
module Spenders {
  import opened RowParser
  import opened Aggregate
  import opened Sorting

  /** One entry of the list. */
  datatype Spender = Spender(name: string, gross: int, net: int)

  /** The running sums the map holds for one name. */
  datatype Amounts = Amounts(gross: int, net: int)

  /** The name every parsed transaction gets: it has no `text`. */
  function Unnamed(t: Transaction): string { "Unknown" }

  /** The names of `ps` in order of first appearance: the key order of the map. */
  function Names(ps: seq<Transaction>, nameOf: Transaction -> string): seq<string> {
    if ps == [] then []
    else
      var names, n := Names(ps[..|ps| - 1], nameOf), nameOf(ps[|ps| - 1]);
      if n in names then names else names + [n]
  }

  /** The gross of the transactions named `n`. */
  function GrossOf(ps: seq<Transaction>, nameOf: Transaction -> string, n: string): int {
    if ps == [] then 0
    else GrossOf(ps[..|ps| - 1], nameOf, n) + (if nameOf(ps[|ps| - 1]) == n then ps[|ps| - 1].gross else 0)
  }

  /** The net of the transactions named `n`. */
  function NetOf(ps: seq<Transaction>, nameOf: Transaction -> string, n: string): int {
    if ps == [] then 0
    else NetOf(ps[..|ps| - 1], nameOf, n) + (if nameOf(ps[|ps| - 1]) == n then ps[|ps| - 1].net else 0)
  }

  /** The gross of all transactions. */
  function GrossSum(ps: seq<Transaction>): int {
    if ps == [] then 0 else GrossSum(ps[..|ps| - 1]) + ps[|ps| - 1].gross
  }

  /** One entry per name of `names`, with that name's sums over `ps`. */
  function Entries(ps: seq<Transaction>, nameOf: Transaction -> string, names: seq<string>): (r: seq<Spender>)
    ensures |r| == |names|
    ensures forall i {:trigger r[i]} :: 0 <= i < |names| ==> r[i] == Spender(names[i], GrossOf(ps, nameOf, names[i]), NetOf(ps, nameOf, names[i]))
  {
    if names == [] then []
    else
      var n := names[|names| - 1];
      Entries(ps, nameOf, names[..|names| - 1]) + [Spender(n, GrossOf(ps, nameOf, n), NetOf(ps, nameOf, n))]
  }

  /** `Array.from(userMap.entries())`: one entry per name, in the map's order. */
  function Grouped(ps: seq<Transaction>, nameOf: Transaction -> string): (r: seq<Spender>)
    ensures |r| == |Names(ps, nameOf)|
    ensures forall i :: 0 <= i < |r| ==> r[i].name == Names(ps, nameOf)[i]
    ensures forall i :: 0 <= i < |r| ==> r[i].gross == GrossOf(ps, nameOf, r[i].name) && r[i].net == NetOf(ps, nameOf, r[i].name)
  {
    Entries(ps, nameOf, Names(ps, nameOf))
  }

  /** The sort key of `(a, b) => b.gross - a.gross`. */
  function ByGross(s: Spender): int { -s.gross }

  function Gross(s: Spender): int { s.gross }

  function Net(s: Spender): int { s.net }

  function NameOf(s: Spender): string { s.name }

  /** `slice(0, 3)`. */
  function FirstThree(s: seq<Spender>): seq<Spender> {
    if |s| <= 3 then s else s[..3]
  }

  /** The list the component shows: the grouped entries by gross, largest first, at most three. */
  function Top(ps: seq<Transaction>, nameOf: Transaction -> string): (r: seq<Spender>)
    ensures |r| == if |Names(ps, nameOf)| < 3 then |Names(ps, nameOf)| else 3
  {
    FirstThree(SortBy(Grouped(ps, nameOf), ByGross))
  }

  /** The names of the entries of `r`. */
  function Kept(r: seq<Spender>): set<string> {
    set i | 0 <= i < |r| :: r[i].name
  }

  /** The `topSpenders` memo: one `forEach` that fills the map, then the entries, the sort and the slice. */
  method TopSpenders(parsed: seq<Transaction>, nameOf: Transaction -> string) returns (r: seq<Spender>)
    ensures r == Top(parsed, nameOf)
  {
    if |parsed| == 0 {
      return [];
    }
    var users: map<string, Amounts> := map[];
    var order: seq<string> := [];
    for k := 0 to |parsed|
      invariant Tallied(parsed[..k], nameOf, order, users)
    {
      order, users := Record(parsed, nameOf, k, order, users);
    }
    assert parsed[..|parsed|] == parsed;
    MapEntriesGrouped(parsed, nameOf, order, users);
    var entries := MapEntries(order, users);
    var sorted := SortBy(entries, ByGross);
    r := if |sorted| <= 3 then sorted else sorted[..3];
  }

  /** One call of the `forEach` callback: the map after `k` transactions becomes the map after `k + 1`. */
  method Record(parsed: seq<Transaction>, nameOf: Transaction -> string, k: nat, order: seq<string>, users: map<string, Amounts>)
    returns (order': seq<string>, users': map<string, Amounts>)
    requires k < |parsed| && Tallied(parsed[..k], nameOf, order, users)
    ensures Tallied(parsed[..k + 1], nameOf, order', users')
  {
    var p := parsed[k];
    var name := nameOf(p);
    assert parsed[..k + 1][..k] == parsed[..k];
    if name in users {
      KnownSpender(parsed[..k + 1], nameOf, order, users);
      var current := users[name];
      order', users' := order, users[name := Amounts(current.gross + p.gross, current.net + p.net)];
    } else {
      NewSpender(parsed[..k + 1], nameOf, order, users);
      order', users' := order + [name], users[name := Amounts(p.gross, p.net)];
    }
  }

  /** `Array.from(userMap.entries())` for a map whose keys were added in the order `order`. */
  function MapEntries(order: seq<string>, users: map<string, Amounts>): seq<Spender>
    requires forall n :: n in order ==> n in users
  {
    seq(|order|, i requires 0 <= i < |order| => Spender(order[i], users[order[i]].gross, users[order[i]].net))
  }

  /** The state of the map after the transactions `ps`: a key per name, in first-appearance order, holding that name's sums. */
  ghost predicate Tallied(ps: seq<Transaction>, nameOf: Transaction -> string, order: seq<string>, users: map<string, Amounts>) {
    && order == Names(ps, nameOf)
    && (forall n :: n in users <==> n in order)
    && (forall n :: n in users ==> users[n] == Amounts(GrossOf(ps, nameOf, n), NetOf(ps, nameOf, n)))
  }

  /** A transaction of a name already in the map adds its amounts to that name's sums. */
  lemma KnownSpender(ps: seq<Transaction>, nameOf: Transaction -> string, order: seq<string>, users: map<string, Amounts>)
    requires ps != [] && Tallied(ps[..|ps| - 1], nameOf, order, users) && nameOf(ps[|ps| - 1]) in users
    ensures var t := ps[|ps| - 1]; var n := nameOf(t);
            Tallied(ps, nameOf, order, users[n := Amounts(users[n].gross + t.gross, users[n].net + t.net)])
  {
  }

  /** A transaction of a new name adds a key for it at the end, holding its amounts. */
  lemma NewSpender(ps: seq<Transaction>, nameOf: Transaction -> string, order: seq<string>, users: map<string, Amounts>)
    requires ps != [] && Tallied(ps[..|ps| - 1], nameOf, order, users) && nameOf(ps[|ps| - 1]) !in users
    ensures var t := ps[|ps| - 1]; var n := nameOf(t);
            Tallied(ps, nameOf, order + [n], users[n := Amounts(t.gross, t.net)])
  {
    UnseenName(ps[..|ps| - 1], nameOf, nameOf(ps[|ps| - 1]));
  }

  /** A map that holds the sums of every name of `ps`, keyed in first-appearance order, lists the grouped entries. */
  lemma MapEntriesGrouped(ps: seq<Transaction>, nameOf: Transaction -> string, order: seq<string>, users: map<string, Amounts>)
    requires Tallied(ps, nameOf, order, users)
    ensures MapEntries(order, users) == Grouped(ps, nameOf)
  {
  }

  /** A name is listed exactly when some transaction carries it. */
  lemma {:induction false} NamesIff(ps: seq<Transaction>, nameOf: Transaction -> string, n: string)
    ensures n in Names(ps, nameOf) <==> exists i :: 0 <= i < |ps| && nameOf(ps[i]) == n
  {
    if ps != [] {
      var init := ps[..|ps| - 1];
      NamesIff(init, nameOf, n);
      if i :| 0 <= i < |init| && nameOf(init[i]) == n {
        assert nameOf(ps[i]) == n;
      }
      if i :| 0 <= i < |ps| && nameOf(ps[i]) == n {
        if i < |init| {
          assert nameOf(init[i]) == n;
        }
      }
    }
  }

  /** Every name is listed once: the keys of a map are distinct. */
  lemma {:induction false} NamesDistinct(ps: seq<Transaction>, nameOf: Transaction -> string)
    ensures forall i, j :: 0 <= i < j < |Names(ps, nameOf)| ==> Names(ps, nameOf)[i] != Names(ps, nameOf)[j]
  {
    if ps != [] {
      NamesDistinct(ps[..|ps| - 1], nameOf);
    }
  }

  /** A name no transaction carries has nothing summed under it. */
  lemma {:induction false} UnseenName(ps: seq<Transaction>, nameOf: Transaction -> string, n: string)
    requires n !in Names(ps, nameOf)
    ensures GrossOf(ps, nameOf, n) == 0 && NetOf(ps, nameOf, n) == 0
  {
    if ps != [] {
      UnseenName(ps[..|ps| - 1], nameOf, n);
    }
  }

  /** A name occurs at most once in the listed names. */
  lemma {:induction false} NamesOnce(ps: seq<Transaction>, nameOf: Transaction -> string, x: string)
    ensures multiset(Names(ps, nameOf))[x] <= 1
  {
    if ps != [] {
      NamesOnce(ps[..|ps| - 1], nameOf, x);
    }
  }

  /** The last transaction adds its amounts to the entry of its name, when that name is listed once. */
  lemma {:induction false} EntriesStep(ps: seq<Transaction>, nameOf: Transaction -> string, names: seq<string>)
    requires ps != [] && multiset(names)[nameOf(ps[|ps| - 1])] <= 1
    ensures var t := ps[|ps| - 1];
            SumBy(Entries(ps, nameOf, names), Gross)
            == SumBy(Entries(ps[..|ps| - 1], nameOf, names), Gross) + (if nameOf(t) in names then t.gross else 0)
    ensures var t := ps[|ps| - 1];
            SumBy(Entries(ps, nameOf, names), Net)
            == SumBy(Entries(ps[..|ps| - 1], nameOf, names), Net) + (if nameOf(t) in names then t.net else 0)
  {
    if names != [] {
      var init, n := names[..|names| - 1], names[|names| - 1];
      var prev, x := ps[..|ps| - 1], nameOf(ps[|ps| - 1]);
      assert names == init + [n];
      EntriesStep(ps, nameOf, init);
      var a, b := Entries(ps, nameOf, init), Entries(prev, nameOf, init);
      assert (a + [Spender(n, GrossOf(ps, nameOf, n), NetOf(ps, nameOf, n))])[..|a|] == a;
      assert (b + [Spender(n, GrossOf(prev, nameOf, n), NetOf(prev, nameOf, n))])[..|b|] == b;
      assert x in names <==> x in init || x == n;
      if x == n {
        assert x !in init;
      }
    }
  }

  /** Grouping keeps the totals: the entries' gross and net add up to those of all transactions. */
  lemma {:induction false} GroupedTotals(ps: seq<Transaction>, nameOf: Transaction -> string)
    ensures SumBy(Grouped(ps, nameOf), Gross) == GrossSum(ps)
    ensures SumBy(Grouped(ps, nameOf), Net) == NetSum(ps)
  {
    if ps != [] {
      GroupedTotals(ps[..|ps| - 1], nameOf);
      GroupedGrows(ps, nameOf);
    }
  }

  /** The last transaction adds its gross and net to the entries' sums. */
  lemma GroupedGrows(ps: seq<Transaction>, nameOf: Transaction -> string)
    requires ps != []
    ensures SumBy(Grouped(ps, nameOf), Gross) == SumBy(Grouped(ps[..|ps| - 1], nameOf), Gross) + ps[|ps| - 1].gross
    ensures SumBy(Grouped(ps, nameOf), Net) == SumBy(Grouped(ps[..|ps| - 1], nameOf), Net) + ps[|ps| - 1].net
  {
    var prev, n := ps[..|ps| - 1], nameOf(ps[|ps| - 1]);
    var names := Names(ps, nameOf);
    NamesOnce(ps, nameOf, n);
    assert n in names;
    EntriesStep(ps, nameOf, names);
    if n in Names(prev, nameOf) {
      assert names == Names(prev, nameOf);
    } else {
      assert names == Names(prev, nameOf) + [n];
      ExtraName(prev, nameOf, n);
    }
  }

  /** A name without transactions adds an entry with nothing to the sums. */
  lemma ExtraName(ps: seq<Transaction>, nameOf: Transaction -> string, n: string)
    requires n !in Names(ps, nameOf)
    ensures SumBy(Entries(ps, nameOf, Names(ps, nameOf) + [n]), Gross) == SumBy(Grouped(ps, nameOf), Gross)
    ensures SumBy(Entries(ps, nameOf, Names(ps, nameOf) + [n]), Net) == SumBy(Grouped(ps, nameOf), Net)
  {
    var names := Names(ps, nameOf);
    assert (names + [n])[..|names|] == names;
    UnseenName(ps, nameOf, n);
    AppendSums(Grouped(ps, nameOf), Spender(n, 0, 0));
  }

  /** Appending an entry adds its gross and net to the sums. */
  lemma AppendSums(e: seq<Spender>, x: Spender)
    ensures SumBy(e + [x], Gross) == SumBy(e, Gross) + x.gross
    ensures SumBy(e + [x], Net) == SumBy(e, Net) + x.net
  {
    assert (e + [x])[..|e|] == e;
  }

  /** The entries come largest gross first. */
  lemma TopSorted(ps: seq<Transaction>, nameOf: Transaction -> string)
    ensures forall i, j :: 0 <= i < j < |Top(ps, nameOf)| ==> Top(ps, nameOf)[i].gross >= Top(ps, nameOf)[j].gross
  {
    var sorted := SortBy(Grouped(ps, nameOf), ByGross);
    SortBySorted(Grouped(ps, nameOf), ByGross);
    forall i, j | 0 <= i < j < |Top(ps, nameOf)| ensures Top(ps, nameOf)[i].gross >= Top(ps, nameOf)[j].gross {
      assert Top(ps, nameOf)[i] == sorted[i] && Top(ps, nameOf)[j] == sorted[j];
    }
  }

  /** Each entry is a listed name with the gross and net of all its transactions. */
  lemma TopSums(ps: seq<Transaction>, nameOf: Transaction -> string)
    ensures forall i :: 0 <= i < |Top(ps, nameOf)| ==>
              var s := Top(ps, nameOf)[i];
              s.name in Names(ps, nameOf) && s.gross == GrossOf(ps, nameOf, s.name) && s.net == NetOf(ps, nameOf, s.name)
  {
    var g := Grouped(ps, nameOf);
    var sorted := SortBy(g, ByGross);
    SortByPermutes(g, ByGross);
    forall i | 0 <= i < |Top(ps, nameOf)|
      ensures var s := Top(ps, nameOf)[i];
              s.name in Names(ps, nameOf) && s.gross == GrossOf(ps, nameOf, s.name) && s.net == NetOf(ps, nameOf, s.name)
    {
      assert Top(ps, nameOf)[i] == sorted[i];
      assert sorted[i] in multiset(g);
    }
  }

  /** No name appears twice. */
  lemma TopDistinct(ps: seq<Transaction>, nameOf: Transaction -> string)
    ensures DistinctBy(Top(ps, nameOf), NameOf)
  {
    var g := Grouped(ps, nameOf);
    var sorted := SortBy(g, ByGross);
    NamesDistinct(ps, nameOf);
    assert DistinctBy(g, NameOf);
    SortByPermutes(g, ByGross);
    PermutationDistinct(g, sorted, NameOf);
  }

  /** A name left out of the list has no more gross than any entry kept. */
  lemma TopOmitted(ps: seq<Transaction>, nameOf: Transaction -> string, n: string)
    requires n in Names(ps, nameOf) && n !in Kept(Top(ps, nameOf))
    ensures forall i :: 0 <= i < |Top(ps, nameOf)| ==> GrossOf(ps, nameOf, n) <= Top(ps, nameOf)[i].gross
  {
    var names, g := Names(ps, nameOf), Grouped(ps, nameOf);
    var j :| 0 <= j < |names| && names[j] == n;
    assert g[j].name == n && g[j].gross == GrossOf(ps, nameOf, n);
    SortedOmitted(g, j);
  }

  /** An entry whose name the first three of the sorted list leave out has no more gross than they. */
  lemma SortedOmitted(g: seq<Spender>, j: nat)
    requires j < |g| && g[j].name !in Kept(FirstThree(SortBy(g, ByGross)))
    ensures forall i :: 0 <= i < |FirstThree(SortBy(g, ByGross))| ==> g[j].gross <= FirstThree(SortBy(g, ByGross))[i].gross
  {
    var sorted := SortBy(g, ByGross);
    SortByPermutes(g, ByGross);
    SortBySorted(g, ByGross);
    assert g[j] in multiset(sorted);
    var m :| 0 <= m < |sorted| && sorted[m] == g[j];
    BelowKept(sorted, m);
  }

  /** In a list sorted by gross, an entry whose name the first three leave out has no more gross than they. */
  lemma BelowKept(sorted: seq<Spender>, m: nat)
    requires SortedBy(sorted, ByGross) && m < |sorted| && sorted[m].name !in Kept(FirstThree(sorted))
    ensures forall i :: 0 <= i < |FirstThree(sorted)| ==> sorted[m].gross <= FirstThree(sorted)[i].gross
  {
    var r := FirstThree(sorted);
    assert m >= |r|;
    forall i | 0 <= i < |r| ensures sorted[m].gross <= r[i].gross {
      assert r[i] == sorted[i];
      assert ByGross(sorted[i]) <= ByGross(sorted[m]);
    }
  }

  /** With the names parsed rows get, any non-empty input shows one spender, "Unknown", with all the gross and net. */
  lemma OneUnknownSpender(ps: seq<Transaction>)
    requires ps != []
    ensures Top(ps, Unnamed) == [Spender("Unknown", GrossSum(ps), NetSum(ps))]
  {
    UnnamedSums(ps);
    var g := Grouped(ps, Unnamed);
    assert g == [Spender("Unknown", GrossSum(ps), NetSum(ps))];
    assert SortBy(g, ByGross) == Insert(g[0], [], ByGross);
  }

  /** Under `Unnamed` there is one name, and it carries every amount. */
  lemma {:induction false} UnnamedSums(ps: seq<Transaction>)
    requires ps != []
    ensures Names(ps, Unnamed) == ["Unknown"]
    ensures GrossOf(ps, Unnamed, "Unknown") == GrossSum(ps) && NetOf(ps, Unnamed, "Unknown") == NetSum(ps)
  {
    if |ps| > 1 {
      UnnamedSums(ps[..|ps| - 1]);
    }
  }
}
