/**
 * The category breakdown of `StatsCards` in src/App.jsx: the net of every category over
 * all transactions, each with its share of their sum in percent, largest first.
 */
module Breakdown {
  import opened Wrappers
  import opened Classification
  import opened RowParser
  import opened Aggregate
  import opened Sorting

  /** One entry of the breakdown; `percent` is exact (the source computes it in floating point). */
  datatype Share = Share(category: Category, value: int, percent: real)

  /** The net of the transactions of category `c`. */
  function CategoryTotal(ps: seq<Transaction>, c: Category): int {
    if ps == [] then 0
    else
      var t := ps[|ps| - 1];
      CategoryTotal(ps[..|ps| - 1], c) + (if CategoryFromType(t.kind) == Some(c) then t.net else 0)
  }

  /** `totalNet ? (value / totalNet) * 100 : 0`. */
  function Percent(value: int, total: int): real {
    if total == 0 then 0.0 else value as real / total as real * 100.0
  }

  /** The four entries in the order the source lists them: Tips, Messages, Subs, Posts. */
  function Listed(tips: int, messages: int, subs: int, posts: int): seq<Share> {
    var total := tips + posts + subs + messages;
    [ Share(Tips, tips, Percent(tips, total)),
      Share(Messages, messages, Percent(messages, total)),
      Share(Subs, subs, Percent(subs, total)),
      Share(Posts, posts, Percent(posts, total)) ]
  }

  /** The entries of `ps` before sorting. */
  function Shares(ps: seq<Transaction>): seq<Share> {
    Listed(CategoryTotal(ps, Tips), CategoryTotal(ps, Messages), CategoryTotal(ps, Subs), CategoryTotal(ps, Posts))
  }

  /** The sort key of `(a, b) => b.value - a.value`. */
  function Descending(s: Share): int { -s.value }

  function Value(s: Share): int { s.value }

  function CategoryOf(s: Share): Category { s.category }

  /** The breakdown: the fixed all-zero list for no transactions, otherwise the entries sorted by value, largest first. */
  function Ranked(ps: seq<Transaction>): (r: seq<Share>)
    ensures multiset(r) == multiset(Shares(ps))
  {
    if |ps| == 0 then
      assert Shares(ps) == Listed(0, 0, 0, 0);
      Listed(0, 0, 0, 0)
    else
      SortByPermutes(Shares(ps), Descending);
      SortBy(Shares(ps), Descending)
  }

  /** The `breakdown` memo: one `forEach` over the transactions, then the list, its percentages and the sort. */
  method CategoryBreakdown(parsed: seq<Transaction>) returns (r: seq<Share>)
    ensures r == Ranked(parsed)
  {
    if |parsed| == 0 {
      return Listed(0, 0, 0, 0);
    }
    var tips, posts, subs, messages := 0, 0, 0, 0;
    for k := 0 to |parsed|
      invariant tips == CategoryTotal(parsed[..k], Tips)
      invariant posts == CategoryTotal(parsed[..k], Posts)
      invariant subs == CategoryTotal(parsed[..k], Subs)
      invariant messages == CategoryTotal(parsed[..k], Messages)
    {
      var p := parsed[k];
      assert parsed[..k + 1][..k] == parsed[..k];
      var cat := CategoryFromType(p.kind);
      if cat.Some? {
        if cat.value == Tips { tips := tips + p.net; }
        if cat.value == Posts { posts := posts + p.net; }
        if cat.value == Subs { subs := subs + p.net; }
        if cat.value == Messages { messages := messages + p.net; }
      }
    }
    assert parsed[..|parsed|] == parsed;
    r := SortBy(Listed(tips, messages, subs, posts), Descending);
  }

  /** The four category totals add up to the net of the charted transactions. */
  lemma {:induction false} CategoryTotals(ps: seq<Transaction>)
    ensures CategoryTotal(ps, Tips) + CategoryTotal(ps, Messages) + CategoryTotal(ps, Subs) + CategoryTotal(ps, Posts)
            == ChartedNet(ps)
  {
    if ps != [] {
      CategoryTotals(ps[..|ps| - 1]);
    }
  }

  /**
   * With no transactions the fixed list is the unsorted entries, which are already in
   * order, so the general path would give it too (`Sorting.SortByIdentity`).
   */
  lemma EmptyRanked()
    ensures Ranked([]) == Shares([])
    ensures SortedBy(Shares([]), Descending)
  {
    var z := Listed(0, 0, 0, 0);
    assert Shares([]) == z;
    assert z[0].value == 0 && z[1].value == 0 && z[2].value == 0 && z[3].value == 0;
  }

  /** The categories the entries of `r` stand for. */
  function Categories(r: seq<Share>): set<Category> {
    set i | 0 <= i < |r| :: r[i].category
  }

  /** The sum of the values of four entries. */
  lemma SumOfFour(r: seq<Share>)
    requires |r| == 4
    ensures SumBy(r, Value) == r[0].value + r[1].value + r[2].value + r[3].value
  {
    assert r[..3][..2] == r[..2];
    assert r[..2][..1] == r[..1];
    assert r[..1][..0] == [];
    assert r[..|r| - 1] == r[..3];
    assert SumBy(r[..1], Value) == r[0].value;
    assert SumBy(r[..2], Value) == r[0].value + r[1].value;
    assert SumBy(r[..3], Value) == r[0].value + r[1].value + r[2].value;
  }

  /** Exactly four entries, one per category. */
  lemma RankedCategories(ps: seq<Transaction>)
    ensures |Ranked(ps)| == 4
    ensures DistinctBy(Ranked(ps), CategoryOf)
    ensures Categories(Ranked(ps)) == {Tips, Messages, Subs, Posts}
  {
    var s, r := Shares(ps), Ranked(ps);
    ListedCategories(CategoryTotal(ps, Tips), CategoryTotal(ps, Messages), CategoryTotal(ps, Subs), CategoryTotal(ps, Posts));
    PermutationDistinct(s, r, CategoryOf);
    PermutedCategories(s, r);
  }

  /** The listed entries stand for the four categories, one each. */
  lemma ListedCategories(tips: int, messages: int, subs: int, posts: int)
    ensures Categories(Listed(tips, messages, subs, posts)) == {Tips, Messages, Subs, Posts}
    ensures DistinctBy(Listed(tips, messages, subs, posts), CategoryOf)
  {
    var s := Listed(tips, messages, subs, posts);
    assert s[0].category == Tips && s[1].category == Messages && s[2].category == Subs && s[3].category == Posts;
    assert Tips in Categories(s) && Messages in Categories(s) && Subs in Categories(s) && Posts in Categories(s);
  }

  /** Reordering the entries keeps the categories they stand for. */
  lemma PermutedCategories(s: seq<Share>, r: seq<Share>)
    requires multiset(r) == multiset(s)
    ensures Categories(r) == Categories(s)
  {
    forall j | 0 <= j < |s| ensures s[j].category in Categories(r) {
      assert s[j] in multiset(r);
      var i :| 0 <= i < |r| && r[i] == s[j];
    }
    forall i | 0 <= i < |r| ensures r[i].category in Categories(s) {
      assert r[i] in multiset(s);
      var j :| 0 <= j < |s| && s[j] == r[i];
    }
  }

  /** Every entry holds the net of its own category. */
  lemma RankedValues(ps: seq<Transaction>)
    ensures forall i :: 0 <= i < |Ranked(ps)| ==> Ranked(ps)[i].value == CategoryTotal(ps, Ranked(ps)[i].category)
  {
    var s, r := Shares(ps), Ranked(ps);
    forall i | 0 <= i < |r| ensures r[i].value == CategoryTotal(ps, r[i].category) {
      assert r[i] in multiset(s);
    }
  }

  /** Values never increase along the breakdown; entries of equal value keep the order Tips, Messages, Subs, Posts. */
  lemma RankedSorted(ps: seq<Transaction>)
    ensures forall i, j :: 0 <= i < j < |Ranked(ps)| ==> Ranked(ps)[i].value >= Ranked(ps)[j].value
    ensures forall v :: WithKey(Ranked(ps), Descending, v) == WithKey(Shares(ps), Descending, v)
  {
    var s, r := Shares(ps), Ranked(ps);
    if |ps| == 0 {
      EmptyRanked();
    } else {
      assert r == SortBy(s, Descending);
      SortBySorted(s, Descending);
      forall v ensures WithKey(r, Descending, v) == WithKey(s, Descending, v) {
        SortByStable(s, Descending, v);
      }
    }
  }

  /** The values add up to `totalNet`, the net of the charted transactions. */
  lemma RankedSum(ps: seq<Transaction>)
    ensures SumBy(Ranked(ps), Value) == ChartedNet(ps)
  {
    var s := Shares(ps);
    if |ps| == 0 {
      EmptyRanked();
    } else {
      SortBySum(s, Value, Descending);
    }
    CategoryTotals(ps);
    SumOfFour(s);
  }

  /** Each percentage is the entry's share of the total, and they are all 0 when the total is 0. */
  lemma RankedPercents(ps: seq<Transaction>)
    ensures ChartedNet(ps) == 0 ==> forall i :: 0 <= i < |Ranked(ps)| ==> Ranked(ps)[i].percent == 0.0
    ensures ChartedNet(ps) != 0 ==>
              forall i :: 0 <= i < |Ranked(ps)| ==>
                Ranked(ps)[i].percent == Ranked(ps)[i].value as real / ChartedNet(ps) as real * 100.0
  {
    var s, r := Shares(ps), Ranked(ps);
    CategoryTotals(ps);
    forall i | 0 <= i < |r| ensures r[i].percent == Percent(r[i].value, ChartedNet(ps)) {
      assert r[i] in multiset(s);
    }
  }

  /** When the total is not 0 the four percentages add up to 100. */
  lemma PercentsTotal(ps: seq<Transaction>)
    requires ChartedNet(ps) != 0
    ensures var r := Ranked(ps); |r| == 4 && r[0].percent + r[1].percent + r[2].percent + r[3].percent == 100.0
  {
    var r := Ranked(ps);
    RankedCategories(ps);
    RankedPercents(ps);
    RankedSum(ps);
    SumOfFour(r);
    SplitQuotient(r[0].value as real, r[1].value as real, r[2].value as real, r[3].value as real, ChartedNet(ps) as real);
  }

  /** Four quotients by the same non-zero total that add up to it make 100 percent. */
  lemma SplitQuotient(a: real, b: real, c: real, d: real, t: real)
    requires t != 0.0 && a + b + c + d == t
    ensures a / t * 100.0 + b / t * 100.0 + c / t * 100.0 + d / t * 100.0 == 100.0
  {
    assert a / t + b / t + c / t + d / t == (a + b + c + d) / t;
  }
}
