/**
 * The hourly chart data and the totals of src/App.jsx: every parsed transaction adds its
 * net to the PPV or the non-PPV total; every transaction with a category also adds to the
 * bucket of the hour it falls in. The buckets come out sorted by hour.
 */
module Aggregate {
  import opened Wrappers
  import opened Classification
  import opened DateTime
  import opened RowParser
  import opened Sorting

  /** One point of the chart: net amounts and counts per category within one hour. */
  datatype Bucket = Bucket(
    timestamp: int,
    tips: int, posts: int, subs: int, messages: int, all: int,
    messagesPpv: int, messagesNoPpv: int,
    count: nat, tipsCount: nat, postsCount: nat, subsCount: nat, messagesCount: nat,
    messagesPpvCount: nat, messagesNoPpvCount: nat)

  /** The bucket created the first time an hour is seen: all zero. */
  function EmptyBucket(h: int): Bucket {
    Bucket(h, 0, 0, 0, 0, 0, 0, 0, 0, 0, 0, 0, 0, 0, 0)
  }

  /** What one transaction of category `c` adds to its hour's bucket; the amount is the net. */
  function AddTo(b: Bucket, c: Category, t: Transaction): (r: Bucket)
    ensures r.timestamp == b.timestamp
    ensures r.all == b.all + t.net && r.count == b.count + 1
    ensures forall k :: CategoryNet(r, k) == CategoryNet(b, k) + (if k == c then t.net else 0)
    ensures forall k :: CategoryCount(r, k) == CategoryCount(b, k) + (if k == c then 1 else 0)
    ensures r.messagesPpv == b.messagesPpv + (if c == Messages && t.isPpv then t.net else 0)
    ensures r.messagesPpvCount == b.messagesPpvCount + (if c == Messages && t.isPpv then 1 else 0)
    ensures r.messagesNoPpv == b.messagesNoPpv + (if c == Messages && !t.isPpv then t.net else 0)
    ensures r.messagesNoPpvCount == b.messagesNoPpvCount + (if c == Messages && !t.isPpv then 1 else 0)
  {
    var amount := t.net;
    var m :=
      if c != Messages then b
      else if t.isPpv then b.(messagesPpv := b.messagesPpv + amount, messagesPpvCount := b.messagesPpvCount + 1)
      else b.(messagesNoPpv := b.messagesNoPpv + amount, messagesNoPpvCount := b.messagesNoPpvCount + 1);
    var r :=
      match c
      case Tips => m.(tips := m.tips + amount, tipsCount := m.tipsCount + 1)
      case Posts => m.(posts := m.posts + amount, postsCount := m.postsCount + 1)
      case Subs => m.(subs := m.subs + amount, subsCount := m.subsCount + 1)
      case Messages => m.(messages := m.messages + amount, messagesCount := m.messagesCount + 1);
    r.(all := r.all + amount, count := r.count + 1)
  }

  /** A transaction with a category reaches the chart; streams do not. */
  predicate Charted(t: Transaction) {
    CategoryFromType(t.kind).Some?
  }

  /** `t` reaches the chart in hour `h`. */
  predicate InHour(t: Transaction, h: int) {
    Charted(t) && StartOfHour(t.timestamp) == h
  }

  /** The bucket of hour `h` after the transactions `ps`, taken in order. */
  function BucketOf(ps: seq<Transaction>, h: int): (b: Bucket)
    ensures b.timestamp == h
  {
    if ps == [] then EmptyBucket(h)
    else
      var b := BucketOf(ps[..|ps| - 1], h);
      var t := ps[|ps| - 1];
      if InHour(t, h) then AddTo(b, CategoryFromType(t.kind).value, t) else b
  }

  /** The hours that get a bucket. */
  function Hours(ps: seq<Transaction>): set<int> {
    if ps == [] then {}
    else
      var t := ps[|ps| - 1];
      Hours(ps[..|ps| - 1]) + (if Charted(t) then {StartOfHour(t.timestamp)} else {})
  }

  /** `ppvNet`: the net of the PPV transactions. */
  function PpvNet(ps: seq<Transaction>): int {
    if ps == [] then 0 else PpvNet(ps[..|ps| - 1]) + (if ps[|ps| - 1].isPpv then ps[|ps| - 1].net else 0)
  }

  /** `noPpvNet`: the net of the other transactions. */
  function NoPpvNet(ps: seq<Transaction>): int {
    if ps == [] then 0 else NoPpvNet(ps[..|ps| - 1]) + (if ps[|ps| - 1].isPpv then 0 else ps[|ps| - 1].net)
  }

  /** The net of all transactions. */
  function NetSum(ps: seq<Transaction>): int {
    if ps == [] then 0 else NetSum(ps[..|ps| - 1]) + ps[|ps| - 1].net
  }

  /** The net of the transactions that reach the chart. */
  function ChartedNet(ps: seq<Transaction>): int {
    if ps == [] then 0 else ChartedNet(ps[..|ps| - 1]) + (if Charted(ps[|ps| - 1]) then ps[|ps| - 1].net else 0)
  }

  /** The number of transactions that reach the chart. */
  function ChartedCount(ps: seq<Transaction>): nat {
    if ps == [] then 0 else ChartedCount(ps[..|ps| - 1]) + (if Charted(ps[|ps| - 1]) then 1 else 0)
  }

  function All(b: Bucket): int { b.all }

  function Count(b: Bucket): int { b.count }

  function Hour(b: Bucket): int { b.timestamp }

  datatype Totals = Totals(ppv: int, noPpv: int, total: int)

  /** The buckets of the hours in `order`, in that order (`Array.from(rowsMap.values())`). */
  function Values(rows: map<int, Bucket>, order: seq<int>): (r: seq<Bucket>)
    requires forall i :: 0 <= i < |order| ==> order[i] in rows
    ensures |r| == |order| && forall i :: 0 <= i < |order| ==> r[i] == rows[order[i]]
  {
    if order == [] then [] else Values(rows, order[..|order| - 1]) + [rows[order[|order| - 1]]]
  }

  /** `order` lists the keys of `rows`, each once. */
  predicate Lists(order: seq<int>, rows: map<int, Bucket>) {
    && (forall i, j :: 0 <= i < j < |order| ==> order[i] != order[j])
    && (forall i :: 0 <= i < |order| ==> order[i] in rows)
    && (forall h :: h in rows ==> h in order)
  }

  /** What the loop keeps about its map after the first `k` transactions. */
  predicate Inv(parsed: seq<Transaction>, k: nat, rows: map<int, Bucket>, order: seq<int>)
    requires k <= |parsed|
  {
    && rows.Keys == Hours(parsed[..k])
    && (forall h :: h in rows ==> rows[h] == BucketOf(parsed[..k], h))
    && Lists(order, rows)
    && SumBy(Values(rows, order), All) == ChartedNet(parsed[..k])
    && SumBy(Values(rows, order), Count) == ChartedCount(parsed[..k])
  }

  /**
   * The `useMemo` that builds `{ totals, data }`: `None` and no data after a parse error or
   * for no transactions; otherwise the PPV / non-PPV totals and one bucket per hour that
   * has a charted transaction, in increasing hour order.
   */
  method HourlyChart(parsed: seq<Transaction>, hasError: bool) returns (totals: Option<Totals>, data: seq<Bucket>)
    ensures hasError || parsed == [] ==> totals.None? && data == []
    ensures !hasError && parsed != [] ==>
              totals.Some? && totals.value == Totals(PpvNet(parsed), NoPpvNet(parsed), PpvNet(parsed) + NoPpvNet(parsed))
    ensures forall i, j :: 0 <= i < j < |data| ==> data[i].timestamp < data[j].timestamp
    ensures forall i :: 0 <= i < |data| ==> data[i] == BucketOf(parsed, data[i].timestamp) && data[i].timestamp in Hours(parsed)
    ensures !hasError ==> forall h :: h in Hours(parsed) ==> exists i :: 0 <= i < |data| && data[i].timestamp == h
    ensures !hasError ==> SumBy(data, All) == ChartedNet(parsed) && SumBy(data, Count) == ChartedCount(parsed)
  {
    if hasError || |parsed| == 0 {
      return None, [];
    }
    var ppvNet, noPpvNet, rows, order := Tally(parsed);
    var values := Values(rows, order);
    data := SortBy(values, Hour);
    totals := Some(Totals(ppvNet, noPpvNet, ppvNet + noPpvNet));
    Sorted(parsed, rows, order, values, data);
  }

  /**
   * The `forEach` of that `useMemo`: the PPV / non-PPV totals and the map from hour to
   * bucket, with the order its keys were added in.
   */
  method Tally(parsed: seq<Transaction>) returns (ppvNet: int, noPpvNet: int, rows: map<int, Bucket>, order: seq<int>)
    ensures ppvNet == PpvNet(parsed) && noPpvNet == NoPpvNet(parsed)
    ensures rows.Keys == Hours(parsed)
    ensures forall h :: h in rows ==> rows[h] == BucketOf(parsed, h)
    ensures Lists(order, rows)
    ensures SumBy(Values(rows, order), All) == ChartedNet(parsed) && SumBy(Values(rows, order), Count) == ChartedCount(parsed)
  {
    ppvNet, noPpvNet := 0, 0;
    rows, order := map[], [];
    var k := 0;
    while k < |parsed|
      invariant k <= |parsed|
      invariant ppvNet == PpvNet(parsed[..k]) && noPpvNet == NoPpvNet(parsed[..k])
      invariant Inv(parsed, k, rows, order)
    {
      ppvNet, noPpvNet, rows, order := Visit(parsed, k, ppvNet, noPpvNet, rows, order);
      k := k + 1;
    }
    assert parsed[..k] == parsed;
  }

  /**
   * The `forEach` callback on the transaction `parsed[k]`: it adds the net to one of the
   * two totals and, when the transaction has a category, to the bucket of its hour,
   * creating that bucket first if the hour is new.
   */
  method Visit(parsed: seq<Transaction>, k: nat, ppvNet: int, noPpvNet: int, rows: map<int, Bucket>, order: seq<int>)
    returns (ppvNet': int, noPpvNet': int, rows': map<int, Bucket>, order': seq<int>)
    requires k < |parsed|
    requires ppvNet == PpvNet(parsed[..k]) && noPpvNet == NoPpvNet(parsed[..k])
    requires Inv(parsed, k, rows, order)
    ensures ppvNet' == PpvNet(parsed[..k + 1]) && noPpvNet' == NoPpvNet(parsed[..k + 1])
    ensures Inv(parsed, k + 1, rows', order')
  {
    var p := parsed[k];
    ExtendTotals(parsed, k);
    ppvNet', noPpvNet' := ppvNet, noPpvNet;
    if p.isPpv {
      ppvNet' := ppvNet + p.net;
    } else {
      noPpvNet' := noPpvNet + p.net;
    }
    var hourTs := StartOfHour(p.timestamp);
    var category := CategoryFromType(p.kind);
    rows', order' := rows, order;
    if category.Some? {
      if hourTs !in rows' {
        NewHourStep(parsed, k, rows, order);
        rows' := rows'[hourTs := EmptyBucket(hourTs)];
        order' := order' + [hourTs];
      } else {
        KnownHourStep(parsed, k, rows, order);
      }
      rows' := rows'[hourTs := AddTo(rows'[hourTs], category.value, p)];
    } else {
      UnchartedStep(parsed, k, rows, order);
    }
  }

  /** The PPV and non-PPV totals of `parsed[..k + 1]` in terms of `parsed[..k]` and `parsed[k]`. */
  lemma ExtendTotals(parsed: seq<Transaction>, k: nat)
    requires k < |parsed|
    ensures var t := parsed[k];
            && PpvNet(parsed[..k + 1]) == PpvNet(parsed[..k]) + (if t.isPpv then t.net else 0)
            && NoPpvNet(parsed[..k + 1]) == NoPpvNet(parsed[..k]) + (if t.isPpv then 0 else t.net)
  {
    assert parsed[..k + 1][..k] == parsed[..k];
  }

  /** The hours of `parsed[..k + 1]` in terms of `parsed[..k]` and `parsed[k]`. */
  lemma ExtendHours(parsed: seq<Transaction>, k: nat)
    requires k < |parsed|
    ensures var t := parsed[k];
            Hours(parsed[..k + 1]) == Hours(parsed[..k]) + (if Charted(t) then {StartOfHour(t.timestamp)} else {})
  {
    assert parsed[..k + 1][..k] == parsed[..k];
  }

  /** The charted net and count of `parsed[..k + 1]` in terms of `parsed[..k]` and `parsed[k]`. */
  lemma ExtendSums(parsed: seq<Transaction>, k: nat)
    requires k < |parsed|
    ensures var t := parsed[k];
            && ChartedNet(parsed[..k + 1]) == ChartedNet(parsed[..k]) + (if Charted(t) then t.net else 0)
            && ChartedCount(parsed[..k + 1]) == ChartedCount(parsed[..k]) + (if Charted(t) then 1 else 0)
  {
    assert parsed[..k + 1][..k] == parsed[..k];
  }

  /** The buckets of `parsed[..k + 1]` in terms of `parsed[..k]` and `parsed[k]`. */
  lemma ExtendBuckets(parsed: seq<Transaction>, k: nat)
    requires k < |parsed|
    ensures var t := parsed[k];
            forall h :: BucketOf(parsed[..k + 1], h)
                        == if InHour(t, h) then AddTo(BucketOf(parsed[..k], h), CategoryFromType(t.kind).value, t) else BucketOf(parsed[..k], h)
  {
    assert parsed[..k + 1][..k] == parsed[..k];
  }

  /** A transaction without a category leaves the map as it is. */
  lemma UnchartedStep(parsed: seq<Transaction>, k: nat, rows: map<int, Bucket>, order: seq<int>)
    requires k < |parsed| && Inv(parsed, k, rows, order) && !Charted(parsed[k])
    ensures Inv(parsed, k + 1, rows, order)
  {
    ExtendHours(parsed, k);
    ExtendSums(parsed, k);
    ExtendBuckets(parsed, k);
  }

  /** A charted transaction in an hour already seen updates that hour's bucket. */
  lemma KnownHourStep(parsed: seq<Transaction>, k: nat, rows: map<int, Bucket>, order: seq<int>)
    requires k < |parsed| && Inv(parsed, k, rows, order) && Charted(parsed[k])
    requires StartOfHour(parsed[k].timestamp) in rows
    ensures var p, h := parsed[k], StartOfHour(parsed[k].timestamp);
            Inv(parsed, k + 1, rows[h := AddTo(rows[h], CategoryFromType(p.kind).value, p)], order)
  {
    KnownHourMap(parsed, k, rows, order);
    KnownHourSums(parsed, k, rows, order);
  }

  /** The map part of `KnownHourStep`: the same hours, the updated bucket, the same order. */
  lemma KnownHourMap(parsed: seq<Transaction>, k: nat, rows: map<int, Bucket>, order: seq<int>)
    requires k < |parsed| && Inv(parsed, k, rows, order) && Charted(parsed[k])
    requires StartOfHour(parsed[k].timestamp) in rows
    ensures var p, h := parsed[k], StartOfHour(parsed[k].timestamp);
            var next := rows[h := AddTo(rows[h], CategoryFromType(p.kind).value, p)];
            && next.Keys == Hours(parsed[..k + 1])
            && (forall x :: x in next ==> next[x] == BucketOf(parsed[..k + 1], x))
            && Lists(order, next)
  {
    var p, h := parsed[k], StartOfHour(parsed[k].timestamp);
    var row := AddTo(rows[h], CategoryFromType(p.kind).value, p);
    ExtendHours(parsed, k);
    ExtendBuckets(parsed, k);
    ListsUpdate(rows, order, h, row);
  }

  /** The sums part of `KnownHourStep`: the net and the count grow by what the transaction adds. */
  lemma KnownHourSums(parsed: seq<Transaction>, k: nat, rows: map<int, Bucket>, order: seq<int>)
    requires k < |parsed| && Inv(parsed, k, rows, order) && Charted(parsed[k])
    requires StartOfHour(parsed[k].timestamp) in rows
    ensures var p, h := parsed[k], StartOfHour(parsed[k].timestamp);
            var next := rows[h := AddTo(rows[h], CategoryFromType(p.kind).value, p)];
            && SumBy(Values(next, order), All) == ChartedNet(parsed[..k + 1])
            && SumBy(Values(next, order), Count) == ChartedCount(parsed[..k + 1])
  {
    var p, h := parsed[k], StartOfHour(parsed[k].timestamp);
    var row := AddTo(rows[h], CategoryFromType(p.kind).value, p);
    ExtendSums(parsed, k);
    SumUpdate(rows, order, h, row, All);
    SumUpdate(rows, order, h, row, Count);
  }

  /** A charted transaction in a new hour adds that hour, with its first row in the bucket. */
  lemma NewHourStep(parsed: seq<Transaction>, k: nat, rows: map<int, Bucket>, order: seq<int>)
    requires k < |parsed| && Inv(parsed, k, rows, order) && Charted(parsed[k])
    requires StartOfHour(parsed[k].timestamp) !in rows
    ensures var p, h := parsed[k], StartOfHour(parsed[k].timestamp);
            var added := rows[h := EmptyBucket(h)];
            Inv(parsed, k + 1, added[h := AddTo(added[h], CategoryFromType(p.kind).value, p)], order + [h])
  {
    var p, h := parsed[k], StartOfHour(parsed[k].timestamp);
    var added := rows[h := EmptyBucket(h)];
    assert added[h := AddTo(added[h], CategoryFromType(p.kind).value, p)] == rows[h := AddTo(EmptyBucket(h), CategoryFromType(p.kind).value, p)];
    NewHourMap(parsed, k, rows, order);
    NewHourSums(parsed, k, rows, order);
  }

  /** The map part of `NewHourStep`: one more hour, listed last, with the bucket of its first transaction. */
  lemma NewHourMap(parsed: seq<Transaction>, k: nat, rows: map<int, Bucket>, order: seq<int>)
    requires k < |parsed| && Inv(parsed, k, rows, order) && Charted(parsed[k])
    requires StartOfHour(parsed[k].timestamp) !in rows
    ensures var p, h := parsed[k], StartOfHour(parsed[k].timestamp);
            var next := rows[h := AddTo(EmptyBucket(h), CategoryFromType(p.kind).value, p)];
            && next.Keys == Hours(parsed[..k + 1])
            && (forall x :: x in next ==> next[x] == BucketOf(parsed[..k + 1], x))
            && Lists(order + [h], next)
  {
    var p, h := parsed[k], StartOfHour(parsed[k].timestamp);
    var row := AddTo(EmptyBucket(h), CategoryFromType(p.kind).value, p);
    ExtendHours(parsed, k);
    ExtendBuckets(parsed, k);
    NewHour(parsed[..k], h);
    ValuesAppend(rows, order, h, row);
  }

  /** The sums part of `NewHourStep`: the new bucket adds the transaction's net and one to the count. */
  lemma NewHourSums(parsed: seq<Transaction>, k: nat, rows: map<int, Bucket>, order: seq<int>)
    requires k < |parsed| && Inv(parsed, k, rows, order) && Charted(parsed[k])
    requires StartOfHour(parsed[k].timestamp) !in rows
    ensures var p, h := parsed[k], StartOfHour(parsed[k].timestamp);
            var next := rows[h := AddTo(EmptyBucket(h), CategoryFromType(p.kind).value, p)];
            && SumBy(Values(next, order + [h]), All) == ChartedNet(parsed[..k + 1])
            && SumBy(Values(next, order + [h]), Count) == ChartedCount(parsed[..k + 1])
  {
    var p, h := parsed[k], StartOfHour(parsed[k].timestamp);
    var row := AddTo(EmptyBucket(h), CategoryFromType(p.kind).value, p);
    ExtendSums(parsed, k);
    ValuesAppend(rows, order, h, row);
  }

  /** An hour with no charted transaction yet has the empty bucket. */
  lemma {:induction false} NewHour(ps: seq<Transaction>, h: int)
    requires h !in Hours(ps)
    ensures BucketOf(ps, h) == EmptyBucket(h)
  {
    if ps != [] {
      NewHour(ps[..|ps| - 1], h);
    }
  }

  /** Adding a new hour at the end of `order` appends its bucket to the values. */
  lemma {:induction false} ValuesAppend(rows: map<int, Bucket>, order: seq<int>, h: int, b: Bucket)
    requires Lists(order, rows) && h !in rows
    ensures Lists(order + [h], rows[h := b])
    ensures Values(rows[h := b], order + [h]) == Values(rows, order) + [b]
    ensures SumBy(Values(rows[h := b], order + [h]), All) == SumBy(Values(rows, order), All) + b.all
    ensures SumBy(Values(rows[h := b], order + [h]), Count) == SumBy(Values(rows, order), Count) + b.count
  {
    var o := order + [h];
    assert o[..|o| - 1] == order;
    var r := rows[h := b];
    assert Values(r, order) == Values(rows, order);
  }

  /** Changing the bucket of a listed hour keeps the hours listed. */
  lemma ListsUpdate(rows: map<int, Bucket>, order: seq<int>, h: int, b: Bucket)
    requires Lists(order, rows) && h in rows
    ensures Lists(order, rows[h := b])
  {
  }

  /** Changing the bucket of one listed hour changes the sum of `f` by the difference. */
  lemma SumUpdate(rows: map<int, Bucket>, order: seq<int>, h: int, b: Bucket, f: Bucket -> int)
    requires Lists(order, rows) && h in rows
    ensures SumBy(Values(rows[h := b], order), f) == SumBy(Values(rows, order), f) - f(rows[h]) + f(b)
  {
    assert order[..|order|] == order;
    SumUpdateBelow(rows, order, h, b, |order|, f);
  }

  /** The sum of `f` over `s` and one more bucket. */
  lemma SumBySnoc(s: seq<Bucket>, x: Bucket, f: Bucket -> int)
    ensures SumBy(s + [x], f) == SumBy(s, f) + f(x)
  {
    assert (s + [x])[..|s|] == s;
  }

  /** The same over the first `n` listed hours, for one measure `f`. */
  lemma {:induction false} SumUpdateBelow(rows: map<int, Bucket>, order: seq<int>, h: int, b: Bucket, n: nat, f: Bucket -> int)
    requires n <= |order| && h in rows
    requires forall i :: 0 <= i < |order| ==> order[i] in rows
    requires forall i, j :: 0 <= i < j < |order| ==> order[i] != order[j]
    ensures SumBy(Values(rows[h := b], order[..n]), f) == SumBy(Values(rows, order[..n]), f) + (if h in order[..n] then f(b) - f(rows[h]) else 0)
  {
    if n > 0 {
      SumUpdateBelow(rows, order, h, b, n - 1, f);
      var prev, x, r := order[..n - 1], order[n - 1], rows[h := b];
      assert order[..n] == prev + [x];
      assert Values(r, order[..n]) == Values(r, prev) + [r[x]];
      assert Values(rows, order[..n]) == Values(rows, prev) + [rows[x]];
      SumBySnoc(Values(r, prev), r[x], f);
      SumBySnoc(Values(rows, prev), rows[x], f);
      if x == h {
        assert h !in prev;
      } else {
        assert r[x] == rows[x];
        assert (h in order[..n]) == (h in prev);
      }
    }
  }

  /** After the loop: the sorted values are the buckets of exactly the charted hours, in increasing order. */
  lemma Sorted(parsed: seq<Transaction>, rows: map<int, Bucket>, order: seq<int>, values: seq<Bucket>, data: seq<Bucket>)
    requires rows.Keys == Hours(parsed)
    requires forall h :: h in rows ==> rows[h] == BucketOf(parsed, h)
    requires Lists(order, rows)
    requires values == Values(rows, order) && data == SortBy(values, Hour)
    ensures forall i, j :: 0 <= i < j < |data| ==> data[i].timestamp < data[j].timestamp
    ensures forall i :: 0 <= i < |data| ==> data[i] == BucketOf(parsed, data[i].timestamp) && data[i].timestamp in Hours(parsed)
    ensures forall h :: h in Hours(parsed) ==> exists i :: 0 <= i < |data| && data[i].timestamp == h
    ensures SumBy(data, All) == SumBy(values, All) && SumBy(data, Count) == SumBy(values, Count)
  {
    assert DistinctBy(values, Hour) by {
      forall i, j | 0 <= i < j < |values| ensures Hour(values[i]) != Hour(values[j]) {
        assert values[i].timestamp == order[i] && values[j].timestamp == order[j];
      }
    }
    SortByStrict(values, Hour);
    SortByPermutes(values, Hour);
    SortBySum(values, All, Hour);
    SortBySum(values, Count, Hour);
    SortedMembers(parsed, rows, order, values, data);
    SortedCover(parsed, rows, order, values, data);
  }

  /** Every sorted bucket is the bucket of a charted hour. */
  lemma SortedMembers(parsed: seq<Transaction>, rows: map<int, Bucket>, order: seq<int>, values: seq<Bucket>, data: seq<Bucket>)
    requires rows.Keys == Hours(parsed)
    requires forall h :: h in rows ==> rows[h] == BucketOf(parsed, h)
    requires Lists(order, rows)
    requires values == Values(rows, order) && multiset(data) == multiset(values)
    ensures forall i :: 0 <= i < |data| ==> data[i] == BucketOf(parsed, data[i].timestamp) && data[i].timestamp in Hours(parsed)
  {
    forall i | 0 <= i < |data| ensures data[i] == BucketOf(parsed, data[i].timestamp) && data[i].timestamp in Hours(parsed) {
      assert data[i] in multiset(values);
      var j :| 0 <= j < |values| && values[j] == data[i];
    }
  }

  /** Every charted hour has its bucket among the sorted ones. */
  lemma SortedCover(parsed: seq<Transaction>, rows: map<int, Bucket>, order: seq<int>, values: seq<Bucket>, data: seq<Bucket>)
    requires rows.Keys == Hours(parsed)
    requires forall h :: h in rows ==> rows[h] == BucketOf(parsed, h)
    requires Lists(order, rows)
    requires values == Values(rows, order) && multiset(data) == multiset(values)
    ensures forall h :: h in Hours(parsed) ==> exists i :: 0 <= i < |data| && data[i].timestamp == h
  {
    forall h | h in Hours(parsed) ensures exists i :: 0 <= i < |data| && data[i].timestamp == h {
      var j :| 0 <= j < |order| && order[j] == h;
      assert values[j] in multiset(data);
      var i :| 0 <= i < |data| && data[i] == values[j];
    }
  }

  /** The PPV and the non-PPV totals split the net of all transactions. */
  lemma {:induction false} TotalsSplit(ps: seq<Transaction>)
    ensures PpvNet(ps) + NoPpvNet(ps) == NetSum(ps)
  {
    if ps != [] {
      TotalsSplit(ps[..|ps| - 1]);
    }
  }

  /** Without streams, every transaction reaches the chart. */
  lemma {:induction false} NoStreamsAllCharted(ps: seq<Transaction>)
    requires forall i :: 0 <= i < |ps| ==> ps[i].kind != Stream
    ensures ChartedNet(ps) == NetSum(ps) && ChartedCount(ps) == |ps|
  {
    if ps != [] {
      NoStreamsAllCharted(ps[..|ps| - 1]);
    }
  }

  /** The fields of a bucket agree: the category amounts and counts add up to `all` and `count`. */
  predicate Balanced(b: Bucket) {
    && b.all == b.tips + b.posts + b.subs + b.messages
    && b.count == b.tipsCount + b.postsCount + b.subsCount + b.messagesCount
    && b.messages == b.messagesPpv + b.messagesNoPpv
    && b.messagesCount == b.messagesPpvCount + b.messagesNoPpvCount
  }

  /** Every bucket is balanced. */
  lemma {:induction false} BucketBalanced(ps: seq<Transaction>, h: int)
    ensures Balanced(BucketOf(ps, h))
  {
    if ps != [] {
      BucketBalanced(ps[..|ps| - 1], h);
    }
  }

  /** An hour gets a bucket exactly when a charted transaction falls in it, and its bucket is then not empty. */
  lemma {:induction false} HoursIff(ps: seq<Transaction>, h: int)
    ensures h in Hours(ps) <==> exists i :: 0 <= i < |ps| && InHour(ps[i], h)
    ensures h in Hours(ps) <==> BucketOf(ps, h).count > 0
  {
    if ps != [] {
      var init := ps[..|ps| - 1];
      HoursIff(init, h);
      if i :| 0 <= i < |init| && InHour(init[i], h) {
        assert InHour(ps[i], h);
      }
      if i :| 0 <= i < |ps| && InHour(ps[i], h) {
        if i < |init| {
          assert InHour(init[i], h);
        }
      }
    }
  }

  /** The transactions of category `c` charted in hour `h`, in order. */
  function Within(ps: seq<Transaction>, h: int, c: Category): seq<Transaction> {
    if ps == [] then []
    else
      var t := ps[|ps| - 1];
      Within(ps[..|ps| - 1], h, c) + (if InHour(t, h) && CategoryFromType(t.kind) == Some(c) then [t] else [])
  }

  /** The amount a bucket holds for category `c`. */
  function CategoryNet(b: Bucket, c: Category): int {
    match c
    case Tips => b.tips
    case Posts => b.posts
    case Subs => b.subs
    case Messages => b.messages
  }

  /** The count a bucket holds for category `c`. */
  function CategoryCount(b: Bucket, c: Category): int {
    match c
    case Tips => b.tipsCount
    case Posts => b.postsCount
    case Subs => b.subsCount
    case Messages => b.messagesCount
  }

  /** Each category of a bucket is the net and the number of that hour's transactions of that category. */
  lemma {:induction false} BucketCategory(ps: seq<Transaction>, h: int, c: Category)
    ensures CategoryNet(BucketOf(ps, h), c) == NetSum(Within(ps, h, c))
    ensures CategoryCount(BucketOf(ps, h), c) == |Within(ps, h, c)|
  {
    if ps != [] {
      var init, t := ps[..|ps| - 1], ps[|ps| - 1];
      BucketCategory(init, h, c);
      var w := Within(init, h, c);
      if InHour(t, h) && CategoryFromType(t.kind) == Some(c) {
        assert (w + [t])[..|w|] == w;
      } else {
        assert w + [] == w;
      }
    }
  }

  /** The messages charted in hour `h` whose `isPpv` is `ppv`, in order. */
  function MessagesWithin(ps: seq<Transaction>, h: int, ppv: bool): seq<Transaction> {
    if ps == [] then []
    else
      var t := ps[|ps| - 1];
      MessagesWithin(ps[..|ps| - 1], h, ppv)
        + (if InHour(t, h) && CategoryFromType(t.kind) == Some(Messages) && t.isPpv == ppv then [t] else [])
  }

  /** The PPV and non-PPV message fields of a bucket are the net and number of that hour's PPV and non-PPV messages. */
  lemma {:induction false} BucketMessagesSplit(ps: seq<Transaction>, h: int)
    ensures BucketOf(ps, h).messagesPpv == NetSum(MessagesWithin(ps, h, true))
    ensures BucketOf(ps, h).messagesPpvCount == |MessagesWithin(ps, h, true)|
    ensures BucketOf(ps, h).messagesNoPpv == NetSum(MessagesWithin(ps, h, false))
    ensures BucketOf(ps, h).messagesNoPpvCount == |MessagesWithin(ps, h, false)|
  {
    if ps != [] {
      var init, t := ps[..|ps| - 1], ps[|ps| - 1];
      BucketMessagesSplit(init, h);
      var yes, no := MessagesWithin(init, h, true), MessagesWithin(init, h, false);
      assert (yes + [t])[..|yes|] == yes;
      assert (no + [t])[..|no|] == no;
      assert yes + [] == yes && no + [] == no;
    }
  }
}
