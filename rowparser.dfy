/**
 * `parseRow` of src/utils.js: one tab-separated export row to a transaction.
 *
 * The cells are trimmed; the first three cells that start with "$" are gross, fee and
 * net; the cells before the first of them hold the date, the cells after the third the
 * description.
 */
module RowParser {
  import opened Wrappers
  import opened Text
  import opened DateTime
  import opened Money
  import opened Classification

  /** A parsed row; amounts in cents, `timestamp` as the date constructor returned it. */
  datatype Transaction = Transaction(timestamp: int, net: int, gross: int, kind: TxType, isPpv: bool)

  /** `map(c => c.trim())`. */
  function TrimAll(parts: seq<string>): (r: seq<string>)
    ensures |r| == |parts|
    ensures forall i :: 0 <= i < |r| ==> r[i] == Trim(parts[i])
  {
    if parts == [] then [] else [Trim(parts[0])] + TrimAll(parts[1..])
  }

  /** `line.split("\t").map(c => c.trim())`. */
  function Cells(line: string): (r: seq<string>)
    ensures |r| >= 1
    ensures forall k :: 0 <= k < |r| ==> r[k] == [] || (!IsSpace(r[k][0]) && !IsSpace(r[k][|r[k]| - 1]))
  {
    TrimAll(Split(line, '\t'))
  }

  predicate IsMoneyCell(c: string) { StartsWith(c, "$") }

  /** The positions below `n` of the cells that start with "$", in increasing order. */
  function MoneyBelow(cells: seq<string>, n: nat): (r: seq<nat>)
    requires n <= |cells|
    ensures forall k :: 0 <= k < |r| ==> r[k] < n && IsMoneyCell(cells[r[k]])
    ensures forall k, l :: 0 <= k < l < |r| ==> r[k] < r[l]
    ensures forall j :: 0 <= j < n && IsMoneyCell(cells[j]) ==> j in r
  {
    if n == 0 then []
    else MoneyBelow(cells, n - 1) + (if IsMoneyCell(cells[n - 1]) then [n - 1] else [])
  }

  /** The `money` array: the position of every cell that starts with "$", in order. */
  function MoneyIndices(cells: seq<string>): (r: seq<nat>)
    ensures forall k :: 0 <= k < |r| ==> r[k] < |cells| && IsMoneyCell(cells[r[k]])
    ensures forall k, l :: 0 <= k < l < |r| ==> r[k] < r[l]
    ensures forall j :: 0 <= j < |cells| && IsMoneyCell(cells[j]) ==> j in r
  {
    MoneyBelow(cells, |cells|)
  }

  /** `i0`, `i1`, `i2` are the first three "$" cells. */
  predicate FirstThreeMoney(cells: seq<string>, i0: nat, i1: nat, i2: nat) {
    && i0 < i1 < i2 < |cells|
    && IsMoneyCell(cells[i0]) && IsMoneyCell(cells[i1]) && IsMoneyCell(cells[i2])
    && forall j :: 0 <= j < i2 && IsMoneyCell(cells[j]) ==> j == i0 || j == i1
  }

  /** The list of "$" positions starts with exactly the first three "$" cells. */
  lemma MoneyIndicesFirstThree(cells: seq<string>, i0: nat, i1: nat, i2: nat)
    ensures FirstThreeMoney(cells, i0, i1, i2) <==>
              var m := MoneyIndices(cells); |m| >= 3 && m[0] == i0 && m[1] == i1 && m[2] == i2
  {
    if FirstThreeMoney(cells, i0, i1, i2) {
      FirstThreeListed(cells, i0, i1, i2);
    }
    var m := MoneyIndices(cells);
    if |m| >= 3 && m[0] == i0 && m[1] == i1 && m[2] == i2 {
      ListedFirstThree(cells, i0, i1, i2);
    }
  }

  /** The first three "$" cells head the list of "$" positions. */
  lemma FirstThreeListed(cells: seq<string>, i0: nat, i1: nat, i2: nat)
    requires FirstThreeMoney(cells, i0, i1, i2)
    ensures var m := MoneyIndices(cells); |m| >= 3 && m[0] == i0 && m[1] == i1 && m[2] == i2
  {
    var m := MoneyIndices(cells);
    assert i0 in m && i1 in m && i2 in m;
    var k0 :| 0 <= k0 < |m| && m[k0] == i0;
    var k1 :| 0 <= k1 < |m| && m[k1] == i1;
    var k2 :| 0 <= k2 < |m| && m[k2] == i2;
    assert k0 < k1 < k2;
    forall k | 0 <= k < k2 ensures m[k] == i0 || m[k] == i1 {
      assert m[k] < i2 && IsMoneyCell(cells[m[k]]);
    }
    var m0, m1, m2 := m[0], m[1], m[2];
    assert m0 <= m[k0] && (m0 == i0 || m0 == i1);
    assert m0 == i0 && k0 == 0;
    assert m0 < m1 <= m[k1] && (m1 == i0 || m1 == i1);
    assert m1 == i1 && k1 == 1;
    assert m1 < m2 && !(m2 == i0 || m2 == i1);
    assert k2 == 2;
  }

  /** The first three entries of the list of "$" positions are the first three "$" cells. */
  lemma ListedFirstThree(cells: seq<string>, i0: nat, i1: nat, i2: nat)
    requires var m := MoneyIndices(cells); |m| >= 3 && m[0] == i0 && m[1] == i1 && m[2] == i2
    ensures FirstThreeMoney(cells, i0, i1, i2)
  {
    var m := MoneyIndices(cells);
    forall j | 0 <= j < i2 && IsMoneyCell(cells[j]) ensures j == i0 || j == i1 {
      assert j in m;
      var k :| 0 <= k < |m| && m[k] == j;
      assert k < 2;
    }
  }

  /** The amount in a "$" cell: `Number(cell.replace("$", ""))`, the replaced "$" being the leading one. */
  function Amount(cell: string): (r: Option<int>)
    requires IsMoneyCell(cell)
    ensures cell == "$" ==> r == Some(0)
  {
    ParseCents(cell[1..])
  }

  /** The text the date is read from: the cells before the first "$" cell, joined by spaces. */
  function DateText(cells: seq<string>, i0: nat): (r: string)
    requires i0 <= |cells|
    ensures i0 == 0 ==> r == ""
    ensures i0 == 1 ==> r == cells[0]
  {
    Join(cells[..i0], " ")
  }

  /** The description: the cells after the third "$" cell, joined by spaces. */
  function Description(cells: seq<string>, i2: nat): (r: string)
    requires i2 < |cells|
    ensures i2 + 1 == |cells| ==> r == ""
    ensures i2 + 2 == |cells| ==> r == cells[i2 + 1]
  {
    Join(cells[i2 + 1..], " ")
  }

  /** The rest of `parseRow` once the first three "$" cells are known. */
  function RowAt(cells: seq<string>, mk: DateCtor, i0: nat, i1: nat, i2: nat): (r: Option<Transaction>)
    requires i0 < i1 < i2 < |cells|
    requires IsMoneyCell(cells[i0]) && IsMoneyCell(cells[i1]) && IsMoneyCell(cells[i2])
    ensures r.Some? ==> (r.value.isPpv <==> r.value.kind == PPV)
  {
    RowOf(ParseDateTime(DateText(cells, i0), mk), Amount(cells[i0]), Amount(cells[i1]), Amount(cells[i2]), Description(cells, i2))
  }

  /**
   * The row from what was read off its cells: null when the date or an amount did not
   * read, when gross, fee and net do not balance, or when the description has no type.
   * The balance check `Number((gross - fee).toFixed(2)) !== net` is the comparison of
   * cents it amounts to: `Money.ReadsBackIff` shows that reading back what `toFixed(2)`
   * prints gives exactly the amount.
   */
  function RowOf(date: Option<int>, gross: Option<int>, fee: Option<int>, net: Option<int>, description: string): (r: Option<Transaction>)
    ensures r.Some? ==> (r.value.isPpv <==> r.value.kind == PPV)
  {
    if date.None? || gross.None? || fee.None? || net.None? || gross.value - fee.value != net.value then None
    else
      match Classify(description, gross.value)
      case None => None
      case Some(kind) => Some(Transaction(date.value, net.value, gross.value, kind, kind == PPV))
  }

  /** `parseRow`: the transaction of one tab-separated row, or `None` (JavaScript's null). */
  function ParseRow(line: string, mk: DateCtor): (r: Option<Transaction>)
    ensures r.Some? ==> (r.value.isPpv <==> r.value.kind == PPV)
  {
    var cells := Cells(line);
    var m := MoneyIndices(cells);
    if |m| < 3 then None
    else
      assert m[0] < m[1] < m[2] < |cells|;
      assert IsMoneyCell(cells[m[0]]) && IsMoneyCell(cells[m[1]]) && IsMoneyCell(cells[m[2]]);
      RowAt(cells, mk, m[0], m[1], m[2])
  }

  /**
   * What an accepted row is, given its first three "$" cells: a date in the cells before
   * them, amounts in all three with fee = gross - net exactly, and a type for the
   * description after them.
   */
  predicate Accepted(cells: seq<string>, mk: DateCtor, i0: nat, i1: nat, i2: nat, t: Transaction)
    requires FirstThreeMoney(cells, i0, i1, i2)
  {
    AcceptedOf(ParseDateTime(DateText(cells, i0), mk), Amount(cells[i0]), Amount(cells[i1]), Amount(cells[i2]), Description(cells, i2), t)
  }

  /** `t` is what the pieces read off a row say: its date, gross, fee = gross - net, net, and the type of the description. */
  predicate AcceptedOf(date: Option<int>, gross: Option<int>, fee: Option<int>, net: Option<int>, description: string, t: Transaction) {
    && date == Some(t.timestamp)
    && gross == Some(t.gross) && fee == Some(t.gross - t.net) && net == Some(t.net)
    && Classify(description, t.gross) == Some(t.kind)
    && (t.isPpv <==> t.kind == PPV)
  }

  /** A row is built from its pieces exactly as `AcceptedOf` says, in both directions. */
  lemma RowOfIff(date: Option<int>, gross: Option<int>, fee: Option<int>, net: Option<int>, description: string, t: Transaction)
    ensures RowOf(date, gross, fee, net, description) == Some(t) <==> AcceptedOf(date, gross, fee, net, description, t)
  {
  }

  /** Given the first three "$" cells, a row is accepted exactly as `Accepted` says, in both directions. */
  lemma RowAtIff(cells: seq<string>, mk: DateCtor, i0: nat, i1: nat, i2: nat, t: Transaction)
    requires FirstThreeMoney(cells, i0, i1, i2)
    ensures RowAt(cells, mk, i0, i1, i2) == Some(t) <==> Accepted(cells, mk, i0, i1, i2, t)
  {
    RowOfIff(ParseDateTime(DateText(cells, i0), mk), Amount(cells[i0]), Amount(cells[i1]), Amount(cells[i2]), Description(cells, i2), t);
  }

  /** `parseRow` accepts a row exactly as `Accepted` says, in both directions. */
  lemma ParseRowIff(line: string, mk: DateCtor, i0: nat, i1: nat, i2: nat, t: Transaction)
    requires FirstThreeMoney(Cells(line), i0, i1, i2)
    ensures ParseRow(line, mk) == Some(t) <==> Accepted(Cells(line), mk, i0, i1, i2, t)
  {
    MoneyIndicesFirstThree(Cells(line), i0, i1, i2);
    RowAtIff(Cells(line), mk, i0, i1, i2, t);
  }

  /** A row with fewer than three "$" cells is rejected. */
  lemma FewMoneyCellsRejected(line: string, mk: DateCtor)
    requires forall i0, i1, i2 :: !FirstThreeMoney(Cells(line), i0, i1, i2)
    ensures ParseRow(line, mk) == None
  {
    var cells := Cells(line);
    var m := MoneyIndices(cells);
    if |m| >= 3 {
      MoneyIndicesFirstThree(cells, m[0], m[1], m[2]);
    }
  }
}
