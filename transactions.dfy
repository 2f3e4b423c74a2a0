/**
 * `parseTransactions` of src/utils.js: the cursor loop over the trimmed, non-empty lines
 * of a pasted export.
 *
 * A line with a tab is a whole row. A line without one that holds a date and is followed
 * by three "$" lines starts a row spread over five lines (the fifth, the description, is
 * "" past the end of the input), and the cursor jumps past all five. Any other line, and
 * any row `parseRow` rejects, sets the error flag; the scan goes on either way.
 */
module TransactionParser {
  import opened Wrappers
  import opened Text
  import opened DateTime
  import opened RowParser

  /** `map(l => l.trim()).filter(Boolean)`. */
  function TrimmedLines(pieces: seq<string>): (r: seq<string>)
    ensures |r| <= |pieces|
  {
    if pieces == [] then []
    else
      var t := Trim(pieces[0]);
      (if t == [] then [] else [t]) + TrimmedLines(pieces[1..])
  }

  /** A line as `trim` leaves it and `filter(Boolean)` keeps it. */
  predicate Clean(line: string) {
    line != [] && !IsSpace(line[0]) && !IsSpace(line[|line| - 1])
  }

  /** Every line kept is non-empty and has no white space at either end. */
  lemma {:induction false} TrimmedLinesClean(pieces: seq<string>)
    ensures forall k :: 0 <= k < |TrimmedLines(pieces)| ==> Clean(TrimmedLines(pieces)[k])
  {
    if pieces != [] {
      TrimmedLinesClean(pieces[1..]);
      var t := Trim(pieces[0]);
      var rest := TrimmedLines(pieces[1..]);
      var r := TrimmedLines(pieces);
      assert r == (if t == [] then [] else [t]) + rest;
      forall k | 0 <= k < |r| ensures Clean(r[k]) {
        if t == [] {
          assert r[k] == rest[k];
        } else if k == 0 {
          assert r[k] == t;
        } else {
          assert r[k] == rest[k - 1];
        }
      }
    }
  }

  /** Trimming and filtering piece by piece: the lines of `a + b` are those of `a`, then those of `b`. */
  lemma {:induction false} TrimmedLinesAppend(a: seq<string>, b: seq<string>)
    ensures TrimmedLines(a + b) == TrimmedLines(a) + TrimmedLines(b)
  {
    if a == [] {
      assert a + b == b;
    } else {
      var t := Trim(a[0]);
      var head := if t == [] then [] else [t];
      assert (a + b)[0] == a[0] && (a + b)[1..] == a[1..] + b;
      TrimmedLinesAppend(a[1..], b);
      assert head + (TrimmedLines(a[1..]) + TrimmedLines(b)) == head + TrimmedLines(a[1..]) + TrimmedLines(b);
    }
  }

  /** One more piece adds its trimmed text as the last line, unless that text is empty. */
  lemma TrimmedLinesSnoc(pieces: seq<string>, p: string)
    ensures TrimmedLines(pieces + [p]) == TrimmedLines(pieces) + (if Trim(p) == [] then [] else [Trim(p)])
  {
    TrimmedLinesAppend(pieces, [p]);
    assert [p][1..] == [];
  }

  /** Every line kept is the trimmed text of some piece. */
  lemma {:induction false} TrimmedLinesFrom(pieces: seq<string>)
    ensures forall k :: 0 <= k < |TrimmedLines(pieces)| ==>
              exists j :: 0 <= j < |pieces| && TrimmedLines(pieces)[k] == Trim(pieces[j])
  {
    if pieces == [] {
      assert TrimmedLines(pieces) == [];
    } else {
      var tail := pieces[1..];
      TrimmedLinesFrom(tail);
      var t := Trim(pieces[0]);
      var rest := TrimmedLines(tail);
      var r := TrimmedLines(pieces);
      var n := if t == [] then 0 else 1;
      assert r == (if t == [] then [] else [t]) + rest;
      forall k | 0 <= k < |r| ensures exists j :: 0 <= j < |pieces| && r[k] == Trim(pieces[j]) {
        if k < n {
          assert r[k] == Trim(pieces[0]);
        } else {
          assert r[k] == rest[k - n];
          var j :| 0 <= j < |tail| && rest[k - n] == Trim(tail[j]);
          assert tail[j] == pieces[j + 1];
        }
      }
    }
  }

  /** The trimmed text of every piece that is not blank is kept. */
  lemma {:induction false} TrimmedLinesKeep(pieces: seq<string>)
    ensures forall j :: 0 <= j < |pieces| && Trim(pieces[j]) != [] ==> Trim(pieces[j]) in TrimmedLines(pieces)
  {
    if pieces != [] {
      var tail := pieces[1..];
      TrimmedLinesKeep(tail);
      var t := Trim(pieces[0]);
      var rest := TrimmedLines(tail);
      var r := TrimmedLines(pieces);
      assert r == (if t == [] then [] else [t]) + rest;
      forall j | 0 <= j < |pieces| && Trim(pieces[j]) != [] ensures Trim(pieces[j]) in r {
        if j > 0 {
          assert pieces[j] == tail[j - 1];
          assert Trim(tail[j - 1]) in rest;
        }
      }
    }
  }

  /**
   * `raw.split(/\r?\n/).map(l => l.trim()).filter(Boolean)`. Splitting on "\n" alone gives
   * the same lines: a "\r" before the "\n" is at the end of its piece, where `trim` drops it.
   */
  function Lines(raw: string): (r: seq<string>)
    ensures |r| <= |Split(raw, '\n')|
    ensures forall k :: 0 <= k < |r| ==> Clean(r[k])
  {
    TrimmedLinesClean(Split(raw, '\n'));
    TrimmedLines(Split(raw, '\n'))
  }

  /**
   * The two things the loop asks of a line: its row (`parseRow`) and whether it holds a
   * date (`parseDateTime` not null). The scan below is stated over them; `ReaderOf`
   * supplies the parsers of this model.
   */
  datatype Reader = Reader(parse: string -> Option<Transaction>, isDate: string -> bool)

  function ReaderOf(mk: DateCtor): Reader {
    Reader(line => ParseRow(line, mk), line => ParseDateTime(line, mk).Some?)
  }

  /** A date line followed by three "$" lines: the start of a row spread over five lines. */
  predicate StartsMultiLine(lines: seq<string>, rd: Reader, i: nat)
    requires i < |lines|
  {
    && rd.isDate(lines[i])
    && i + 3 < |lines|
    && StartsWith(lines[i + 1], "$") && StartsWith(lines[i + 2], "$") && StartsWith(lines[i + 3], "$")
  }

  /** The five lines from `i` joined by tabs, "" standing in for a fifth line past the end. */
  function Combined(lines: seq<string>, i: nat): string
    requires i + 3 < |lines|
  {
    Join([lines[i], lines[i + 1], lines[i + 2], lines[i + 3], if i + 4 < |lines| then lines[i + 4] else ""], "\t")
  }

  /**
   * When none of the five lines holds a tab, `parseRow` splits the combined text back into
   * exactly those five cells: date, gross, fee, net, description.
   */
  lemma CombinedPieces(lines: seq<string>, i: nat)
    requires i + 3 < |lines|
    requires forall k :: i <= k < |lines| && k <= i + 4 ==> '\t' !in lines[k]
    ensures Split(Combined(lines, i), '\t') == [lines[i], lines[i + 1], lines[i + 2], lines[i + 3], if i + 4 < |lines| then lines[i + 4] else ""]
  {
    var parts := [lines[i], lines[i + 1], lines[i + 2], lines[i + 3], if i + 4 < |lines| then lines[i + 4] else ""];
    forall k | 0 <= k < |parts| ensures '\t' !in parts[k] {
      if k < 4 || i + 4 < |lines| {
        assert parts[k] == lines[i + k];
      }
    }
    SplitJoin(parts, '\t');
  }

  /** One turn of the loop: the lines it consumes, and the row it makes of them (`None`: the error flag is set). */
  datatype Step = Step(size: nat, row: Option<Transaction>)

  function StepAt(lines: seq<string>, rd: Reader, i: nat): (s: Step)
    requires i < |lines|
    ensures s.size == 1 || s.size == 5
    ensures s.size == 5 ==> i + 4 <= |lines|
  {
    if Contains(lines[i], "\t") then Step(1, rd.parse(lines[i]))
    else if StartsMultiLine(lines, rd, i) then Step(5, rd.parse(Combined(lines, i)))
    else Step(1, None)
  }

  /** The turns of the loop from line `i` to the end. */
  function Steps(lines: seq<string>, rd: Reader, i: nat): (r: seq<Step>)
    ensures i <= |lines| ==> |r| <= |lines| - i
    ensures forall k :: 0 <= k < |r| ==> r[k].size == 1 || r[k].size == 5
    decreases |lines| - i
  {
    if i >= |lines| then []
    else
      var s := StepAt(lines, rd, i);
      [s] + Steps(lines, rd, i + s.size)
  }

  /** The row a step made, if any, as a list of zero or one rows. */
  function RowOf(s: Step): seq<Transaction> {
    if s.row.Some? then [s.row.value] else []
  }

  /** The rows the steps made, in order. */
  function Rows(steps: seq<Step>): (r: seq<Transaction>)
    ensures |r| <= |steps|
  {
    if steps == [] then [] else RowOf(steps[0]) + Rows(steps[1..])
  }

  /** Some step made no row. */
  predicate AnyFailed(steps: seq<Step>) {
    steps != [] && (steps[0].row.None? || AnyFailed(steps[1..]))
  }

  /**
   * The loop as a function: from line `i`, with the rows parsed so far and the error flag
   * so far, what the scan ends with.
   */
  function Run(lines: seq<string>, rd: Reader, i: nat, parsed: seq<Transaction>, hasError: bool): (seq<Transaction>, bool)
    decreases |lines| - i
  {
    if i >= |lines| then (parsed, hasError)
    else
      var s := StepAt(lines, rd, i);
      Run(lines, rd, i + s.size, parsed + RowOf(s), hasError || s.row.None?)
  }

  /** One turn of the scan: the step at `i` adds its row or raises the flag, and the scan goes on after it. */
  lemma RunStep(lines: seq<string>, rd: Reader, i: nat, parsed: seq<Transaction>, hasError: bool, step: Step, parsed': seq<Transaction>, hasError': bool)
    requires i < |lines| && step == StepAt(lines, rd, i)
    requires parsed' == parsed + RowOf(step) && (hasError' <==> hasError || step.row.None?)
    ensures Run(lines, rd, i, parsed, hasError) == Run(lines, rd, i + step.size, parsed', hasError')
  {
  }

  /** The scan appends the rows of the remaining steps and raises the flag if any of them failed. */
  lemma {:induction false} RunIs(lines: seq<string>, rd: Reader, i: nat, parsed: seq<Transaction>, hasError: bool)
    ensures Run(lines, rd, i, parsed, hasError) == (parsed + Rows(Steps(lines, rd, i)), hasError || AnyFailed(Steps(lines, rd, i)))
    decreases |lines| - i
  {
    if i >= |lines| {
      assert parsed + [] == parsed;
    } else {
      var s := StepAt(lines, rd, i);
      RunIs(lines, rd, i + s.size, parsed + RowOf(s), hasError || s.row.None?);
      StepsUnfold(lines, rd, i, s);
      var mine, later := RowOf(s), Rows(Steps(lines, rd, i + s.size));
      assert parsed + mine + later == parsed + (mine + later);
    }
  }

  /**
   * The loop of `parseTransactions` over the cleaned lines: the rows parsed, in input
   * order, and whether any line or row failed.
   */
  method ScanLines(lines: seq<string>, rd: Reader) returns (parsed: seq<Transaction>, hasError: bool)
    ensures parsed == Rows(Steps(lines, rd, 0))
    ensures hasError <==> AnyFailed(Steps(lines, rd, 0))
  {
    parsed := [];
    hasError := false;
    var i := 0;
    while i < |lines|
      invariant i <= |lines| + 1
      invariant Run(lines, rd, i, parsed, hasError) == Run(lines, rd, 0, [], false)
      decreases |lines| - i
    {
      var step := StepAt(lines, rd, i);
      ghost var done, failed := parsed, hasError;
      if step.row.Some? {
        parsed := parsed + [step.row.value];
      } else {
        hasError := true;
      }
      RunStep(lines, rd, i, done, failed, step, parsed, hasError);
      i := i + step.size;
    }
    RunIs(lines, rd, 0, [], false);
    assert [] + Rows(Steps(lines, rd, 0)) == Rows(Steps(lines, rd, 0));
  }

  /** `parseTransactions`: split the export into lines and scan them with `parseRow` and `parseDateTime`. */
  method ParseTransactions(raw: string, mk: DateCtor) returns (parsed: seq<Transaction>, hasError: bool)
    ensures parsed == Rows(Steps(Lines(raw), ReaderOf(mk), 0))
    ensures hasError <==> AnyFailed(Steps(Lines(raw), ReaderOf(mk), 0))
  {
    parsed, hasError := ScanLines(Lines(raw), ReaderOf(mk));
  }

  /** The rows and failures from line `i` on: those of the step at `i`, then those after it. */
  lemma StepsUnfold(lines: seq<string>, rd: Reader, i: nat, s: Step)
    requires i < |lines| && s == StepAt(lines, rd, i)
    ensures Rows(Steps(lines, rd, i)) == RowOf(s) + Rows(Steps(lines, rd, i + s.size))
    ensures AnyFailed(Steps(lines, rd, i)) <==> s.row.None? || AnyFailed(Steps(lines, rd, i + s.size))
  {
    var rest := Steps(lines, rd, i);
    assert rest[1..] == Steps(lines, rd, i + s.size);
  }

  /** `AnyFailed` agrees with its positional reading, in both directions. */
  lemma {:induction false} AnyFailedIff(steps: seq<Step>)
    ensures AnyFailed(steps) <==> exists k :: 0 <= k < |steps| && steps[k].row.None?
  {
    if steps != [] {
      AnyFailedIff(steps[1..]);
      if k :| 0 <= k < |steps| && steps[k].row.None? {
        if k > 0 {
          assert steps[1..][k - 1].row.None?;
        }
      }
      if AnyFailed(steps[1..]) {
        var k :| 0 <= k < |steps[1..]| && steps[1..][k].row.None?;
        assert steps[k + 1].row.None?;
      }
    }
  }

  /** Lines consumed by the steps. */
  function Consumed(steps: seq<Step>): nat {
    if steps == [] then 0 else steps[0].size + Consumed(steps[1..])
  }

  /**
   * The steps cover the lines from `i` exactly, except that a last five-line step may
   * reach one line past the end (its description is then "").
   */
  lemma {:induction false} StepsCover(lines: seq<string>, rd: Reader, i: nat)
    requires i <= |lines|
    ensures var s := Steps(lines, rd, i);
            || Consumed(s) == |lines| - i
            || (&& Consumed(s) == |lines| - i + 1 && |lines| >= 4 && s != []
                && s[|s| - 1].size == 5 && s[|s| - 1].row == rd.parse(Combined(lines, |lines| - 4)))
    decreases |lines| - i
  {
    if i < |lines| {
      var st := StepAt(lines, rd, i);
      var s := Steps(lines, rd, i);
      assert s[1..] == Steps(lines, rd, i + st.size);
      if i + st.size <= |lines| {
        StepsCover(lines, rd, i + st.size);
      } else {
        assert i + 4 == |lines|;
        assert Steps(lines, rd, i + st.size) == [];
      }
    }
  }

  /** Number of steps that made no row. */
  function Failures(steps: seq<Step>): nat {
    if steps == [] then 0 else (if steps[0].row.None? then 1 else 0) + Failures(steps[1..])
  }

  /** Every step either made a row or failed: rows and failures add up to the steps. */
  lemma {:induction false} RowsAndFailures(steps: seq<Step>)
    ensures |Rows(steps)| + Failures(steps) == |steps|
    ensures !AnyFailed(steps) <==> |Rows(steps)| == |steps|
  {
    if steps != [] {
      RowsAndFailures(steps[1..]);
    }
  }

  /** When every line has a tab, each line is a row of its own: one step per line. */
  lemma {:induction false} AllTabRows(lines: seq<string>, rd: Reader, i: nat)
    requires i <= |lines|
    requires forall k :: i <= k < |lines| ==> Contains(lines[k], "\t")
    ensures |Steps(lines, rd, i)| == |lines| - i
    ensures forall k :: 0 <= k < |lines| - i ==> Steps(lines, rd, i)[k] == Step(1, rd.parse(lines[i + k]))
    decreases |lines| - i
  {
    if i < |lines| {
      AllTabRows(lines, rd, i + 1);
      var tail := Steps(lines, rd, i + 1);
      var head := Step(1, rd.parse(lines[i]));
      assert StepAt(lines, rd, i) == head;
      assert Steps(lines, rd, i) == [head] + tail;
    }
  }
}
