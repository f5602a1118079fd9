/** Mirage maintenance (day9/src/main.rs): every line of the report is a
    history of readings; the next reading is predicted by taking differences
    of neighbours until a row is all zeros and adding up the last entries of
    all the rows. Part one adds up the predictions of every history. */
module Mirage {
  import opened Wrappers
  import Text

  // ---------------------------------------------------------------------------
  // Reading the report

  /** One line of the report: trimmed, split on single spaces, every token
      parsed as an `isize` (`unwrap`: one bad token and there is no
      history). */
  function ParseHistory(line: string): Option<seq<int>> {
    Text.ParseInts(Text.Split(Text.Trim(line), ' '))
  }

  /** `get_time_rows`: the non-empty lines of the report, each read as a
      history. */
  function GetTimeRows(text: string): Option<seq<seq<int>>> {
    MapAll(Text.NonEmpty(Text.Split(text, '\n')), ParseHistory)
  }

  /** How a reading is written: an optional minus sign and its decimal
      digits. */
  function IntNumeral(v: int): (s: string)
    ensures |s| > 0 && ' ' !in s && '\n' !in s
    ensures forall k :: 0 <= k < |s| ==> !Text.IsWhitespace(s[k])
  {
    if v < 0 then ['-'] + Text.Decimal(-v) else Text.Decimal(v)
  }

  lemma ParseIntNumeral(v: int)
    ensures Text.ParseInt(IntNumeral(v)) == Some(v)
  {
    if v < 0 {
      Text.ParseIntNegative(-v);
    } else {
      Text.ParseNatDecimal(v);
    }
  }

  function IntNumerals(vs: seq<int>): (r: seq<string>)
    ensures |r| == |vs| && forall i :: 0 <= i < |vs| ==> r[i] == IntNumeral(vs[i])
  {
    if vs == [] then [] else [IntNumeral(vs[0])] + IntNumerals(vs[1..])
  }

  /** A history written as one line: its readings separated by single
      spaces. */
  function HistoryLine(history: seq<int>): (line: string)
    requires |history| >= 1
    ensures '\n' !in line
  {
    var tokens := IntNumerals(history);
    Text.JoinAvoids(tokens, ' ', '\n');
    Text.Join(tokens, ' ')
  }

  function HistoryLines(histories: seq<seq<int>>): (r: seq<string>)
    requires forall i :: 0 <= i < |histories| ==> |histories[i]| >= 1
    ensures |r| == |histories| && forall i :: 0 <= i < |r| ==> r[i] == HistoryLine(histories[i])
  {
    if histories == [] then [] else [HistoryLine(histories[0])] + HistoryLines(histories[1..])
  }

  /** A line written from a history is read back as that history. */
  lemma ParseHistoryLine(history: seq<int>)
    requires |history| >= 1
    ensures ParseHistory(HistoryLine(history)) == Some(history)
  {
    HistoryLineTokens(history);
    ParseIntNumerals(history);
  }

  lemma HistoryLineTokens(history: seq<int>)
    requires |history| >= 1
    ensures Text.Split(Text.Trim(HistoryLine(history)), ' ') == IntNumerals(history)
  {
    HistoryLineTrimmed(history);
    Text.SplitJoin(IntNumerals(history), ' ');
  }

  /** A written history has no whitespace at either end. */
  lemma HistoryLineTrimmed(history: seq<int>)
    requires |history| >= 1
    ensures Text.Trim(HistoryLine(history)) == HistoryLine(history)
  {
    var tokens := IntNumerals(history);
    var line := Text.Join(tokens, ' ');
    Text.JoinEnds(tokens, ' ');
    var first, last := tokens[0], tokens[|tokens| - 1];
    assert !Text.IsWhitespace(first[0]);
    assert !Text.IsWhitespace(last[|last| - 1]);
    Text.TrimKeeps(line);
  }

  lemma ParseIntNumerals(vs: seq<int>)
    ensures Text.ParseInts(IntNumerals(vs)) == Some(vs)
  {
    var tokens := IntNumerals(vs);
    forall i | 0 <= i < |vs|
      ensures Text.ParseInt(tokens[i]) == Some(vs[i])
    {
      ParseIntNumeral(vs[i]);
    }
    var r := Text.ParseInts(tokens);
    assert r.value == vs;
  }

  /** A report written one history per line is read back as those
      histories. */
  lemma GetTimeRowsOfReport(histories: seq<seq<int>>)
    requires |histories| >= 1 && forall i :: 0 <= i < |histories| ==> |histories[i]| >= 1
    ensures GetTimeRows(Text.Join(HistoryLines(histories), '\n')) == Some(histories)
  {
    ReportLines(histories);
    ParseHistoryLines(histories);
  }

  /** The non-empty lines of a written report are the written histories. */
  lemma ReportLines(histories: seq<seq<int>>)
    requires |histories| >= 1 && forall i :: 0 <= i < |histories| ==> |histories[i]| >= 1
    ensures Text.NonEmpty(Text.Split(Text.Join(HistoryLines(histories), '\n'), '\n')) == HistoryLines(histories)
  {
    var lines := HistoryLines(histories);
    Text.SplitJoin(lines, '\n');
    forall i | 0 <= i < |lines|
      ensures |lines[i]| > 0
    {
      Text.JoinEnds(IntNumerals(histories[i]), ' ');
    }
    Text.NonEmptyKeeps(lines);
  }

  lemma ParseHistoryLines(histories: seq<seq<int>>)
    requires forall i :: 0 <= i < |histories| ==> |histories[i]| >= 1
    ensures MapAll(HistoryLines(histories), ParseHistory) == Some(histories)
  {
    var lines := HistoryLines(histories);
    forall i | 0 <= i < |lines|
      ensures ParseHistory(lines[i]) == Some(histories[i])
    {
      ParseHistoryLine(histories[i]);
    }
    var r := MapAll(lines, ParseHistory);
    assert r.value == histories;
  }

  // ---------------------------------------------------------------------------
  // The difference table

  /** `iter().all(|&y| y == 0)`: true of the empty row too. */
  predicate AllZero(row: seq<int>) {
    forall i :: 0 <= i < |row| ==> row[i] == 0
  }

  /** The differences of neighbours: one entry shorter than the row. */
  function Diffs(row: seq<int>): seq<int>
    requires |row| >= 1
  {
    seq(|row| - 1, i requires 0 <= i < |row| - 1 => row[i + 1] - row[i])
  }

  /** Sum of two optional values: none unless both are present. */
  function Plus(a: Option<int>, b: Option<int>): (r: Option<int>)
    ensures r.Some? <==> a.Some? && b.Some?
    ensures r.Some? ==> r.value == a.value + b.value
  {
    if a.Some? && b.Some? then Some(a.value + b.value) else None
  }

  /** `last().unwrap()`: the last entry of a row; an empty row panics. */
  function Last(row: seq<int>): (r: Option<int>)
    ensures r.Some? <==> |row| > 0
    ensures r.Some? ==> r.value == row[|row| - 1]
  {
    if row == [] then None else Some(row[|row| - 1])
  }

  /** `.map(|x| x.last().unwrap()).sum()`: the last entries of the rows,
      added up; one empty row and there is no sum. */
  function SumLasts(rows: seq<seq<int>>): Option<int> {
    if rows == [] then Some(0) else Plus(SumLasts(rows[..|rows| - 1]), Last(rows[|rows| - 1]))
  }

  /** The next reading of a history: the last reading plus the next entry
      of its differences; a row of zeros continues with zero, and an empty
      row has no continuation. */
  function Extrapolate(row: seq<int>): Option<int>
    decreases |row|
  {
    if AllZero(row) then (if row == [] then None else Some(0))
    else Plus(Last(row), Extrapolate(Diffs(row)))
  }

  /** `get_prediction_for_time_row`: rows of differences are appended until
      the last row is all zeros, then the last entries of all rows are
      added up. What is summed so far plus the prediction of the last row
      is at every step the prediction of the history. */
  method PredictNext(timeRow: seq<int>) returns (r: Option<int>)
    ensures r == Extrapolate(timeRow)
  {
    var diffs: seq<seq<int>> := [timeRow];
    while true
      invariant |diffs| >= 1
      invariant Extrapolate(timeRow) == Plus(SumLasts(diffs[..|diffs| - 1]), Extrapolate(diffs[|diffs| - 1]))
      decreases |diffs[|diffs| - 1]|
    {
      var cur := diffs[|diffs| - 1];
      if AllZero(cur) {
        break;
      }
      var acc: seq<int> := [];
      for i := 0 to |cur| - 1
        invariant |acc| == i && forall j :: 0 <= j < i ==> acc[j] == cur[j + 1] - cur[j]
      {
        acc := acc + [cur[i + 1] - cur[i]];
      }
      assert acc == Diffs(cur);
      PredictionMoves(diffs, acc);
      diffs := diffs + [acc];
    }
    PredictionEnds(diffs);
    r := SumLasts(diffs);
  }

  /** Moving one row from the prediction still to be made into the sum of
      last entries keeps the total. */
  lemma PredictionMoves(diffs: seq<seq<int>>, next: seq<int>)
    requires |diffs| >= 1 && !AllZero(diffs[|diffs| - 1]) && next == Diffs(diffs[|diffs| - 1])
    ensures Plus(SumLasts(diffs[..|diffs| - 1]), Extrapolate(diffs[|diffs| - 1]))
         == Plus(SumLasts((diffs + [next])[..|diffs|]), Extrapolate(next))
  {
    assert (diffs + [next])[..|diffs|] == diffs;
  }

  /** Once the last row is all zeros, its prediction adds nothing beyond
      its own last entry. */
  lemma PredictionEnds(diffs: seq<seq<int>>)
    requires |diffs| >= 1 && AllZero(diffs[|diffs| - 1])
    ensures Plus(SumLasts(diffs[..|diffs| - 1]), Extrapolate(diffs[|diffs| - 1])) == SumLasts(diffs)
  {
    var last := diffs[|diffs| - 1];
    if last != [] {
      assert last[|last| - 1] == 0;
    }
  }

  /** A history of zeros continues with zero; an empty history, or a single
      reading that is not zero, has no prediction (the program panics). */
  lemma NoPrediction(v: int)
    ensures Extrapolate([]) == None
    ensures v != 0 ==> Extrapolate([v]) == None
    ensures v == 0 ==> Extrapolate([v]) == Some(0)
  {
    if v != 0 {
      assert [v][0] != 0;
      assert Diffs([v]) == [];
    }
  }

  /** A constant history of at least two readings predicts its constant. */
  lemma ConstantPrediction(row: seq<int>, c: int)
    requires |row| >= 2 && forall i :: 0 <= i < |row| ==> row[i] == c
    ensures Extrapolate(row) == Some(c)
  {
    var d := Diffs(row);
    assert AllZero(d) && d != [];
    if c != 0 {
      assert !AllZero(row) by { assert row[0] != 0; }
    }
  }

  /** A history of at least three readings that grows by `d` at every step
      predicts its last reading plus `d`. */
  lemma ArithmeticPrediction(row: seq<int>, d: int)
    requires |row| >= 3 && forall i :: 0 <= i < |row| - 1 ==> row[i + 1] - row[i] == d
    ensures Extrapolate(row) == Some(row[|row| - 1] + d)
  {
    var diffs := Diffs(row);
    ConstantPrediction(diffs, d);
    if AllZero(row) {
      assert d == row[1] - row[0] == 0;
    }
  }

  /** Adding the same constant to every reading of a history of at least two
      readings adds it to the prediction. */
  lemma ShiftPrediction(row: seq<int>, c: int)
    requires |row| >= 2
    ensures Extrapolate(seq(|row|, i requires 0 <= i < |row| => row[i] + c)) == Plus(Extrapolate(row), Some(c))
  {
    var shifted := seq(|row|, i requires 0 <= i < |row| => row[i] + c);
    var d := Diffs(row);
    assert Diffs(shifted) == d;
    if AllZero(row) {
      assert AllZero(d);
      if c != 0 {
        assert !AllZero(shifted) by { assert shifted[0] == c; }
      }
    } else if AllZero(shifted) {
      assert AllZero(d);
      assert row[|row| - 1] == -c by { assert shifted[|row| - 1] == 0; }
    }
  }

  // ---------------------------------------------------------------------------
  // Part one

  /** The predictions of all histories, added up; one history without a
      prediction and there is no sum. */
  function TotalPrediction(histories: seq<seq<int>>): Option<int> {
    if histories == [] then Some(0)
    else Plus(TotalPrediction(histories[..|histories| - 1]), Extrapolate(histories[|histories| - 1]))
  }

  /** `riddle_part_one`: read the histories, predict each, add the
      predictions up. */
  method RiddlePartOne(text: string) returns (r: Option<int>)
    ensures GetTimeRows(text).None? ==> r.None?
    ensures GetTimeRows(text).Some? ==> r == TotalPrediction(GetTimeRows(text).value)
  {
    var rows := CollectAll(Text.NonEmpty(Text.Split(text, '\n')), ParseHistory);
    if rows.None? {
      return None;
    }
    var histories := rows.value;
    var total := Some(0);
    for k := 0 to |histories|
      invariant total == TotalPrediction(histories[..k])
    {
      var p := PredictNext(histories[k]);
      TotalPredictionSnoc(histories, k);
      total := Plus(total, p);
    }
    assert histories[..|histories|] == histories;
    r := total;
  }

  lemma TotalPredictionSnoc(histories: seq<seq<int>>, k: nat)
    requires k < |histories|
    ensures TotalPrediction(histories[..k + 1]) == Plus(TotalPrediction(histories[..k]), Extrapolate(histories[k]))
  {
    assert histories[..k + 1][..k] == histories[..k];
  }
}
