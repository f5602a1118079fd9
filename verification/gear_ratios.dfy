/** Gear ratios (day3/src/main.rs): an engine schematic is a grid of text
    rows; every maximal run of digits in a row is an engine part, and a part
    is valid when one of its digits has a symbol among its eight neighbours.
    Part one sums the numbers of the valid parts. */
module GearRatios {
  import opened Wrappers
  import Text

  /** `SYMBOLS`: the characters that mark a symbol. */
  const SYMBOLS: seq<char> := ['%', '+', '#', '&', '$', '*', '\n', '=', '-', '@', '/']

  predicate IsSymbol(c: char) {
    c in SYMBOLS
  }

  /** `Coord2D`: column `x` and row `y`. */
  datatype Coord = Coord(x: int, y: int)

  /** `EnginePart`: the value of a digit run and the positions of its
      digits. */
  datatype EnginePart = EnginePart(number: nat, digitCoords: set<Coord>)

  /** `EngineSchematic`. */
  datatype Schematic = Schematic(width: nat, height: nat, parts: seq<EnginePart>, symbols: set<Coord>)

  // ---------------------------------------------------------------------------
  // Digit runs

  /** The half-open column range `[start, end)` of a digit run. */
  datatype Run = Run(start: nat, end: nat)

  /** Columns `lo .. hi-1` of the row are all digits. */
  ghost predicate DigitsIn(row: string, lo: nat, hi: nat) {
    hi <= |row| && forall i :: lo <= i < hi ==> Text.IsDigit(row[i])
  }

  /** No column `lo .. hi-1` of the row holds a digit. */
  ghost predicate NoDigitsIn(row: string, lo: nat, hi: nat) {
    forall i :: lo <= i < hi && i < |row| ==> !Text.IsDigit(row[i])
  }

  /** A run that holds only digits and cannot be extended on either side. */
  ghost predicate MaximalRun(row: string, r: Run) {
    && r.start < r.end
    && DigitsIn(row, r.start, r.end)
    && (r.start == 0 || !Text.IsDigit(row[r.start - 1]))
    && (r.end == |row| || !Text.IsDigit(row[r.end]))
  }

  ghost predicate AllMaximal(row: string, runs: seq<Run>) {
    forall k :: 0 <= k < |runs| ==> MaximalRun(row, runs[k])
  }

  /** Consecutive runs have a gap between them. */
  ghost predicate Separated(runs: seq<Run>) {
    forall k :: 0 <= k < |runs| - 1 ==> runs[k].end < runs[k + 1].start
  }

  /** Every digit left of column `end` lies in one of the runs. */
  ghost predicate DigitsCovered(row: string, end: nat, runs: seq<Run>) {
    forall i :: 0 <= i < end && i < |row| && Text.IsDigit(row[i]) ==>
      exists k :: 0 <= k < |runs| && runs[k].start <= i < runs[k].end
  }

  /** No digit lies left of column `end` outside the runs: not before the
      first, not between two consecutive ones, not after the last. */
  ghost predicate OnlyGapsBetween(row: string, end: nat, runs: seq<Run>) {
    && (runs == [] ==> NoDigitsIn(row, 0, end))
    && (runs != [] ==> NoDigitsIn(row, 0, runs[0].start) && NoDigitsIn(row, runs[|runs| - 1].end, end))
    && (forall k :: 0 <= k < |runs| - 1 ==> NoDigitsIn(row, runs[k].end, runs[k + 1].start))
  }

  /** Clear gaps mean that every digit left of `end` is in some run. */
  lemma {:induction false} GapsCover(row: string, end: nat, runs: seq<Run>)
    requires OnlyGapsBetween(row, end, runs)
    ensures DigitsCovered(row, end, runs)
    decreases |runs|
  {
    if runs != [] {
      var init, r := runs[..|runs| - 1], runs[|runs| - 1];
      assert OnlyGapsBetween(row, r.start, init) by {
        if init != [] {
          assert NoDigitsIn(row, init[|init| - 1].end, r.start) by {
            assert init[|init| - 1] == runs[|runs| - 2];
          }
        }
      }
      GapsCover(row, r.start, init);
      forall i | 0 <= i < end && i < |row| && Text.IsDigit(row[i])
        ensures exists k :: 0 <= k < |runs| && runs[k].start <= i < runs[k].end
      {
        if i < r.start {
          var k :| 0 <= k < |init| && init[k].start <= i < init[k].end;
          assert runs[k] == init[k];
        } else {
          assert runs[|runs| - 1].start <= i < runs[|runs| - 1].end;
        }
      }
    }
  }

  /** `runs` lists the maximal digit runs of `row` from left to right, each
      once: every run is maximal, consecutive runs have a gap between them, and
      every digit of the row lies in one of them. */
  ghost predicate RunsOfRow(row: string, runs: seq<Run>) {
    AllMaximal(row, runs) && Separated(runs) && DigitsCovered(row, |row|, runs)
  }

  /** The positions of the columns `start .. end-1` of row `y`. */
  function Positions(start: int, end: int, y: int): (r: set<Coord>)
    ensures forall c :: c in r <==> c.y == y && start <= c.x < end
  {
    set x: int | start <= x < end :: Coord(x, y)
  }

  /** Every run holds only digits. */
  ghost predicate DigitRuns(row: string, runs: seq<Run>) {
    forall k :: 0 <= k < |runs| ==> runs[k].start <= runs[k].end && DigitsIn(row, runs[k].start, runs[k].end)
  }

  /** The part a digit run of row `y` stands for: its decimal value and the
      positions of its digits. */
  ghost function PartOf(row: string, y: nat, r: Run): EnginePart
    requires r.start <= r.end && DigitsIn(row, r.start, r.end)
  {
    EnginePart(Text.DecimalValue(row[r.start..r.end]), Positions(r.start, r.end, y))
  }

  /** The parts of a list of digit runs, in order. */
  ghost function PartsOf(row: string, y: nat, runs: seq<Run>): (parts: seq<EnginePart>)
    requires DigitRuns(row, runs)
    ensures |parts| == |runs|
  {
    if runs == [] then []
    else
      var init, last := runs[..|runs| - 1], runs[|runs| - 1];
      assert forall k :: 0 <= k < |init| ==> init[k] == runs[k];
      PartsOf(row, y, init) + [PartOf(row, y, last)]
  }

  /** One more run adds its part at the end. */
  lemma PartsOfSnoc(row: string, y: nat, runs: seq<Run>, r: Run)
    requires DigitRuns(row, runs) && r.start <= r.end && DigitsIn(row, r.start, r.end)
    ensures DigitRuns(row, runs + [r])
    ensures PartsOf(row, y, runs + [r]) == PartsOf(row, y, runs) + [PartOf(row, y, r)]
  {
    assert (runs + [r])[..|runs|] == runs;
  }

  /** The `k`-th part is the part of the `k`-th run. */
  lemma {:induction false} PartsOfAt(row: string, y: nat, runs: seq<Run>, k: nat)
    requires DigitRuns(row, runs) && k < |runs|
    ensures PartsOf(row, y, runs)[k] == PartOf(row, y, runs[k])
  {
    if k < |runs| - 1 {
      assert DigitRuns(row, runs[..|runs| - 1]);
      PartsOfAt(row, y, runs[..|runs| - 1], k);
    }
  }

  /** Where the scan of a row stands after its first `x` characters: the
      runs already closed, and the run still open, if any. */
  datatype RunScan = RunScan(closed: seq<Run>, open: Option<Run>)

  /** The scan of the first `x` characters of a row: a digit right after the
      open run extends it, any other digit closes it and opens a new one,
      other characters change nothing. */
  ghost function ScanTo(row: string, x: nat): RunScan
    requires x <= |row|
  {
    if x == 0 then RunScan([], None) else ScanStep(row, ScanTo(row, x - 1), x - 1)
  }

  /** One character of the scan, at column `p`. */
  ghost function ScanStep(row: string, s: RunScan, p: nat): RunScan
    requires p < |row|
  {
    if !Text.IsDigit(row[p]) then s
    else if s.open.None? then RunScan(s.closed, Some(Run(p, p + 1)))
    else if s.open.value.end == p then RunScan(s.closed, Some(Run(s.open.value.start, p + 1)))
    else RunScan(s.closed + [s.open.value], Some(Run(p, p + 1)))
  }

  lemma ScanToNext(row: string, x: nat)
    requires x < |row|
    ensures ScanTo(row, x + 1) == ScanStep(row, ScanTo(row, x), x)
  {
  }

  /** The runs of a whole row: the closed ones, then the one open at the
      end. */
  ghost function RowRuns(row: string): seq<Run> {
    var s := ScanTo(row, |row|);
    s.closed + if s.open.Some? then [s.open.value] else []
  }

  /** What a scan up to `x` knows: with no open run there was no digit yet;
      an open run is a digit run that cannot grow to the left, followed by no
      digit up to `x`, and the closed runs are the maximal runs before it. */
  ghost predicate ScanKnows(row: string, x: nat, s: RunScan) {
    && x <= |row|
    && (s.open.None? ==> s.closed == [] && NoDigitsIn(row, 0, x))
    && (s.open.Some? ==>
          var r := s.open.value;
          && r.start < r.end <= x
          && DigitsIn(row, r.start, r.end)
          && (r.start == 0 || !Text.IsDigit(row[r.start - 1]))
          && NoDigitsIn(row, r.end, x)
          && ClosedRuns(row, r.start, s.closed))
  }

  lemma {:induction false} ScanToKnows(row: string, x: nat)
    requires x <= |row|
    ensures ScanKnows(row, x, ScanTo(row, x))
  {
    if x > 0 {
      var s, p := ScanTo(row, x - 1), x - 1;
      ScanToKnows(row, p);
      if Text.IsDigit(row[p]) {
        if s.open.None? {
          assert ClosedRuns(row, p, []);
        } else if s.open.value.end != p {
          var r := s.open.value;
          ExtendClosed(row, r.start, r.end, p, s.closed);
        }
      }
    }
  }

  /** The runs of a row are its maximal digit runs, in order. */
  lemma RowRunsMaximal(row: string)
    ensures RunsOfRow(row, RowRuns(row))
  {
    var s := ScanTo(row, |row|);
    ScanToKnows(row, |row|);
    if s.open.Some? {
      var r := s.open.value;
      ExtendClosed(row, r.start, r.end, |row|, s.closed);
    } else {
      GapsCover(row, |row|, []);
    }
  }

  /** Two maximal runs that share a column are the same run. */
  lemma MaximalRunsOverlap(row: string, a: Run, b: Run, i: nat)
    requires MaximalRun(row, a) && MaximalRun(row, b)
    requires a.start <= i < a.end && b.start <= i < b.end
    ensures a == b
  {
  }

  /** Every maximal digit run of a row is one of the runs the scan reads,
      so it becomes a part. */
  lemma MaximalRunListed(row: string, r: Run)
    requires MaximalRun(row, r)
    ensures r in RowRuns(row)
  {
    var runs := RowRuns(row);
    RowRunsMaximal(row);
    assert Text.IsDigit(row[r.start]);
    var k :| 0 <= k < |runs| && runs[k].start <= r.start < runs[k].end;
    MaximalRunsOverlap(row, r, runs[k], r.start);
  }

  /** The digit loop of `from_string` for one row: digits are visited left
      to right (`match_indices`); a digit right after the previous one extends
      the number being read, any other digit first closes it as a part; the
      number still open at the end of the row is closed too. */
  method ScanRow(row: string, y: nat) returns (parts: seq<EnginePart>)
    ensures parts == RowPartsOf(row, y)
  {
    parts := [];
    var numberBuffer: string := "";
    var digitCoords: set<Coord> := {};
    var lastDigitPos: Option<nat> := None;
    ghost var start: nat := 0;
    ghost var scan := RunScan([], None);
    for digitPos := 0 to |row|
      invariant scan == ScanTo(row, digitPos)
      invariant Reading(row, y, digitPos, scan, parts, numberBuffer, digitCoords, lastDigitPos, start)
    {
      ScanToNext(row, digitPos);
      if Text.IsDigit(row[digitPos]) {
        if lastDigitPos.None? || lastDigitPos.value + 1 == digitPos {
          ReadExtend(row, y, digitPos, scan, parts, numberBuffer, digitCoords, lastDigitPos, start);
          if lastDigitPos.None? {
            start := digitPos;
          }
          numberBuffer := numberBuffer + [row[digitPos]];
          lastDigitPos := Some(digitPos);
        } else {
          ReadRestart(row, y, digitPos, scan, parts, numberBuffer, digitCoords, lastDigitPos, start);
          parts := parts + [EnginePart(Text.DecimalValue(numberBuffer), digitCoords)];
          digitCoords := {};
          numberBuffer := [row[digitPos]];
          start := digitPos;
          lastDigitPos := Some(digitPos);
        }
        digitCoords := digitCoords + {Coord(digitPos, y)};
      } else {
        ReadSkip(row, y, digitPos, scan, parts, numberBuffer, digitCoords, lastDigitPos, start);
      }
      scan := ScanStep(row, scan, digitPos);
    }
    ReadFinish(row, y, scan, parts, numberBuffer, digitCoords, lastDigitPos, start);
    if |numberBuffer| > 0 {
      parts := parts + [EnginePart(Text.DecimalValue(numberBuffer), digitCoords)];
    }
  }

  /** What the digit loop holds after the first `x` characters of a row: the
      parts read are those of the runs the scan has closed, and the buffer and
      the coordinate set are the digits and the positions of its open run, if
      any, which starts at `start` and ends after `last`. */
  ghost predicate Reading(row: string, y: nat, x: nat, scan: RunScan, parts: seq<EnginePart>,
                          buffer: string, coords: set<Coord>, last: Option<nat>, start: nat) {
    && x <= |row|
    && DigitRuns(row, scan.closed) && parts == PartsOf(row, y, scan.closed)
    && (last.None? <==> scan.open.None?)
    && (last.None? ==> buffer == "" && coords == {})
    && (last.Some? ==>
          && scan.open == Some(Run(start, last.value + 1))
          && start <= last.value < x
          && DigitsIn(row, start, last.value + 1)
          && buffer == row[start..last.value + 1]
          && coords == Positions(start, last.value + 1, y))
  }

  /** A character that is not a digit changes nothing. */
  lemma ReadSkip(row: string, y: nat, x: nat, scan: RunScan, parts: seq<EnginePart>,
                 buffer: string, coords: set<Coord>, last: Option<nat>, start: nat)
    requires Reading(row, y, x, scan, parts, buffer, coords, last, start)
    requires x < |row| && !Text.IsDigit(row[x])
    ensures Reading(row, y, x + 1, ScanStep(row, scan, x), parts, buffer, coords, last, start)
  {
  }

  /** A digit with no number open, or right after the open one, joins the
      buffer. */
  lemma ReadExtend(row: string, y: nat, x: nat, scan: RunScan, parts: seq<EnginePart>,
                   buffer: string, coords: set<Coord>, last: Option<nat>, start: nat)
    requires Reading(row, y, x, scan, parts, buffer, coords, last, start)
    requires x < |row| && Text.IsDigit(row[x]) && (last.None? || last.value + 1 == x)
    ensures Reading(row, y, x + 1, ScanStep(row, scan, x), parts, buffer + [row[x]], coords + {Coord(x, y)},
                    Some(x), if last.None? then x else start)
  {
    if last.None? {
      StartAt(row, y, x);
    } else {
      assert buffer + [row[x]] == row[start..x + 1];
      assert coords + {Coord(x, y)} == Positions(start, x + 1, y);
    }
  }

  /** A digit after a gap closes the open number as a part of its run and
      starts a new number. */
  lemma ReadRestart(row: string, y: nat, x: nat, scan: RunScan, parts: seq<EnginePart>,
                    buffer: string, coords: set<Coord>, last: Option<nat>, start: nat)
    requires Reading(row, y, x, scan, parts, buffer, coords, last, start)
    requires x < |row| && Text.IsDigit(row[x]) && last.Some? && last.value + 1 != x
    ensures Text.AllDigits(buffer)
    ensures Reading(row, y, x + 1, ScanStep(row, scan, x), parts + [EnginePart(Text.DecimalValue(buffer), coords)],
                    [row[x]], {} + {Coord(x, y)}, Some(x), x)
  {
    var r := Run(start, last.value + 1);
    assert ScanStep(row, scan, x) == RunScan(scan.closed + [r], Some(Run(x, x + 1)));
    ClosePart(row, y, scan.closed, parts, r, buffer, coords);
    StartAt(row, y, x);
  }

  /** The buffer and the coordinate set of a number that starts at `x`. */
  lemma StartAt(row: string, y: nat, x: nat)
    requires x < |row| && Text.IsDigit(row[x])
    ensures DigitsIn(row, x, x + 1)
    ensures [row[x]] == row[x..x + 1] && "" + [row[x]] == row[x..x + 1]
    ensures {} + {Coord(x, y)} == Positions(x, x + 1, y)
  {
  }

  /** At the end of the row, the parts read, with the open number if any,
      are the parts of the row. */
  lemma ReadFinish(row: string, y: nat, scan: RunScan, parts: seq<EnginePart>,
                   buffer: string, coords: set<Coord>, last: Option<nat>, start: nat)
    requires scan == ScanTo(row, |row|)
    requires Reading(row, y, |row|, scan, parts, buffer, coords, last, start)
    ensures |buffer| > 0 <==> last.Some?
    ensures last.None? ==> parts == RowPartsOf(row, y)
    ensures last.Some? ==>
              Text.AllDigits(buffer) && parts + [EnginePart(Text.DecimalValue(buffer), coords)] == RowPartsOf(row, y)
  {
    if last.Some? {
      var r := Run(start, last.value + 1);
      assert RowRuns(row) == scan.closed + [r];
      ClosePart(row, y, scan.closed, parts, r, buffer, coords);
      RowPartsOfRuns(row, y, parts + [EnginePart(Text.DecimalValue(buffer), coords)]);
    } else {
      assert RowRuns(row) == scan.closed;
      RowPartsOfRuns(row, y, parts);
    }
  }

  lemma RowPartsOfRuns(row: string, y: nat, parts: seq<EnginePart>)
    requires DigitRuns(row, RowRuns(row)) && parts == PartsOf(row, y, RowRuns(row))
    ensures parts == RowPartsOf(row, y)
  {
  }

  /** Closing the number read from the digit run `r` adds the part of
      `r`. */
  lemma ClosePart(row: string, y: nat, runs: seq<Run>, parts: seq<EnginePart>, r: Run,
                  buffer: string, coords: set<Coord>)
    requires DigitRuns(row, runs) && parts == PartsOf(row, y, runs)
    requires r.start <= r.end && DigitsIn(row, r.start, r.end)
    requires buffer == row[r.start..r.end] && coords == Positions(r.start, r.end, y)
    ensures Text.AllDigits(buffer) && DigitRuns(row, runs + [r])
    ensures parts + [EnginePart(Text.DecimalValue(buffer), coords)] == PartsOf(row, y, runs + [r])
  {
    PartsOfSnoc(row, y, runs, r);
  }

  /** The runs closed so far are maximal, in order, end before `start`, and
      hold every digit left of `start`. */
  ghost predicate ClosedRuns(row: string, start: nat, runs: seq<Run>) {
    && AllMaximal(row, runs)
    && Separated(runs)
    && (runs != [] ==> runs[|runs| - 1].end < start)
    && OnlyGapsBetween(row, start, runs)
  }

  /** A maximal run `[start, end)` followed by no digit up to `x` extends the
      closed runs up to `x`. */
  lemma ExtendClosed(row: string, start: nat, end: nat, x: nat, runs: seq<Run>)
    requires ClosedRuns(row, start, runs) && MaximalRun(row, Run(start, end))
    requires end <= x <= |row| && NoDigitsIn(row, end, x)
    ensures x < |row| && end < x ==> ClosedRuns(row, x, runs + [Run(start, end)])
    ensures x == |row| ==> RunsOfRow(row, runs + [Run(start, end)])
  {
    var extended := runs + [Run(start, end)];
    assert forall k :: 0 <= k < |runs| ==> extended[k] == runs[k];
    assert AllMaximal(row, extended);
    assert Separated(extended);
    assert OnlyGapsBetween(row, x, extended) by {
      if runs != [] {
        assert extended[0] == runs[0];
        assert extended[|runs| - 1] == runs[|runs| - 1];
      }
    }
    if x == |row| {
      GapsCover(row, x, extended);
    }
  }

  // ---------------------------------------------------------------------------
  // The whole schematic

  /** The positions of the symbols of row `y`. */
  function RowSymbols(row: string, y: nat): (r: set<Coord>)
    ensures forall c :: c in r <==> c.y == y && 0 <= c.x < |row| && IsSymbol(row[c.x])
  {
    set x: int | 0 <= x < |row| && IsSymbol(row[x]) :: Coord(x, y)
  }

  /** The parts of one row: those of its maximal digit runs, left to
      right. */
  ghost function RowPartsOf(row: string, y: nat): (parts: seq<EnginePart>)
    ensures |parts| == |RowRuns(row)|
  {
    RowRunsMaximal(row);
    PartsOf(row, y, RowRuns(row))
  }

  /** The parts of the first `n` rows, row after row. */
  ghost function SchematicParts(rows: seq<string>, n: nat): seq<EnginePart>
    requires n <= |rows|
  {
    if n == 0 then [] else SchematicParts(rows, n - 1) + RowPartsOf(rows[n - 1], n - 1)
  }

  /** The symbol positions of the first `n` rows. */
  function SchematicSymbols(rows: seq<string>, n: nat): set<Coord>
    requires n <= |rows|
  {
    if n == 0 then {} else SchematicSymbols(rows, n - 1) + RowSymbols(rows[n - 1], n - 1)
  }

  /** A position is among the symbols of the first `n` rows exactly when a
      symbol character stands there. */
  lemma {:induction false} SymbolsAt(rows: seq<string>, n: nat)
    requires n <= |rows|
    ensures forall c :: c in SchematicSymbols(rows, n) <==>
              0 <= c.y < n && 0 <= c.x < |rows[c.y]| && IsSymbol(rows[c.y][c.x])
  {
    if n > 0 {
      SymbolsAt(rows, n - 1);
    }
  }

  /** `EngineSchematic::from_string`: the rows are the `'\n'`-separated
      pieces; `width` is the length of the first row and `height` the number
      of rows; the parts are the maximal digit runs of every row, row by row,
      and the symbols every symbol position. */
  method ParseSchematic(text: string) returns (schematic: Schematic)
    ensures var rows := Text.Split(text, '\n');
            && schematic.width == |rows[0]| && schematic.height == |rows|
            && schematic.parts == SchematicParts(rows, |rows|)
            && schematic.symbols == SchematicSymbols(rows, |rows|)
            && (forall c :: c in schematic.symbols <==>
                  0 <= c.y < |rows| && 0 <= c.x < |rows[c.y]| && IsSymbol(rows[c.y][c.x]))
  {
    var rows := Text.Split(text, '\n');
    var engineParts: seq<EnginePart> := [];
    var symbolList: set<Coord> := {};
    for rowIndex := 0 to |rows|
      invariant engineParts == SchematicParts(rows, rowIndex)
      invariant symbolList == SchematicSymbols(rows, rowIndex)
    {
      var rowParts := ScanRow(rows[rowIndex], rowIndex);
      engineParts := engineParts + rowParts;
      symbolList := symbolList + RowSymbols(rows[rowIndex], rowIndex);
    }
    SymbolsAt(rows, |rows|);
    schematic := Schematic(|rows[0]|, |rows|, engineParts, symbolList);
  }

  /** The digits of a row's parts lie in that row, on digit characters:
      a part never spans two rows. */
  lemma RowPartsInRow(row: string, y: nat)
    ensures var parts := RowPartsOf(row, y);
            forall k, c :: 0 <= k < |parts| && c in parts[k].digitCoords ==>
              c.y == y && 0 <= c.x < |row| && Text.IsDigit(row[c.x])
  {
    RowRunsMaximal(row);
    var runs := RowRuns(row);
    forall k | 0 <= k < |runs| {
      PartsOfAt(row, y, runs, k);
    }
  }

  /** A symbol is neither a digit nor `'.'`, so no digit of a part is ever a
      symbol position. */
  lemma SymbolsAreNotDigits(c: char)
    requires IsSymbol(c)
    ensures !Text.IsDigit(c) && c != '.'
  {
  }

  // ---------------------------------------------------------------------------
  // Valid parts

  /** The eight neighbour offsets, in the order of `offsets`. */
  const OFFSETS: seq<Coord> := [
    Coord(-1, -1), Coord(0, -1), Coord(1, -1),
    Coord(-1, 0), Coord(1, 0),
    Coord(-1, 1), Coord(0, 1), Coord(1, 1)
  ]

  function Shift(c: Coord, offset: Coord): Coord {
    Coord(c.x + offset.x, c.y + offset.y)
  }

  /** Some neighbour of `c` is a symbol. */
  predicate HasSymbolNeighbour(c: Coord, symbols: set<Coord>) {
    exists k :: 0 <= k < |OFFSETS| && Shift(c, OFFSETS[k]) in symbols
  }

  /** The neighbours are exactly the other positions at most one column and
      one row away. */
  lemma NeighbourIsAdjacent(c: Coord, symbols: set<Coord>)
    ensures HasSymbolNeighbour(c, symbols) <==>
              exists s :: s in symbols && s != c && -1 <= s.x - c.x <= 1 && -1 <= s.y - c.y <= 1
  {
    if s :| s in symbols && s != c && -1 <= s.x - c.x <= 1 && -1 <= s.y - c.y <= 1 {
      var d := Coord(s.x - c.x, s.y - c.y);
      var k := if d.y == -1 then d.x + 1 else if d.y == 0 then (if d.x == -1 then 3 else 4) else d.x + 6;
      assert OFFSETS[k] == d;
      assert Shift(c, OFFSETS[k]) == s;
    }
  }

  /** A part is valid when one of its digits has a symbol neighbour. */
  predicate IsValidPart(part: EnginePart, symbols: set<Coord>) {
    exists c :: c in part.digitCoords && HasSymbolNeighbour(c, symbols)
  }

  /** The numbers of the valid parts, added up. */
  function ValidSum(parts: seq<EnginePart>, symbols: set<Coord>): nat {
    if parts == [] then 0
    else
      var last := parts[|parts| - 1];
      ValidSum(parts[..|parts| - 1], symbols) + (if IsValidPart(last, symbols) then last.number else 0)
  }

  /** The numbers of all parts, added up. */
  function NumberSum(parts: seq<EnginePart>): nat {
    if parts == [] then 0 else NumberSum(parts[..|parts| - 1]) + parts[|parts| - 1].number
  }

  /** Every part adds its number at most once, so the sum never exceeds the
      sum of all part numbers; with every part valid it is that sum. */
  lemma {:induction false} ValidSumBounded(parts: seq<EnginePart>, symbols: set<Coord>)
    ensures ValidSum(parts, symbols) <= NumberSum(parts)
    ensures (forall k :: 0 <= k < |parts| ==> IsValidPart(parts[k], symbols)) ==>
              ValidSum(parts, symbols) == NumberSum(parts)
  {
    if parts != [] {
      var init := parts[..|parts| - 1];
      ValidSumBounded(init, symbols);
      assert forall k :: 0 <= k < |init| ==> init[k] == parts[k];
    }
  }

  /** Without symbols no part is valid and the sum is zero. */
  lemma {:induction false} NoSymbolsNoSum(parts: seq<EnginePart>)
    ensures ValidSum(parts, {}) == 0
  {
    if parts != [] {
      NoSymbolsNoSum(parts[..|parts| - 1]);
    }
  }

  /** `get_valid_engine_parts_sum`: for each part, its digits are visited (in
      the set's own order) and each digit's eight neighbours tried; the first
      symbol found adds the part's number and leaves the digit loop. */
  method ValidPartsSum(schematic: Schematic) returns (partSum: nat)
    ensures partSum == ValidSum(schematic.parts, schematic.symbols)
  {
    partSum := 0;
    var parts := schematic.parts;
    for p := 0 to |parts|
      invariant partSum == ValidSum(parts[..p], schematic.symbols)
    {
      var valid := PartIsValid(parts[p], schematic.symbols);
      assert parts[..p + 1][..p] == parts[..p];
      if valid {
        partSum := partSum + parts[p].number;
      }
    }
    assert parts[..|parts|] == parts;
  }

  /** The `'loop_digits` loop for one part: whether it adds its number. */
  method PartIsValid(part: EnginePart, symbols: set<Coord>) returns (valid: bool)
    ensures valid == IsValidPart(part, symbols)
  {
    valid := false;
    var remaining := part.digitCoords;
    label loopDigits:
    while remaining != {}
      invariant remaining <= part.digitCoords
      invariant forall c :: c in part.digitCoords - remaining ==> !HasSymbolNeighbour(c, symbols)
      decreases |remaining|
    {
      var digitCoords :| digitCoords in remaining;
      for k := 0 to |OFFSETS|
        invariant forall j :: 0 <= j < k ==> Shift(digitCoords, OFFSETS[j]) !in symbols
      {
        if Shift(digitCoords, OFFSETS[k]) in symbols {
          valid := true;
          break loopDigits;
        }
      }
      remaining := remaining - {digitCoords};
    }
  }

  /** `riddle_part_one`: the schematic of the text, then its valid-part sum,
      which never exceeds the sum of all part numbers. */
  method RiddlePartOne(text: string) returns (partSum: nat)
    ensures var rows := Text.Split(text, '\n');
            partSum == ValidSum(SchematicParts(rows, |rows|), SchematicSymbols(rows, |rows|))
            && partSum <= NumberSum(SchematicParts(rows, |rows|))
  {
    var schematic := ParseSchematic(text);
    partSum := ValidPartsSum(schematic);
    ValidSumBounded(schematic.parts, schematic.symbols);
  }
}
