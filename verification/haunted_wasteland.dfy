/** Haunted wasteland (day8/src/main.rs): the first line is a list of
    left/right instructions, and every line from the third on names a node
    and its left and right successors. Part one walks from `AAA`, following
    the instructions cyclically, and counts the moves until `ZZZ`. */
module HauntedWasteland {
  import opened Wrappers
  import Text

  // ---------------------------------------------------------------------------
  // Instructions

  /** The instruction a character stands for: `'L'` picks the left successor
      (0), every other character the right one (1). */
  function Instruction(c: char): nat {
    if c == 'L' then 0 else 1
  }

  /** The instruction line, decoded character by character. */
  function Instructions(line: string): (ds: seq<nat>)
    ensures |ds| == |line|
    ensures forall i :: 0 <= i < |ds| ==> ds[i] <= 1 && (ds[i] == 0 <==> line[i] == 'L')
  {
    seq(|line|, i requires 0 <= i < |line| => Instruction(line[i]))
  }

  // ---------------------------------------------------------------------------
  // The node network

  /** Every node's left and right successor. */
  type Network = map<string, (string, string)>

  /** `[left, right][d]`. */
  function Follow(next: (string, string), d: nat): string {
    if d == 0 then next.0 else next.1
  }

  /** One `AAA = (BBB, CCC)` line: the trimmed text before the first `'='`
      is the node; of the text after it, the first `','`-separated piece,
      trimmed and without its first character, is the left successor, and
      the second piece, trimmed and without its last character, the right
      one. A line without `'='` or `','`, or with a blank piece, panics. */
  function ParseNode(line: string): Option<(string, (string, string))> {
    var parts := Text.Split(line, '=');
    if |parts| < 2 then None
    else
      var pieces := Text.Split(parts[1], ',');
      var left := Text.Trim(pieces[0]);
      if |left| == 0 || |pieces| < 2 then None
      else
        var right := Text.Trim(pieces[1]);
        if |right| == 0 then None
        else Some((Text.Trim(parts[0]), (left[1..], right[..|right| - 1])))
  }

  /** The node lines: every line but the first two. */
  function NodeLines(lines: seq<string>): seq<string> {
    if |lines| < 2 then [] else lines[2..]
  }

  /** The network the node lines describe, inserted in order: a later line
      for the same node replaces an earlier one. */
  function NetworkOf(lines: seq<string>): Option<Network> {
    match MapAll(NodeLines(lines), ParseNode)
    case Some(entries) => Some(InsertAll(entries))
    case None => None
  }

  /** The loop of `riddle_part_one` that inserts every node line into the
      map. */
  method BuildNetwork(lines: seq<string>) returns (network: Option<Network>)
    ensures network == NetworkOf(lines)
  {
    var nodeLines := NodeLines(lines);
    var nodes: Network := map[];
    ghost var entries: seq<(string, (string, string))> := [];
    for k := 0 to |nodeLines|
      invariant MapAll(nodeLines[..k], ParseNode) == Some(entries)
      invariant nodes == InsertAll(entries)
    {
      var node := ParseNode(nodeLines[k]);
      if node.None? {
        return None;
      }
      var (name, next) := node.value;
      MapAllPrefix(nodeLines, k, ParseNode, entries, node.value);
      InsertAllSnoc(entries, name, next);
      nodes := nodes[name := next];
      entries := entries + [node.value];
    }
    assert nodeLines[..|nodeLines|] == nodeLines;
    network := Some(nodes);
  }

  /** A node name as it can be written in a node line: not blank at either
      end, and free of the `'='`, `','` and line separators. */
  predicate NodeName(name: string) {
    |name| > 0 && '=' !in name && ',' !in name && '\n' !in name
    && !Text.IsWhitespace(name[0]) && !Text.IsWhitespace(name[|name| - 1])
  }

  /** A node and its successors written as `KEY = (LEFT, RIGHT)`. */
  function NodeText(name: string, left: string, right: string): string {
    name + " = (" + left + ", " + right + ")"
  }

  /** A node line written by `NodeText` is read back. */
  lemma ParseNodeText(name: string, left: string, right: string)
    requires NodeName(name) && NodeName(left) && NodeName(right)
    ensures ParseNode(NodeText(name, left, right)) == Some((name, (left, right)))
  {
    NodeTextHalves(name, left, right);
    SuccessorPieces(left, right);
    SuccessorTrims(left, right);
    Text.TrimPadded(name);
  }

  /** A node line splits on `'='` into the name and the successors. */
  lemma NodeTextHalves(name: string, left: string, right: string)
    requires NodeName(name) && NodeName(left) && NodeName(right)
    ensures Text.Split(NodeText(name, left, right), '=') == [name + " ", " (" + left + ", " + right + ")"]
  {
    var tail := " (" + left + ", " + right + ")";
    assert NodeText(name, left, right) == (name + " ") + ['='] + tail;
    Text.SplitPair(name + " ", tail, '=');
  }

  /** The successors split on `','` into the left and the right one. */
  lemma SuccessorPieces(left: string, right: string)
    requires NodeName(left) && NodeName(right)
    ensures Text.Split(" (" + left + ", " + right + ")", ',') == [" (" + left, " " + right + ")"]
  {
    assert " (" + left + ", " + right + ")" == (" (" + left) + [','] + (" " + right + ")");
    Text.SplitPair(" (" + left, " " + right + ")", ',');
  }

  /** Trimmed, the pieces keep their parentheses and nothing else. */
  lemma SuccessorTrims(left: string, right: string)
    requires NodeName(left) && NodeName(right)
    ensures Text.Trim(" (" + left) == "(" + left
    ensures Text.Trim(" " + right + ")") == right + ")"
  {
    TrimOpen(left);
    TrimClose(right);
  }

  lemma TrimOpen(left: string)
    requires NodeName(left)
    ensures Text.Trim(" (" + left) == "(" + left
  {
    var open := "(" + left;
    assert " (" + left == " " + open;
    assert open[|open| - 1] == left[|left| - 1];
    Text.TrimPadded(open);
  }

  lemma TrimClose(right: string)
    requires NodeName(right)
    ensures Text.Trim(" " + right + ")") == right + ")"
  {
    var close := right + ")";
    assert " " + right + ")" == " " + close;
    assert close[0] == right[0];
    Text.TrimPadded(close);
  }

  /** Node entries, one line each. */
  function NodeTexts(nodes: seq<(string, (string, string))>): (r: seq<string>)
    ensures |r| == |nodes|
    ensures forall i :: 0 <= i < |nodes| ==> r[i] == NodeText(nodes[i].0, nodes[i].1.0, nodes[i].1.1)
  {
    seq(|nodes|, i requires 0 <= i < |nodes| => NodeText(nodes[i].0, nodes[i].1.0, nodes[i].1.1))
  }

  /** Node entries whose names can all be written. */
  predicate Writable(nodes: seq<(string, (string, string))>) {
    forall i :: 0 <= i < |nodes| ==> NodeName(nodes[i].0) && NodeName(nodes[i].1.0) && NodeName(nodes[i].1.1)
  }

  /** A whole puzzle input: the instruction line, a blank line, and one line
      per node. */
  function WastelandText(instructionLine: string, nodes: seq<(string, (string, string))>): string {
    Text.Join([instructionLine, ""] + NodeTexts(nodes), '\n')
  }

  /** A node line holds no line break. */
  lemma NodeTextOneLine(entry: (string, (string, string)))
    requires NodeName(entry.0) && NodeName(entry.1.0) && NodeName(entry.1.1)
    ensures '\n' !in NodeText(entry.0, entry.1.0, entry.1.1)
  {
  }

  /** Every node line is read back and holds no line break. */
  lemma NodeTextsParse(nodes: seq<(string, (string, string))>)
    requires Writable(nodes)
    ensures forall i :: 0 <= i < |nodes| ==> '\n' !in NodeTexts(nodes)[i]
    ensures MapAll(NodeTexts(nodes), ParseNode) == Some(nodes)
  {
    var texts := NodeTexts(nodes);
    forall i | 0 <= i < |nodes|
      ensures '\n' !in texts[i] && ParseNode(texts[i]) == Some(nodes[i])
    {
      NodeTextOneLine(nodes[i]);
      ParseNodeText(nodes[i].0, nodes[i].1.0, nodes[i].1.1);
    }
    MapAllEach(texts, ParseNode, nodes);
  }

  /** The lines of a written puzzle input. */
  lemma WastelandLines(instructionLine: string, nodes: seq<(string, (string, string))>)
    requires '\n' !in instructionLine
    requires forall i :: 0 <= i < |nodes| ==> '\n' !in NodeTexts(nodes)[i]
    ensures Text.Split(WastelandText(instructionLine, nodes), '\n') == [instructionLine, ""] + NodeTexts(nodes)
  {
    var lines := [instructionLine, ""] + NodeTexts(nodes);
    forall i | 0 <= i < |lines|
      ensures '\n' !in lines[i]
    {
      if i >= 2 { assert lines[i] == NodeTexts(nodes)[i - 2]; }
    }
    Text.SplitJoin(lines, '\n');
  }

  /** A puzzle input written by `WastelandText` is read back: its first line
      is the instruction line and its node lines make up the network of the
      entries, a later entry for a node replacing an earlier one. */
  lemma ReadWastelandText(instructionLine: string, nodes: seq<(string, (string, string))>)
    requires '\n' !in instructionLine && Writable(nodes)
    ensures Text.Split(WastelandText(instructionLine, nodes), '\n')[0] == instructionLine
    ensures NetworkOf(Text.Split(WastelandText(instructionLine, nodes), '\n')) == Some(InsertAll(nodes))
  {
    var lines := [instructionLine, ""] + NodeTexts(nodes);
    NodeTextsParse(nodes);
    WastelandLines(instructionLine, nodes);
    assert NodeLines(lines) == NodeTexts(nodes);
  }

  /** An input that ends in a line break has an empty last line, which has
      no `'='`: building the network panics before the walk starts. */
  lemma TrailingNewlinePanics(text: string)
    requires |Text.Split(text, '\n')| >= 2
    ensures NetworkOf(Text.Split(text + "\n", '\n')).None?
  {
    var lines := Text.Split(text + "\n", '\n');
    Text.SplitTrailing(text, '\n');
    var nodeLines := NodeLines(lines);
    assert nodeLines[|nodeLines| - 1] == "";
    assert ParseNode("") == None;
  }

  // ---------------------------------------------------------------------------
  // The walk

  const Start := "AAA"
  const Goal := "ZZZ"

  /** Where the walk stands after `m` moves, the `n`-th move following
      instruction `(n - 1) mod |instructions|`; `None` once a move has no
      instruction to follow or leaves from a node the network lacks. */
  function PositionAfter(instructions: seq<nat>, network: Network, m: nat): Option<string> {
    if m == 0 then Some(Start)
    else
      match PositionAfter(instructions, network, m - 1)
      case None => None
      case Some(pos) =>
        if |instructions| == 0 || pos !in network then None
        else Some(Follow(network[pos], instructions[(m - 1) % |instructions|]))
  }

  /** The first `n` positions exist and none of them is the goal. */
  predicate Wandering(instructions: seq<nat>, network: Network, n: nat) {
    forall m :: 0 <= m < n ==> PositionAfter(instructions, network, m).Some?
                               && PositionAfter(instructions, network, m) != Some(Goal)
  }

  /** How a walk ends: at the goal after `steps` moves, by a panic on the
      move after `steps` moves, or still wandering when the fuel is spent. */
  datatype WalkResult = Arrived(steps: nat) | Stuck(steps: nat) | OutOfFuel

  /** What a walk of at most `fuel` moves ends in. */
  predicate Describes(instructions: seq<nat>, network: Network, fuel: nat, r: WalkResult) {
    match r
    case Arrived(steps) =>
      steps <= fuel && Wandering(instructions, network, steps)
      && PositionAfter(instructions, network, steps) == Some(Goal)
    case Stuck(steps) =>
      steps < fuel && Wandering(instructions, network, steps + 1)
      && PositionAfter(instructions, network, steps + 1).None?
    case OutOfFuel =>
      Wandering(instructions, network, fuel + 1)
  }

  /** The walk loop of `riddle_part_one`, cut off after `fuel` moves: it
      checks for the goal before every move, and keeps the instruction
      index as a counter that wraps around. */
  method Walk(instructions: seq<nat>, network: Network, fuel: nat) returns (r: WalkResult)
    ensures Describes(instructions, network, fuel, r)
  {
    var curPos := Start;
    var stepCount := 0;
    var curStepInInstructions := 0;
    while true
      invariant stepCount <= fuel
      invariant PositionAfter(instructions, network, stepCount) == Some(curPos)
      invariant Wandering(instructions, network, stepCount)
      invariant curStepInInstructions == if |instructions| == 0 then 0 else stepCount % |instructions|
      decreases fuel - stepCount
    {
      if curPos == Goal {
        return Arrived(stepCount);
      }
      assert Wandering(instructions, network, stepCount + 1);
      if stepCount == fuel {
        return OutOfFuel;
      }
      if |instructions| == 0 || curPos !in network {
        return Stuck(stepCount);
      }
      var pathIndex := instructions[curStepInInstructions];
      curStepInInstructions := (curStepInInstructions + 1) % |instructions|;
      ModNext(stepCount, |instructions|);
      curPos := Follow(network[curPos], pathIndex);
      stepCount := stepCount + 1;
    }
  }

  /** Advancing a counter modulo `n` keeps it equal to the number of
      advances modulo `n`. */
  lemma ModNext(s: nat, n: nat)
    requires n > 0
    ensures (s % n + 1) % n == (s + 1) % n
  {
    var q, r := s / n, s % n;
    assert s == q * n + r;
    if r + 1 < n {
      ModUnique(r + 1, n, 0, r + 1);
      ModUnique(s + 1, n, q, r + 1);
    } else {
      assert (q + 1) * n == q * n + n;
      ModUnique(r + 1, n, 1, 0);
      ModUnique(s + 1, n, q + 1, 0);
    }
  }

  /** The remainder is the `r` of any `a == q * n + r` with `0 <= r < n`. */
  lemma ModUnique(a: int, n: int, q: int, r: int)
    requires n > 0 && 0 <= r < n && a == q * n + r
    ensures a % n == r
  {
    var q', r' := a / n, a % n;
    assert q' * n + r' == a;
    if q' > q {
      MulAtLeast(q' - q, n);
      MulDistributes(q', q, n);
    } else if q' < q {
      MulAtLeast(q - q', n);
      MulDistributes(q, q', n);
    }
  }

  lemma MulAtLeast(d: int, n: int)
    requires d >= 1 && n >= 0
    ensures d * n >= n
  {
  }

  lemma MulDistributes(x: int, y: int, n: int)
    ensures (x - y) * n == x * n - y * n
  {
  }

  /** `riddle_part_one`: decode the instructions, build the network, walk.
      `None` when a node line panics. */
  method RiddlePartOne(text: string, fuel: nat) returns (r: Option<WalkResult>)
    ensures r.None? <==> NetworkOf(Text.Split(text, '\n')).None?
    ensures r.Some? ==> Describes(Instructions(Text.Split(text, '\n')[0]),
                                  NetworkOf(Text.Split(text, '\n')).value, fuel, r.value)
  {
    var lines := Text.Split(text, '\n');
    var leftRightList := Instructions(lines[0]);
    var network := BuildNetwork(lines);
    if network.None? {
      return None;
    }
    var walk := Walk(leftRightList, network.value, fuel);
    r := Some(walk);
  }

  // ---------------------------------------------------------------------------
  // Properties of the walk

  /** A walk's outcome is determined: for any fuel, at most one result
      fits. */
  lemma DescribesUnique(instructions: seq<nat>, network: Network, fuel: nat, r1: WalkResult, r2: WalkResult)
    requires Describes(instructions, network, fuel, r1) && Describes(instructions, network, fuel, r2)
    ensures r1 == r2
  {
  }

  /** Once the walk stands on the same node at two moves a whole number of
      instruction rounds apart, it repeats itself from there on. */
  lemma {:induction false} Repeats(instructions: seq<nat>, network: Network, i: nat, j: nat, rounds: nat, k: nat)
    requires |instructions| > 0 && j == i + rounds * |instructions|
    requires PositionAfter(instructions, network, i) == PositionAfter(instructions, network, j)
    ensures PositionAfter(instructions, network, i + k) == PositionAfter(instructions, network, j + k)
  {
    if k > 0 {
      Repeats(instructions, network, i, j, rounds, k - 1);
      ModShift(i + k - 1, rounds, |instructions|);
      assert (j + k - 1) % |instructions| == (i + k - 1) % |instructions|;
    }
  }

  /** Whole rounds do not change a position in the instruction list. */
  lemma ModShift(a: nat, rounds: nat, n: nat)
    requires n > 0
    ensures (a + rounds * n) % n == a % n
  {
    assert a == (a / n) * n + a % n;
    assert (a / n + rounds) * n == (a / n) * n + rounds * n;
    ModUnique(a + rounds * n, n, a / n + rounds, a % n);
  }

  /** Why the walk needs a fuel bound: once it comes back to a node a whole
      number of instruction rounds later without having reached `ZZZ`, it
      never reaches it, and the loop of `riddle_part_one` runs forever. */
  lemma {:induction false} NeverArrives(instructions: seq<nat>, network: Network, i: nat, rounds: nat, m: nat)
    requires |instructions| > 0 && rounds > 0
    requires Wandering(instructions, network, i + rounds * |instructions|)
    requires PositionAfter(instructions, network, i)
          == PositionAfter(instructions, network, i + rounds * |instructions|)
    ensures PositionAfter(instructions, network, m).Some?
    ensures PositionAfter(instructions, network, m) != Some(Goal)
    decreases m
  {
    var period := rounds * |instructions|;
    MulAtLeast(rounds, |instructions|);
    if m >= i + period {
      Repeats(instructions, network, i, i + period, rounds, m - i - period);
      NeverArrives(instructions, network, i, rounds, m - period);
    }
  }

  // ---------------------------------------------------------------------------
  // The puzzle's second example

  /** `AAA = (BBB, BBB)`, `BBB = (AAA, ZZZ)`, `ZZZ = (ZZZ, ZZZ)`. */
  function SampleNodes(): seq<(string, (string, string))> {
    [("AAA", ("BBB", "BBB")), ("BBB", ("AAA", "ZZZ")), ("ZZZ", ("ZZZ", "ZZZ"))]
  }

  /** The example input, with the instructions `LLR`, is read back as these
      instructions and nodes. */
  lemma SampleInput()
    ensures Instructions(Text.Split(WastelandText("LLR", SampleNodes()), '\n')[0]) == [0, 0, 1]
    ensures NetworkOf(Text.Split(WastelandText("LLR", SampleNodes()), '\n')) == Some(InsertAll(SampleNodes()))
  {
    var nodes := SampleNodes();
    assert Writable(nodes) by {
      assert NodeName("AAA") && NodeName("BBB") && NodeName("ZZZ");
    }
    ReadWastelandText("LLR", nodes);
    assert Instructions("LLR") == [0, 0, 1];
  }

  /** With enough fuel, the example walk reaches `ZZZ` in six moves:
      `AAA`, `BBB`, `AAA`, `BBB`, `AAA`, `BBB`, `ZZZ`. */
  lemma SampleSixSteps(fuel: nat, r: WalkResult)
    requires fuel >= 6 && Describes([0, 0, 1], InsertAll(SampleNodes()), fuel, r)
    ensures r == Arrived(6)
  {
    var instructions, network := [0, 0, 1], InsertAll(SampleNodes());
    var nodes := SampleNodes();
    InsertAllSnoc([], nodes[0].0, nodes[0].1);
    assert [] + [nodes[0]] == nodes[..1];
    InsertAllSnoc(nodes[..1], nodes[1].0, nodes[1].1);
    assert nodes[..1] + [nodes[1]] == nodes[..2];
    InsertAllSnoc(nodes[..2], nodes[2].0, nodes[2].1);
    assert nodes[..2] + [nodes[2]] == nodes;
    assert network == map["AAA" := ("BBB", "BBB"), "BBB" := ("AAA", "ZZZ"), "ZZZ" := ("ZZZ", "ZZZ")];
    assert PositionAfter(instructions, network, 1) == Some("BBB");
    assert PositionAfter(instructions, network, 2) == Some("AAA");
    assert PositionAfter(instructions, network, 3) == Some("BBB");
    assert PositionAfter(instructions, network, 4) == Some("AAA");
    assert PositionAfter(instructions, network, 5) == Some("BBB");
    assert PositionAfter(instructions, network, 6) == Some("ZZZ");
    assert Describes(instructions, network, fuel, Arrived(6));
    DescribesUnique(instructions, network, fuel, r, Arrived(6));
  }
}
