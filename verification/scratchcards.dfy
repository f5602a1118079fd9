/** Scratchcards (day4/src/main.rs): a ticket line `Card n: w1 w2 … | p1 p2 …`
    lists winning numbers before the bar and picked numbers after it. Part one
    scores each ticket by its matches; part two lets a ticket with `m` matches
    win one copy of each of the next `m` tickets, copies winning in turn, and
    counts every ticket held once the cascade has run out. */
module Scratchcards {
  import opened Wrappers
  import Text

  /** `u32::MAX + 1`: the numbers on a ticket are read as `u32`. */
  const U32_LIMIT: nat := 0x1_0000_0000

  /** `ScratchTicket`: both number lists are kept as sets. */
  datatype ScratchTicket = ScratchTicket(winners: set<nat>, picks: set<nat>)

  // ---------------------------------------------------------------------------
  // Reading a ticket line

  /** `parse::<u32>()` on every token: `None` as soon as one token is not a
      numeral or does not fit in 32 bits (the `unwrap` panics). */
  function ParseU32s(tokens: seq<string>): Option<seq<nat>> {
    match Text.ParseNats(tokens)
    case None => None
    case Some(ns) => if forall i :: 0 <= i < |ns| ==> ns[i] < U32_LIMIT then Some(ns) else None
  }

  /** One side of the bar: `split(' ')`, empty tokens dropped, each token
      parsed, the numbers collected into a set. */
  function NumberSet(segment: string): Option<set<nat>> {
    match ParseU32s(Text.Words(segment))
    case None => None
    case Some(ns) => Some(set i | 0 <= i < |ns| :: ns[i])
  }

  /** `ScratchTicket::from_string`: the text after the first `':'` (no colon
      panics), cut at `'|'` (no bar panics); the numbers of the first piece
      are the winners and those of the second the picks. Text after a second
      colon or a second bar is ignored. */
  function ParseTicket(line: string): Option<ScratchTicket> {
    var pieces := Text.Split(line, ':');
    if |pieces| < 2 then None
    else
      var halves := Text.Split(pieces[1], '|');
      if |halves| < 2 then None
      else match (NumberSet(halves[0]), NumberSet(halves[1]))
        case (Some(winners), Some(picks)) => Some(ScratchTicket(winners, picks))
        case _ => None
  }

  /** A token list is read exactly when every token is a numeral below
      `2^32`, and then gives those numbers in order. */
  lemma ParseU32sExactly(tokens: seq<string>)
    ensures ParseU32s(tokens).Some? <==> forall i :: 0 <= i < |tokens| ==>
              Text.ParseNat(tokens[i]).Some? && Text.ParseNat(tokens[i]).value < U32_LIMIT
    ensures ParseU32s(tokens).Some? ==>
              |ParseU32s(tokens).value| == |tokens|
              && forall i :: 0 <= i < |tokens| ==> Text.ParseNat(tokens[i]) == Some(ParseU32s(tokens).value[i])
  {
    var ns := Text.ParseNats(tokens);
    if ns.Some? && !(forall i :: 0 <= i < |ns.value| ==> ns.value[i] < U32_LIMIT) {
      var i :| 0 <= i < |ns.value| && ns.value[i] >= U32_LIMIT;
      assert Text.ParseNat(tokens[i]).value >= U32_LIMIT;
    }
  }

  /** Every number a ticket holds fits in 32 bits. */
  lemma TicketNumbersFit(line: string)
    ensures ParseTicket(line).Some? ==>
              (forall x :: x in ParseTicket(line).value.winners ==> x < U32_LIMIT)
              && (forall x :: x in ParseTicket(line).value.picks ==> x < U32_LIMIT)
  {
    var pieces := Text.Split(line, ':');
    if |pieces| >= 2 {
      var halves := Text.Split(pieces[1], '|');
      if |halves| >= 2 {
        ParseU32sExactly(Text.Words(halves[0]));
        ParseU32sExactly(Text.Words(halves[1]));
      }
    }
  }

  /** A ticket line as the puzzle prints it, numbers separated by single
      spaces. */
  function TicketLine(id: nat, winners: seq<nat>, picks: seq<nat>): string
    requires |winners| >= 1 && |picks| >= 1
  {
    "Card " + Text.Decimal(id) + ": " + Text.Join(Text.Numerals(winners), ' ')
    + " | " + Text.Join(Text.Numerals(picks), ' ')
  }

  /** Reading a printed ticket line gives back its numbers, duplicates
      collapsed: the numbers before the bar are the winners, those after it
      the picks. */
  lemma ParseTicketLine(id: nat, winners: seq<nat>, picks: seq<nat>)
    requires |winners| >= 1 && |picks| >= 1
    requires forall i :: 0 <= i < |winners| ==> winners[i] < U32_LIMIT
    requires forall i :: 0 <= i < |picks| ==> picks[i] < U32_LIMIT
    ensures ParseTicket(TicketLine(id, winners, picks))
            == Some(ScratchTicket(set i | 0 <= i < |winners| :: winners[i], set i | 0 <= i < |picks| :: picks[i]))
  {
    var jw, jp := Text.Join(Text.Numerals(winners), ' '), Text.Join(Text.Numerals(picks), ' ');
    var first, second := " " + jw + " ", " " + jp;
    Text.NumeralsAvoid(winners, ':');
    Text.NumeralsAvoid(winners, '|');
    Text.NumeralsAvoid(picks, ':');
    Text.NumeralsAvoid(picks, '|');
    TicketHalves(id, jw, jp, first, second);
    SidesWords(winners);
    SegmentNumbers(first, winners);
    SidesWords(picks);
    SegmentNumbers(second, picks);
  }

  /** The line splits at its colon and its bar into the two padded number
      lists. */
  lemma TicketHalves(id: nat, jw: string, jp: string, first: string, second: string)
    requires first == " " + jw + " " && second == " " + jp
    requires ':' !in jw && ':' !in jp && '|' !in jw && '|' !in jp
    ensures var pieces := Text.Split("Card " + Text.Decimal(id) + ": " + jw + " | " + jp, ':');
            |pieces| >= 2 && Text.Split(pieces[1], '|') == [first, second]
  {
    var head := "Card " + Text.Decimal(id);
    var rest := first + "|" + second;
    assert ':' !in head by {
      assert Text.AllDigits(Text.Decimal(id));
      assert "Card "[0] == 'C' && "Card "[1] == 'a' && "Card "[2] == 'r' && "Card "[3] == 'd' && "Card "[4] == ' ';
    }
    assert "Card " + Text.Decimal(id) + ": " + jw + " | " + jp == head + [':'] + rest;
    assert Text.Split(head + [':'] + rest, ':') == [head, rest] by {
      Text.SplitPrefix(head, rest, ':');
      Text.SplitPiece(rest, ':');
    }
    assert Text.Split(rest, '|') == [first, second] by {
      assert rest == first + ['|'] + second;
      Text.SplitPrefix(first, second, '|');
      Text.SplitPiece(second, '|');
    }
  }

  /** A padded list of numerals reads back as the set of its numbers. */
  lemma SegmentNumbers(segment: string, ns: seq<nat>)
    requires forall i :: 0 <= i < |ns| ==> ns[i] < U32_LIMIT
    requires Text.Words(segment) == Text.Numerals(ns)
    ensures NumberSet(segment) == Some(set i | 0 <= i < |ns| :: ns[i])
  {
    Text.ParseNatsNumerals(ns);
  }

  /** Both sides of the bar hold exactly their numerals. */
  lemma SidesWords(ns: seq<nat>)
    requires |ns| >= 1
    ensures Text.Words(" " + Text.Join(Text.Numerals(ns), ' ') + " ") == Text.Numerals(ns)
    ensures Text.Words(" " + Text.Join(Text.Numerals(ns), ' ')) == Text.Numerals(ns)
  {
    Text.NumeralTokens(ns);
    Text.WordsOfPadded(Text.Numerals(ns));
  }

  /** A line without a colon is refused, as `nth(1).unwrap()` panics on it;
      the empty line left by a trailing newline is one. */
  lemma NoColonRefused(line: string)
    requires ':' !in line
    ensures ParseTicket(line) == None
  {
    Text.SplitPiece(line, ':');
  }

  /** A line without a bar is refused, as indexing `number_parts[1]` panics. */
  lemma NoBarRefused(line: string)
    requires '|' !in line
    ensures ParseTicket(line) == None
  {
    var pieces := Text.Split(line, ':');
    if |pieces| >= 2 {
      Text.SplitAvoids(line, ':', '|');
      Text.SplitPiece(pieces[1], '|');
    }
  }

  // ---------------------------------------------------------------------------
  // Matches and points

  /** `matching_numbers`: how many numbers are both winners and picks. */
  function MatchingNumbers(ticket: ScratchTicket): (r: nat)
    ensures r <= |ticket.winners| && r <= |ticket.picks|
    ensures r == 0 <==> ticket.winners !! ticket.picks
  {
    var both := ticket.winners * ticket.picks;
    SubsetCardinality(both, ticket.winners);
    SubsetCardinality(both, ticket.picks);
    EmptyIntersection(ticket.winners, ticket.picks);
    |both|
  }

  lemma EmptyIntersection(a: set<nat>, b: set<nat>)
    ensures a * b == {} <==> a !! b
  {
    if !(a !! b) {
      var x :| x in a && x in b;
      assert x in a * b;
    }
  }

  lemma {:induction false} SubsetCardinality(a: set<nat>, b: set<nat>)
    requires a <= b
    ensures |a| <= |b|
    decreases |b|
  {
    if a != {} {
      var x :| x in a;
      SubsetCardinality(a - {x}, b - {x});
    }
  }

  /** `2^k`. */
  function Pow2(k: nat): (r: nat)
    ensures r >= 1
  {
    if k == 0 then 1 else 2 * Pow2(k - 1)
  }

  /** `points`: nothing without a match, one point for the first match and
      double for each further one. */
  function Points(ticket: ScratchTicket): (r: nat)
    ensures r == 0 <==> MatchingNumbers(ticket) == 0
  {
    var matches := MatchingNumbers(ticket);
    if matches > 0 then Pow2(matches - 1) else 0
  }

  /** One match scores one point, and every further match doubles the
      score. */
  lemma PointsDoubling(ticket: ScratchTicket, more: ScratchTicket)
    requires MatchingNumbers(more) == MatchingNumbers(ticket) + 1
    ensures MatchingNumbers(ticket) == 0 ==> Points(more) == 1
    ensures MatchingNumbers(ticket) > 0 ==> Points(more) == 2 * Points(ticket)
  {
  }

  /** The points of a list of tickets, added up. */
  function PointTotal(tickets: seq<ScratchTicket>): nat {
    if tickets == [] then 0 else PointTotal(tickets[..|tickets| - 1]) + Points(tickets[|tickets| - 1])
  }

  /** The total is zero exactly when no ticket has a match. */
  lemma {:induction false} PointTotalZero(tickets: seq<ScratchTicket>)
    ensures PointTotal(tickets) == 0 <==> forall i :: 0 <= i < |tickets| ==> MatchingNumbers(tickets[i]) == 0
  {
    if tickets != [] {
      var init := tickets[..|tickets| - 1];
      PointTotalZero(init);
      assert forall i :: 0 <= i < |init| ==> init[i] == tickets[i];
    }
  }

  // ---------------------------------------------------------------------------
  // Reading the whole input

  /** Every line parsed as a ticket; one bad line spoils the lot. */
  function ParseTickets(lines: seq<string>): Option<seq<ScratchTicket>> {
    MapAll(lines, ParseTicket)
  }

  /** The reading loop of both riddles: every `'\n'`-separated line, the
      empty one after a final newline included, becomes a ticket. */
  method ReadTickets(text: string) returns (tickets: Option<seq<ScratchTicket>>)
    ensures tickets == ParseTickets(Text.Split(text, '\n'))
  {
    tickets := CollectAll(Text.Split(text, '\n'), ParseTicket);
  }

  /** `riddle_part_one`: the sum of the tickets' points. */
  method RiddlePartOne(text: string) returns (sum: Option<nat>)
    ensures sum.Some? <==> ParseTickets(Text.Split(text, '\n')).Some?
    ensures sum.Some? ==> sum.value == PointTotal(ParseTickets(Text.Split(text, '\n')).value)
  {
    var tickets := ReadTickets(text);
    if tickets.None? {
      return None;
    }
    var total := SumPoints(tickets.value);
    sum := Some(total);
  }

  /** `ticket_points.iter().sum()`. */
  method SumPoints(tickets: seq<ScratchTicket>) returns (total: nat)
    ensures total == PointTotal(tickets)
  {
    total := 0;
    for k := 0 to |tickets|
      invariant total == PointTotal(tickets[..k])
    {
      assert tickets[..k + 1][..k] == tickets[..k];
      total := total + Points(tickets[k]);
    }
    assert tickets[..|tickets|] == tickets;
  }

  // ---------------------------------------------------------------------------
  // The copy cascade of part two

  /** `min(i + 1 + matches, ticket_count)`: one past the last ticket that
      ticket `i` wins a copy of. */
  function End(tickets: seq<ScratchTicket>, i: nat): (r: nat)
    requires i < |tickets|
    ensures i + 1 <= r <= |tickets|
    ensures r <= i + 1 + MatchingNumbers(tickets[i])
    ensures r == |tickets| || r == i + 1 + MatchingNumbers(tickets[i])
  {
    var e := i + 1 + MatchingNumbers(tickets[i]);
    if e < |tickets| then e else |tickets|
  }

  /** The indices `a, a+1, …, b-1` in increasing order. */
  function Indices(a: nat, b: nat): (r: seq<nat>)
    requires a <= b
    ensures |r| == b - a
    ensures forall k :: 0 <= k < |r| ==> r[k] == a + k
  {
    if a == b then [] else Indices(a, b - 1) + [b - 1]
  }

  /** How many tickets one instance of ticket `i` accounts for: itself and,
      recursively, the copies it wins. */
  ghost function Copies(tickets: seq<ScratchTicket>, i: nat): (r: nat)
    requires i < |tickets|
    ensures r >= 1
    decreases |tickets| - i, 1, 0
  {
    1 + CopiesRange(tickets, i + 1, End(tickets, i))
  }

  /** `Copies` summed over the tickets `a .. b-1`. */
  ghost function CopiesRange(tickets: seq<ScratchTicket>, a: nat, b: nat): (r: nat)
    requires a <= b <= |tickets|
    ensures r >= b - a
    decreases |tickets| - a + 1, 0, b - a
  {
    if a == b then 0 else CopiesRange(tickets, a, b - 1) + Copies(tickets, b - 1)
  }

  /** The number of tickets held once every original and every copy has been
      scratched. */
  ghost function Total(tickets: seq<ScratchTicket>): (r: nat)
    ensures r >= |tickets|
  {
    CopiesRange(tickets, 0, |tickets|)
  }

  /** Without any match no copies are won and every ticket is held once. */
  lemma NoMatchesNoCopies(tickets: seq<ScratchTicket>)
    requires forall i :: 0 <= i < |tickets| ==> MatchingNumbers(tickets[i]) == 0
    ensures Total(tickets) == |tickets|
  {
    NoMatchesRange(tickets, 0, |tickets|);
  }

  lemma {:induction false} NoMatchesRange(tickets: seq<ScratchTicket>, a: nat, b: nat)
    requires a <= b <= |tickets|
    requires forall i :: 0 <= i < |tickets| ==> MatchingNumbers(tickets[i]) == 0
    ensures CopiesRange(tickets, a, b) == b - a
    decreases b - a
  {
    if a < b {
      NoMatchesRange(tickets, a, b - 1);
      assert End(tickets, b - 1) == b;
      assert CopiesRange(tickets, b, b) == 0;
    }
  }

  /** The tickets still to be scratched, each counted with its cascade. */
  ghost function Work(tickets: seq<ScratchTicket>, queue: seq<nat>): nat
    requires forall k :: 0 <= k < |queue| ==> queue[k] < |tickets|
  {
    if queue == [] then 0
    else Work(tickets, queue[..|queue| - 1]) + Copies(tickets, queue[|queue| - 1])
  }

  lemma {:induction false} WorkConcat(tickets: seq<ScratchTicket>, p: seq<nat>, q: seq<nat>)
    requires forall k :: 0 <= k < |p| ==> p[k] < |tickets|
    requires forall k :: 0 <= k < |q| ==> q[k] < |tickets|
    ensures Work(tickets, p + q) == Work(tickets, p) + Work(tickets, q)
  {
    if q == [] {
      assert p + q == p;
    } else {
      var init := q[..|q| - 1];
      WorkConcat(tickets, p, init);
      assert (p + q)[..|p + q| - 1] == p + init;
    }
  }

  lemma {:induction false} WorkIndices(tickets: seq<ScratchTicket>, a: nat, b: nat)
    requires a <= b <= |tickets|
    ensures Work(tickets, Indices(a, b)) == CopiesRange(tickets, a, b)
    decreases b - a
  {
    if a < b {
      var init := Indices(a, b - 1);
      WorkIndices(tickets, a, b - 1);
      assert Indices(a, b) == init + [b - 1];
      assert (init + [b - 1])[..|init|] == init;
    }
  }

  /** The closure `incr_ticket_count`: one more instance of ticket `i`. */
  function Increment(pile: map<nat, nat>, i: nat): (r: map<nat, nat>)
    ensures r.Keys == pile.Keys + {i}
    ensures r[i] == (if i in pile then pile[i] else 0) + 1
    ensures forall k :: k in pile && k != i ==> r[k] == pile[k]
  {
    pile[i := (if i in pile then pile[i] else 0) + 1]
  }

  /** The sum of a map's values, in whatever order its keys come. */
  ghost function MapSum(m: map<nat, nat>): nat
    decreases |m.Keys|
  {
    if m == map[] then 0
    else
      var k :| k in m;
      m[k] + MapSum(m - {k})
  }

  /** Whichever key is taken first, the sum is the same. */
  lemma {:induction false} MapSumRemove(m: map<nat, nat>, k: nat)
    requires k in m
    ensures MapSum(m) == m[k] + MapSum(m - {k})
    decreases |m.Keys|
  {
    var j :| j in m && MapSum(m) == m[j] + MapSum(m - {j});
    if j != k {
      MapSumRemove(m - {j}, k);
      MapSumRemove(m - {k}, j);
      assert m - {j} - {k} == m - {k} - {j};
    }
  }

  /** Incrementing one count adds one to the sum of the pile. */
  lemma IncrementSum(pile: map<nat, nat>, i: nat)
    ensures MapSum(Increment(pile, i)) == MapSum(pile) + 1
  {
    var r := Increment(pile, i);
    MapSumRemove(r, i);
    if i in pile {
      MapSumRemove(pile, i);
      assert r - {i} == pile - {i};
    } else {
      assert r - {i} == pile;
    }
  }

  /** The `for copy_index in i+1..end` loop: every ticket that ticket `i`
      wins a copy of joins the back of the queue. */
  method QueueCopies(tickets: seq<ScratchTicket>, queue: seq<nat>, i: nat) returns (queued: seq<nat>)
    requires i < |tickets|
    ensures queued == queue + Indices(i + 1, End(tickets, i))
  {
    var endIndex := End(tickets, i);
    queued := queue;
    for copyIndex := i + 1 to endIndex
      invariant queued == queue + Indices(i + 1, copyIndex)
    {
      queued := queued + [copyIndex];
    }
  }

  /** Ticket `i` queues exactly the indices `i+1 .. min(i+1+m, n)-1`: each
      one later than `i`, none past the last ticket. */
  lemma QueuedRange(tickets: seq<ScratchTicket>, i: nat)
    requires i < |tickets|
    ensures var queued := Indices(i + 1, End(tickets, i));
            forall k :: 0 <= k < |queued| ==> i < queued[k] < |tickets| && queued[k] <= i + MatchingNumbers(tickets[i])
  {
  }

  /** `riddle_part_two`'s cascade: each original ticket is counted and queues
      the copies it wins; then the queue is drained front to back, each copy
      counted and queuing its own winnings; the answer is the sum of the
      counts. Every original ticket ends up counted at least once, no other
      index is, and the total is the number of tickets the cascade yields. */
  method CountTickets(tickets: seq<ScratchTicket>) returns (pile: map<nat, nat>, total: nat)
    ensures forall i: nat :: i in pile <==> i < |tickets|
    ensures forall i :: i in pile ==> pile[i] >= 1
    ensures total == MapSum(pile)
    ensures total == Total(tickets)
  {
    var queue;
    pile, queue := CountOriginals(tickets);
    pile := DrainQueue(tickets, pile, queue);
    total := SumCounts(pile);
  }

  /** The loop over the original tickets: each is counted once and queues
      the copies it wins. */
  method CountOriginals(tickets: seq<ScratchTicket>) returns (pile: map<nat, nat>, queue: seq<nat>)
    ensures forall i: nat :: i in pile <==> i < |tickets|
    ensures forall i :: i in pile ==> pile[i] == 1
    ensures forall k :: 0 <= k < |queue| ==> queue[k] < |tickets|
    ensures MapSum(pile) + Work(tickets, queue) == Total(tickets)
  {
    pile := map[];
    queue := [];
    for ticketIndex := 0 to |tickets|
      invariant forall i: nat :: i in pile <==> i < ticketIndex
      invariant forall i :: i in pile ==> pile[i] == 1
      invariant forall k :: 0 <= k < |queue| ==> queue[k] < |tickets|
      invariant MapSum(pile) + Work(tickets, queue) == CopiesRange(tickets, 0, ticketIndex)
    {
      CountAndQueue(tickets, pile, queue, ticketIndex);
      pile := Increment(pile, ticketIndex);
      queue := QueueCopies(tickets, queue, ticketIndex);
    }
  }

  /** The `while let Some(..) = pop_front()` loop: each queued copy is
      counted and queues its own winnings, until the queue is empty. The
      counts grow by exactly the work the queue held, and only indices of
      existing tickets are ever counted. */
  method DrainQueue(tickets: seq<ScratchTicket>, pile: map<nat, nat>, queue: seq<nat>) returns (counted: map<nat, nat>)
    requires forall k :: 0 <= k < |queue| ==> queue[k] < |tickets|
    requires forall i: nat :: i < |tickets| ==> i in pile
    ensures counted.Keys == pile.Keys
    ensures forall i :: i in pile ==> counted[i] >= pile[i]
    ensures MapSum(counted) == MapSum(pile) + Work(tickets, queue)
  {
    counted := pile;
    var pending: seq<nat> := queue;
    while pending != []
      invariant counted.Keys == pile.Keys
      invariant forall i :: i in pile ==> counted[i] >= pile[i]
      invariant forall k :: 0 <= k < |pending| ==> pending[k] < |tickets|
      invariant MapSum(counted) + Work(tickets, pending) == MapSum(pile) + Work(tickets, queue)
      decreases Work(tickets, pending)
    {
      var ticketIndex := pending[0];
      PopWork(tickets, pending);
      CountAndQueue(tickets, counted, pending[1..], ticketIndex);
      counted := Increment(counted, ticketIndex);
      pending := QueueCopies(tickets, pending[1..], ticketIndex);
    }
  }

  /** Counting ticket `i` once and queuing its winnings turns the copies it
      accounts for into one count plus queued work. */
  lemma CountAndQueue(tickets: seq<ScratchTicket>, pile: map<nat, nat>, queue: seq<nat>, i: nat)
    requires i < |tickets| && forall k :: 0 <= k < |queue| ==> queue[k] < |tickets|
    ensures var queued := queue + Indices(i + 1, End(tickets, i));
            (forall k :: 0 <= k < |queued| ==> queued[k] < |tickets|)
            && Work(tickets, queued) + 1 == Work(tickets, queue) + Copies(tickets, i)
    ensures MapSum(Increment(pile, i)) == MapSum(pile) + 1
  {
    IncrementSum(pile, i);
    WorkConcat(tickets, queue, Indices(i + 1, End(tickets, i)));
    WorkIndices(tickets, i + 1, End(tickets, i));
  }

  /** Taking the first ticket off the queue removes its cascade from the
      queue's work. */
  lemma PopWork(tickets: seq<ScratchTicket>, queue: seq<nat>)
    requires queue != [] && forall k :: 0 <= k < |queue| ==> queue[k] < |tickets|
    ensures Work(tickets, queue) == Copies(tickets, queue[0]) + Work(tickets, queue[1..])
  {
    assert queue == [queue[0]] + queue[1..];
    WorkConcat(tickets, [queue[0]], queue[1..]);
    assert [queue[0]][..0] == [];
  }

  /** `ticket_pile.iter().map(|(k, v)| v).sum()`, visiting the keys in an
      arbitrary order. */
  method SumCounts(pile: map<nat, nat>) returns (total: nat)
    ensures total == MapSum(pile)
  {
    total := 0;
    var rest := pile;
    while rest != map[]
      invariant total + MapSum(rest) == MapSum(pile)
      decreases |rest.Keys|
    {
      var k :| k in rest;
      MapSumRemove(rest, k);
      total := total + rest[k];
      rest := rest - {k};
    }
  }

  /** `riddle_part_two`: read the tickets, run the cascade, report the
      number of tickets held. */
  method RiddlePartTwo(text: string) returns (count: Option<nat>)
    ensures count.Some? <==> ParseTickets(Text.Split(text, '\n')).Some?
    ensures count.Some? ==> count.value == Total(ParseTickets(Text.Split(text, '\n')).value)
    ensures count.Some? ==> count.value >= |Text.Split(text, '\n')|
  {
    var tickets := ReadTickets(text);
    if tickets.None? {
      return None;
    }
    var pile, total := CountTickets(tickets.value);
    count := Some(total);
  }
}
