/** Camel Cards with jokers (day7/src/main.rs): hands of cards are
    classified by how many equal cards they hold, a joker counting towards
    whichever card helps most, ordered by type and then card by card, and
    the winnings are each bid times the hand's rank. */
module CamelCards {
  import opened Wrappers
  import Text

  // ---------------------------------------------------------------------------
  // Cards

  /** `Card`; `J` is the joker (`Jet`), weaker than every other card. */
  datatype Card = Ace | King | Queen | Ten | Nine | Eight | Seven | Six | Five | Four | Three | Two | Jet

  /** The enum discriminant, which the derived `Ord` compares. */
  function Strength(c: Card): (s: int)
    ensures -1 <= s <= 12
    ensures s == -1 <==> c == Jet
  {
    match c
    case Ace => 12
    case King => 11
    case Queen => 10
    case Ten => 8
    case Nine => 7
    case Eight => 6
    case Seven => 5
    case Six => 4
    case Five => 3
    case Four => 2
    case Three => 1
    case Two => 0
    case Jet => -1
  }

  /** Distinct cards have distinct strengths, so comparing strengths is a
      total order on cards. */
  lemma StrengthInjective(a: Card, b: Card)
    ensures Strength(a) == Strength(b) <==> a == b
  {
  }

  /** `Card::from(char)`: the thirteen card letters; anything else panics. */
  function ParseCard(ch: char): Option<Card> {
    match ch
    case 'A' => Some(Ace)
    case 'K' => Some(King)
    case 'Q' => Some(Queen)
    case 'J' => Some(Jet)
    case 'T' => Some(Ten)
    case '9' => Some(Nine)
    case '8' => Some(Eight)
    case '7' => Some(Seven)
    case '6' => Some(Six)
    case '5' => Some(Five)
    case '4' => Some(Four)
    case '3' => Some(Three)
    case '2' => Some(Two)
    case _ => None
  }

  /** The letter a card is written with. */
  function CardChar(c: Card): char {
    match c
    case Ace => 'A'
    case King => 'K'
    case Queen => 'Q'
    case Jet => 'J'
    case Ten => 'T'
    case Nine => '9'
    case Eight => '8'
    case Seven => '7'
    case Six => '6'
    case Five => '5'
    case Four => '4'
    case Three => '3'
    case Two => '2'
  }

  /** Exactly the thirteen card letters are accepted, and only `J` is the
      joker. */
  lemma ParseCardAccepts(ch: char)
    ensures ParseCard(ch).Some? <==> ch in "AKQJT98765432"
    ensures ParseCard(ch) == Some(Jet) <==> ch == 'J'
  {
  }

  /** Reading a card letter and writing the card back are inverse. */
  lemma CardCharRoundTrip(c: Card, ch: char)
    ensures ParseCard(CardChar(c)) == Some(c)
    ensures ParseCard(ch).Some? ==> CardChar(ParseCard(ch).value) == ch
  {
  }

  /** The cards of a hand's text, or nothing when a letter is not a card. */
  function ParseCards(raw: string): (r: Option<seq<Card>>)
    ensures r.Some? <==> forall i :: 0 <= i < |raw| ==> ParseCard(raw[i]).Some?
    ensures r.Some? ==> (|r.value| == |raw|
              && forall i :: 0 <= i < |raw| ==> ParseCard(raw[i]) == Some(r.value[i]))
  {
    if raw == [] then Some([])
    else
      var init, last := ParseCards(raw[..|raw| - 1]), ParseCard(raw[|raw| - 1]);
      if init.Some? && last.Some? then Some(init.value + [last.value]) else None
  }

  // ---------------------------------------------------------------------------
  // Hands

  /** `CardHand`: the count of every card present, the hand's text and its
      bid. */
  datatype CardHand = CardHand(cards: map<Card, nat>, raw: string, bid: nat)

  /** The count map the fold in `CardHand::from` builds. */
  function CountMap(cs: seq<Card>): map<Card, nat> {
    if cs == [] then map[]
    else
      var m := CountMap(cs[..|cs| - 1]);
      var last := cs[|cs| - 1];
      m[last := (if last in m then m[last] else 0) + 1]
  }

  /** One more card adds one to its own count and leaves the others. */
  lemma CountMapSnoc(cs: seq<Card>, c: Card)
    ensures CountMap(cs + [c]) == CountMap(cs)[c := (if c in CountMap(cs) then CountMap(cs)[c] else 0) + 1]
  {
    var t := cs + [c];
    assert t[..|t| - 1] == cs && t[|t| - 1] == c;
  }

  /** The count map holds exactly the cards of the hand, each with the
      number of times it occurs; so the counts add up to the number of
      cards, the size of the hand's multiset. */
  lemma {:induction false} CountMapCounts(cs: seq<Card>)
    ensures forall c :: c in CountMap(cs) <==> c in cs
    ensures forall c :: (if c in CountMap(cs) then CountMap(cs)[c] else 0) == multiset(cs)[c]
    ensures forall c :: c in CountMap(cs) ==> CountMap(cs)[c] >= 1
    ensures |multiset(cs)| == |cs|
  {
    if cs != [] {
      var init, last := cs[..|cs| - 1], cs[|cs| - 1];
      assert cs == init + [last];
      CountMapCounts(init);
    }
  }

  /** `CardHand::from`: the first space-separated field is the hand, the
      second its bid; a letter that is not a card, a missing second field or
      a bid that is not a number panics. */
  function ParseHand(line: string): (h: Option<CardHand>)
    ensures h.Some? <==>
              var fields := Text.Split(line, ' ');
              ParseCards(fields[0]).Some? && |fields| >= 2 && Text.ParseNat(fields[1]).Some?
    ensures h.Some? ==> (
              var fields := Text.Split(line, ' ');
              && h.value.raw == fields[0]
              && h.value.bid == Text.ParseNat(fields[1]).value
              && h.value.cards == CountMap(ParseCards(fields[0]).value))
  {
    var fields := Text.Split(line, ' ');
    match ParseCards(fields[0])
    case None => None
    case Some(cs) =>
      if |fields| < 2 then None
      else match Text.ParseNat(fields[1])
        case None => None
        case Some(bid) => Some(CardHand(CountMap(cs), fields[0], bid))
  }

  /** A hand as `CardHand::from` builds it: its text is made of card letters
      and its count map counts them. */
  predicate ValidHand(h: CardHand) {
    ParseCards(h.raw).Some? && h.cards == CountMap(ParseCards(h.raw).value)
  }

  /** Every hand `CardHand::from` returns is valid. */
  lemma ParsedHandValid(line: string)
    requires ParseHand(line).Some?
    ensures ValidHand(ParseHand(line).value)
  {
  }

  /** `CardHand::from` as written: the count map is filled in place, one
      card at a time. */
  method HandFromLine(line: string) returns (hand: Option<CardHand>)
    ensures hand == ParseHand(line)
  {
    var fields := Text.Split(line, ' ');
    var first := fields[0];
    var counts: map<Card, nat> := map[];
    for i := 0 to |first|
      invariant ParseCards(first[..i]).Some?
      invariant counts == CountMap(ParseCards(first[..i]).value)
    {
      assert first[..i + 1][..i] == first[..i];
      match ParseCard(first[i])
      case None =>
        assert ParseCards(first).None? by {
          assert !ParseCard(first[i]).Some?;
        }
        return None;
      case Some(card) =>
        assert ParseCards(first[..i + 1]).value == ParseCards(first[..i]).value + [card];
        CountMapSnoc(ParseCards(first[..i]).value, card);
        counts := counts[card := (if card in counts then counts[card] else 0) + 1];
    }
    assert first[..|first|] == first;
    assert counts == CountMap(ParseCards(first).value);
    if |fields| < 2 {
      return None;
    }
    match Text.ParseNat(fields[1])
    case None =>
      return None;
    case Some(bid) =>
      hand := Some(CardHand(counts, first, bid));
  }

  // ---------------------------------------------------------------------------
  // Hand types

  /** `CardHandType`, strongest first. */
  datatype HandType = FiveOfKind | FourOfKind | FullHouse | ThreeOfKind | TwoPair | OnePair | HighCard

  /** The enum discriminant, which the derived `Ord` compares. */
  function TypeRank(t: HandType): (r: int)
    ensures 0 <= r <= 6
  {
    match t
    case FiveOfKind => 6
    case FourOfKind => 5
    case FullHouse => 4
    case ThreeOfKind => 3
    case TwoPair => 2
    case OnePair => 1
    case HighCard => 0
  }

  /** `cards.get(&Card::Jet).unwrap_or(&0)`. */
  function JokerCount(counts: map<Card, nat>): nat {
    if Jet in counts then counts[Jet] else 0
  }

  /** The test `find_by_count` applies to one entry: its occurrences (none
      for the joker itself) plus the jokers make exactly `count`. */
  predicate Scores(counts: map<Card, nat>, card: Card, count: nat) {
    card in counts
    && (if card == Jet then counts[card] - JokerCount(counts) else counts[card]) + JokerCount(counts) == count
  }

  /** A fixed order in which the entries of the count map are visited. */
  function AllCards(): seq<Card> {
    [Ace, King, Queen, Jet, Ten, Nine, Eight, Seven, Six, Five, Four, Three, Two]
  }

  lemma AllCardsComplete(c: Card)
    ensures exists i :: 0 <= i < |AllCards()| && AllCards()[i] == c
  {
    match c
    case Ace => assert AllCards()[0] == c;
    case King => assert AllCards()[1] == c;
    case Queen => assert AllCards()[2] == c;
    case Jet => assert AllCards()[3] == c;
    case Ten => assert AllCards()[4] == c;
    case Nine => assert AllCards()[5] == c;
    case Eight => assert AllCards()[6] == c;
    case Seven => assert AllCards()[7] == c;
    case Six => assert AllCards()[8] == c;
    case Five => assert AllCards()[9] == c;
    case Four => assert AllCards()[10] == c;
    case Three => assert AllCards()[11] == c;
    case Two => assert AllCards()[12] == c;
  }

  function FindIn(order: seq<Card>, counts: map<Card, nat>, count: nat): (r: Option<Card>)
    ensures r.Some? <==> exists i :: 0 <= i < |order| && Scores(counts, order[i], count)
    ensures r.Some? ==> Scores(counts, r.value, count)
  {
    if order == [] then None
    else if Scores(counts, order[0], count) then Some(order[0])
    else
      var r := FindIn(order[1..], counts, count);
      assert forall i :: 1 <= i < |order| ==> order[i] == order[1..][i - 1];
      r
  }

  /** `find_by_count`: some card whose entry scores `count`, or nothing
      when none does. The source takes the first in the hash map's
      iteration order; this model visits the cards in a fixed order, and
      `SecondPairChoiceFree` shows that `GetType` does not depend on it. */
  function FindByCount(counts: map<Card, nat>, count: nat): (r: Option<Card>)
    ensures r.Some? <==> exists card :: Scores(counts, card, count)
    ensures r.Some? ==> Scores(counts, r.value, count)
  {
    var r := FindIn(AllCards(), counts, count);
    assert forall card :: Scores(counts, card, count) ==> exists i :: 0 <= i < |AllCards()| && AllCards()[i] == card
      by {
        forall card | Scores(counts, card, count)
          ensures exists i :: 0 <= i < |AllCards()| && AllCards()[i] == card
        {
          AllCardsComplete(card);
        }
      }
    r
  }

  /** The second-pair search in `get_type`: another card whose raw count is
      two more than the jokers. */
  predicate HasSecondPair(counts: map<Card, nat>, card: Card) {
    exists other :: other in counts && counts[other] == 2 + JokerCount(counts) && other != card
  }

  /** Whichever card `find_by_count(2)` returns, the second-pair search
      gives the same answer: with jokers no card scoring two can also have
      two more than the jokers, and without jokers the cards scoring two are
      exactly the pairs. */
  lemma SecondPairChoiceFree(counts: map<Card, nat>, x: Card, y: Card)
    requires Scores(counts, x, 2) && Scores(counts, y, 2)
    ensures HasSecondPair(counts, x) <==> HasSecondPair(counts, y)
  {
    if HasSecondPair(counts, x) {
      SecondPairCarries(counts, x, y);
    }
    if HasSecondPair(counts, y) {
      SecondPairCarries(counts, y, x);
    }
  }

  lemma SecondPairCarries(counts: map<Card, nat>, x: Card, y: Card)
    requires Scores(counts, x, 2) && Scores(counts, y, 2)
    requires HasSecondPair(counts, x)
    ensures HasSecondPair(counts, y)
  {
    var jc := JokerCount(counts);
    var other :| other in counts && counts[other] == 2 + jc && other != x;
    if other == y {
      // y scores two and has two more than the jokers: there are none
      assert jc == 0;
      assert x != Jet && counts[x] == 2;
    }
  }

  /** `get_type`: the decision tree over the count map. */
  function GetType(counts: map<Card, nat>): HandType {
    var jokers := JokerCount(counts);
    if FindByCount(counts, 5).Some? then FiveOfKind
    else if FindByCount(counts, 4).Some? then FourOfKind
    else if FindByCount(counts, 3).Some? then
      if |counts| == 2 || (|counts| == 3 && jokers == 1) then FullHouse
      else ThreeOfKind
    else match FindByCount(counts, 2)
      case Some(card) =>
        if HasSecondPair(counts, card) && |counts| == 3 then TwoPair else OnePair
      case None => HighCard
  }

  /** The classification is decided by which counts are reachable: five of
      a kind exactly when some card reaches five, and a high card exactly
      when no card reaches any count from two to five. */
  lemma GetTypeCharacterised(counts: map<Card, nat>)
    ensures GetType(counts) == FiveOfKind <==> exists c :: Scores(counts, c, 5)
    ensures GetType(counts) == HighCard <==>
              forall c, n :: 2 <= n <= 5 ==> !Scores(counts, c, n)
  {
    if GetType(counts) == HighCard {
      forall c, n | 2 <= n <= 5 ensures !Scores(counts, c, n) {
      }
    }
  }

  /** With two as the best count, two pair is decided by the number of
      distinct cards and a second pair, whichever scoring card is found. */
  lemma GetTypeTwoPair(counts: map<Card, nat>, c: Card)
    requires Scores(counts, c, 2)
    requires forall d, n :: 3 <= n <= 5 ==> !Scores(counts, d, n)
    ensures GetType(counts) == TwoPair <==> HasSecondPair(counts, c) && |counts| == 3
  {
    assert !Scores(counts, c, 3) && !Scores(counts, c, 4) && !Scores(counts, c, 5);
    assert FindByCount(counts, 5).None? && FindByCount(counts, 4).None? && FindByCount(counts, 3).None?;
    SecondPairChoiceFree(counts, c, FindByCount(counts, 2).value);
  }

  // ---------------------------------------------------------------------------
  // Ordering

  datatype Ordering = Less | Equal | Greater {
    function Reverse(): Ordering {
      match this
      case Less => Greater
      case Equal => Equal
      case Greater => Less
    }
  }

  /** `Ord::cmp` on integers. */
  function CompareInt(a: int, b: int): (o: Ordering)
    ensures o == Less <==> a < b
    ensures o == Equal <==> a == b
    ensures o == Greater <==> a > b
  {
    if a < b then Less else if a == b then Equal else Greater
  }

  /** The cards of a hand's text (of a valid hand, all of them). */
  function CardsOf(h: CardHand): (cs: seq<Card>)
    ensures ValidHand(h) ==> |cs| == |h.raw|
  {
    match ParseCards(h.raw)
    case Some(cs) => cs
    case None => []
  }

  /** The card-by-card tie-break over the zipped texts: the first pair of
      different cards decides; running out of either text gives `Equal`. */
  function TieBreak(xs: seq<Card>, ys: seq<Card>): (o: Ordering)
    ensures var n := if |xs| <= |ys| then |xs| else |ys|;
      o == Equal <==> xs[..n] == ys[..n]
  {
    if xs == [] || ys == [] then Equal
    else if Strength(xs[0]) != Strength(ys[0]) then
      CompareInt(Strength(xs[0]), Strength(ys[0]))
    else
      var n := if |xs| <= |ys| then |xs| else |ys|;
      assert xs[..n] == [xs[0]] + xs[1..][..n - 1];
      assert ys[..n] == [ys[0]] + ys[1..][..n - 1];
      TieBreak(xs[1..], ys[1..])
  }

  /** A tie-break other than `Equal` is the comparison of the first
      position where the zipped cards differ. */
  lemma {:induction false} TieBreakDecides(xs: seq<Card>, ys: seq<Card>)
    ensures var n := if |xs| <= |ys| then |xs| else |ys|;
      TieBreak(xs, ys) != Equal ==>
        exists i :: 0 <= i < n && xs[..i] == ys[..i]
          && TieBreak(xs, ys) == CompareInt(Strength(xs[i]), Strength(ys[i]))
  {
    if xs != [] && ys != [] {
      if Strength(xs[0]) != Strength(ys[0]) {
        assert xs[..0] == ys[..0];
      } else if TieBreak(xs, ys) != Equal {
        TieBreakDecides(xs[1..], ys[1..]);
        var n := if |xs| <= |ys| then |xs| else |ys|;
        var o := TieBreak(xs, ys);
        var i :| 0 <= i < n - 1 && xs[1..][..i] == ys[1..][..i]
                 && o == CompareInt(Strength(xs[1..][i]), Strength(ys[1..][i]));
        assert xs[0] == ys[0];
        assert xs[..i + 1] == [xs[0]] + xs[1..][..i];
        assert ys[..i + 1] == [ys[0]] + ys[1..][..i];
      }
    }
  }

  /** `Ord::cmp`: by hand type, then by the tie-break. */
  function Cmp(a: CardHand, b: CardHand): Ordering
  {
    var res := CompareInt(TypeRank(GetType(a.cards)), TypeRank(GetType(b.cards)));
    if res != Equal then res else TieBreak(CardsOf(a), CardsOf(b))
  }

  /** `PartialOrd::partial_cmp`: as `cmp`, except that hands the tie-break
      cannot separate give `None` rather than `Some(Equal)`. */
  function PartialCmp(a: CardHand, b: CardHand): Option<Ordering>
  {
    var res := CompareInt(TypeRank(GetType(a.cards)), TypeRank(GetType(b.cards)));
    if res != Equal then Some(res)
    else
      var t := TieBreak(CardsOf(a), CardsOf(b));
      if t == Equal then None else Some(t)
  }

  /** `PartialEq::eq`: the hands' texts agree. */
  predicate Eq(a: CardHand, b: CardHand) {
    a.raw == b.raw
  }

  /** `a < b` as the sort asks it: `partial_cmp` is `Some(Less)`. */
  predicate Lt(a: CardHand, b: CardHand)
  {
    PartialCmp(a, b) == Some(Less)
  }

  /** `partial_cmp` is `cmp` with `Equal` turned into `None`, so `<` means
      `cmp` gives `Less`. */
  lemma PartialCmpIsCmp(a: CardHand, b: CardHand)
    ensures PartialCmp(a, b) == if Cmp(a, b) == Equal then None else Some(Cmp(a, b))
    ensures Lt(a, b) <==> Cmp(a, b) == Less
  {
  }

  /** `cmp` orders first by type; for hands of one type, by the first
      differing card; it is `Equal` only when the type and every zipped card
      agree. */
  lemma CmpMeaning(a: CardHand, b: CardHand)
    requires ValidHand(a) && ValidHand(b)
    ensures TypeRank(GetType(a.cards)) < TypeRank(GetType(b.cards)) ==> Cmp(a, b) == Less
    ensures TypeRank(GetType(a.cards)) > TypeRank(GetType(b.cards)) ==> Cmp(a, b) == Greater
    ensures Cmp(a, b) == Equal <==>
              var n := if |a.raw| <= |b.raw| then |a.raw| else |b.raw|;
              GetType(a.cards) == GetType(b.cards) && CardsOf(a)[..n] == CardsOf(b)[..n]
  {
    var ta, tb := GetType(a.cards), GetType(b.cards);
    if TypeRank(ta) == TypeRank(tb) {
      assert ta == tb;
    }
  }

  /** Swapping the hands reverses the comparison. */
  lemma {:induction false} TieBreakReverse(xs: seq<Card>, ys: seq<Card>)
    ensures TieBreak(ys, xs) == TieBreak(xs, ys).Reverse()
  {
    if xs != [] && ys != [] && Strength(xs[0]) == Strength(ys[0]) {
      TieBreakReverse(xs[1..], ys[1..]);
    }
  }

  lemma CmpReverse(a: CardHand, b: CardHand)
    ensures Cmp(b, a) == Cmp(a, b).Reverse()
  {
    TieBreakReverse(CardsOf(a), CardsOf(b));
  }

  /** The tie-break on texts of one length is transitive. */
  lemma {:induction false} TieBreakTransitive(xs: seq<Card>, ys: seq<Card>, zs: seq<Card>)
    requires |xs| == |ys| == |zs|
    ensures TieBreak(xs, ys) != Greater && TieBreak(ys, zs) != Greater ==> TieBreak(xs, zs) != Greater
    ensures TieBreak(xs, ys) == Less && TieBreak(ys, zs) != Greater ==> TieBreak(xs, zs) == Less
    ensures TieBreak(xs, ys) != Greater && TieBreak(ys, zs) == Less ==> TieBreak(xs, zs) == Less
  {
    if xs != [] {
      TieBreakTransitive(xs[1..], ys[1..], zs[1..]);
    }
  }

  /** For hands of one length, `Equal` under `cmp` is exactly `eq`: equal
      texts, hence equal hands up to the bid. */
  lemma CmpEqualIsEq(a: CardHand, b: CardHand)
    requires ValidHand(a) && ValidHand(b) && |a.raw| == |b.raw|
    ensures Cmp(a, b) == Equal <==> Eq(a, b)
    ensures Eq(a, b) ==> a.cards == b.cards
  {
    var xs, ys := CardsOf(a), CardsOf(b);
    assert xs[..|xs|] == xs && ys[..|ys|] == ys;
    if xs == ys {
      forall i | 0 <= i < |a.raw| ensures a.raw[i] == b.raw[i] {
        CardCharRoundTrip(xs[i], a.raw[i]);
        CardCharRoundTrip(ys[i], b.raw[i]);
      }
    }
  }

  /** For hands of one length, `cmp` is transitive: together with
      `CmpReverse` it is a total preorder, which a sort needs. */
  lemma CmpTransitive(a: CardHand, b: CardHand, c: CardHand)
    requires ValidHand(a) && ValidHand(b) && ValidHand(c)
    requires |a.raw| == |b.raw| == |c.raw|
    ensures Cmp(a, b) != Greater && Cmp(b, c) != Greater ==> Cmp(a, c) != Greater
    ensures Cmp(a, b) == Less && Cmp(b, c) != Greater ==> Cmp(a, c) == Less
    ensures Cmp(a, b) != Greater && Cmp(b, c) == Less ==> Cmp(a, c) == Less
  {
    TieBreakTransitive(CardsOf(a), CardsOf(b), CardsOf(c));
  }

  // ---------------------------------------------------------------------------
  // Sorting and winnings

  /** Every hand valid and all of one length. */
  predicate Comparable(hands: seq<CardHand>) {
    (forall h :: h in hands ==> ValidHand(h))
    && forall h, k :: h in hands && k in hands ==> |h.raw| == |k.raw|
  }

  /** Inserts `h` after every hand it is not less than. */
  function Insert(sorted: seq<CardHand>, h: CardHand): (r: seq<CardHand>)
    ensures multiset(r) == multiset(sorted) + multiset{h}
  {
    if sorted == [] || !Lt(h, sorted[|sorted| - 1]) then sorted + [h]
    else
      var init, last := sorted[..|sorted| - 1], sorted[|sorted| - 1];
      assert sorted == init + [last];
      Insert(init, h) + [last]
  }

  /** `hands.sort()`: a stable sort by `<`, here as insertion sort. */
  function SortHands(hands: seq<CardHand>): (r: seq<CardHand>)
    ensures multiset(r) == multiset(hands)
  {
    if hands == [] then []
    else
      var init, last := hands[..|hands| - 1], hands[|hands| - 1];
      assert hands == init + [last];
      Insert(SortHands(init), last)
  }

  /** No hand is strictly less than one before it. */
  predicate SortedHands(hands: seq<CardHand>)
  {
    forall i, j :: 0 <= i < j < |hands| ==> Cmp(hands[i], hands[j]) != Greater
  }

  /** A hand not less than any before it extends an ordered list. */
  lemma SortedSnoc(xs: seq<CardHand>, y: CardHand)
    requires SortedHands(xs)
    requires forall i :: 0 <= i < |xs| ==> Cmp(xs[i], y) != Greater
    ensures SortedHands(xs + [y])
  {
    var r := xs + [y];
    forall i, j | 0 <= i < j < |r| ensures Cmp(r[i], r[j]) != Greater {
      if j < |xs| {
        assert r[i] == xs[i] && r[j] == xs[j];
      } else {
        assert r[i] == xs[i] && r[j] == y;
      }
    }
  }

  lemma {:induction false} InsertSorted(sorted: seq<CardHand>, h: CardHand, all: seq<CardHand>)
    requires Comparable(all) && h in all && forall k :: k in sorted ==> k in all
    requires SortedHands(sorted)
    ensures SortedHands(Insert(sorted, h))
    decreases |sorted|
  {
    if sorted == [] {
      SortedSnoc(sorted, h);
    } else {
      var init, last := sorted[..|sorted| - 1], sorted[|sorted| - 1];
      assert last in all;
      PartialCmpIsCmp(h, last);
      if !Lt(h, last) {
        CmpReverse(h, last);
        forall i | 0 <= i < |sorted| ensures Cmp(sorted[i], h) != Greater {
          assert sorted[i] in all;
          CmpTransitive(sorted[i], last, h);
        }
        SortedSnoc(sorted, h);
      } else {
        assert SortedHands(init) by {
          forall i, j | 0 <= i < j < |init| ensures Cmp(init[i], init[j]) != Greater {
            assert init[i] == sorted[i] && init[j] == sorted[j];
          }
        }
        InsertSorted(init, h, all);
        var ri := Insert(init, h);
        forall i | 0 <= i < |ri| ensures Cmp(ri[i], last) != Greater {
          assert ri[i] in multiset(ri);
          if ri[i] != h {
            assert ri[i] in multiset(init);
            var j :| 0 <= j < |init| && init[j] == ri[i];
            assert Cmp(sorted[j], sorted[|sorted| - 1]) != Greater;
          }
        }
        SortedSnoc(ri, last);
      }
    }
  }

  /** The sort's result is ordered, for hands of one length. */
  lemma {:induction false} SortHandsSorted(hands: seq<CardHand>)
    requires Comparable(hands)
    ensures SortedHands(SortHands(hands))
  {
    if hands != [] {
      var init, last := hands[..|hands| - 1], hands[|hands| - 1];
      assert hands == init + [last];
      assert Comparable(init);
      SortHandsSorted(init);
      var s := SortHands(init);
      forall k | k in s ensures k in hands {
        assert k in multiset(s);
      }
      InsertSorted(s, last, hands);
    }
  }

  /** The hands of `hands` with the text of `h`, in order: for hands of one
      length, those `cmp` cannot tell from `h` (`CmpEqualIsEq`). */
  function Ties(hands: seq<CardHand>, h: CardHand): (r: seq<CardHand>)
    ensures forall k :: k in r ==> k in hands && Eq(k, h)
  {
    if hands == [] then []
    else
      var last := hands[|hands| - 1];
      Ties(hands[..|hands| - 1], h) + (if Eq(last, h) then [last] else [])
  }

  /** Appending a hand appends it to the ties when it has `h`'s text. */
  lemma TiesSnoc(xs: seq<CardHand>, y: CardHand, h: CardHand)
    ensures Ties(xs + [y], h) == Ties(xs, h) + (if Eq(y, h) then [y] else [])
  {
    assert (xs + [y])[..|xs|] == xs;
  }

  /** A hand less than `last` does not share its text. */
  lemma LtNotEq(x: CardHand, last: CardHand)
    requires ValidHand(x) && ValidHand(last) && |x.raw| == |last.raw|
    requires Lt(x, last)
    ensures !Eq(x, last)
  {
    PartialCmpIsCmp(x, last);
    CmpEqualIsEq(x, last);
  }

  /** A hand less than the last one is inserted before it. */
  lemma InsertBeforeLast(sorted: seq<CardHand>, x: CardHand)
    requires sorted != [] && Lt(x, sorted[|sorted| - 1])
    ensures Insert(sorted, x) == Insert(sorted[..|sorted| - 1], x) + [sorted[|sorted| - 1]]
  {
  }

  /** Two tails of which one is empty can trade places. */
  lemma SwapTail(xs: seq<CardHand>, p: seq<CardHand>, q: seq<CardHand>)
    requires p == [] || q == []
    ensures xs + p + q == xs + q + p
  {
  }

  /** Inserting `x` puts it after every hand that ties with it, so the
      hands with the text of `h` keep their order, `x` joining them last. */
  lemma {:induction false} InsertTies(sorted: seq<CardHand>, x: CardHand, h: CardHand)
    requires ValidHand(x) && forall k :: k in sorted ==> ValidHand(k) && |k.raw| == |x.raw|
    ensures Ties(Insert(sorted, x), h) == Ties(sorted, h) + (if Eq(x, h) then [x] else [])
    decreases |sorted|
  {
    if sorted != [] && Lt(x, sorted[|sorted| - 1]) {
      var init, last := sorted[..|sorted| - 1], sorted[|sorted| - 1];
      assert forall k :: k in init ==> k in sorted;
      InsertTies(init, x, h);
      InsertBeforeLast(sorted, x);
      var ins := Insert(init, x);
      var tx := if Eq(x, h) then [x] else [];
      var tl := if Eq(last, h) then [last] else [];
      TiesSnoc(ins, last, h);
      LtNotEq(x, last);
      SwapTail(Ties(init, h), tx, tl);
    } else {
      TiesSnoc(sorted, x, h);
    }
  }

  /** `sort` is stable: hands that `cmp` cannot tell apart, hands of one
      text that differ in their bid, keep their input order. */
  lemma {:induction false} SortHandsStable(hands: seq<CardHand>, h: CardHand)
    requires Comparable(hands)
    ensures Ties(SortHands(hands), h) == Ties(hands, h)
  {
    if hands != [] {
      var init, last := hands[..|hands| - 1], hands[|hands| - 1];
      assert forall k :: k in init ==> k in hands;
      SortHandsStable(init, h);
      var s := SortHands(init);
      forall k | k in s ensures k in hands {
        assert k in multiset(s);
      }
      InsertTies(s, last, h);
    }
  }

  /** `Σ bid * (rank + 1)` over the ranked hands. */
  function Winnings(ranked: seq<CardHand>): nat {
    if ranked == [] then 0
    else Winnings(ranked[..|ranked| - 1]) + ranked[|ranked| - 1].bid * |ranked|
  }

  /** The winnings are at least the bids, one per hand, and each hand's bid
      weighs in with its rank. */
  lemma {:induction false} WinningsBounds(ranked: seq<CardHand>)
    ensures Winnings(ranked) >= TotalBid(ranked)
    ensures Winnings(ranked) <= |ranked| * TotalBid(ranked)
  {
    if ranked != [] {
      var init := ranked[..|ranked| - 1];
      WinningsBounds(init);
      BoundsStep(Winnings(init), TotalBid(init), ranked[|ranked| - 1].bid, |ranked|);
    }
  }

  lemma BoundsStep(w: int, t: int, b: nat, n: int)
    requires n >= 1 && t >= 0 && t <= w <= (n - 1) * t
    ensures t + b <= w + b * n <= n * (t + b)
  {
    assert b * n >= b;
    assert (n - 1) * t + t == n * t;
    assert n * (t + b) == n * t + b * n;
  }

  function TotalBid(hands: seq<CardHand>): nat {
    if hands == [] then 0 else TotalBid(hands[..|hands| - 1]) + hands[|hands| - 1].bid
  }

  /** `map(CardHand::from).collect()` over the given lines: the hand of
      every line, in order, or nothing when one line is not a hand. */
  function ParseHands(lines: seq<string>): (r: Option<seq<CardHand>>)
    ensures r.Some? <==> forall i :: 0 <= i < |lines| ==> ParseHand(lines[i]).Some?
    ensures r.Some? ==> |r.value| == |lines|
    ensures r.Some? ==> forall i :: 0 <= i < |lines| ==> r.value[i] == ParseHand(lines[i]).value
    ensures r.Some? ==> forall h :: h in r.value ==> ValidHand(h)
  {
    if lines == [] then Some([])
    else
      var init := ParseHands(lines[..|lines| - 1]);
      var h := ParseHand(lines[|lines| - 1]);
      assert forall i :: 0 <= i < |lines| - 1 ==> lines[..|lines| - 1][i] == lines[i];
      if init.Some? && h.Some? then
        ParsedHandValid(lines[|lines| - 1]);
        Some(init.value + [h.value])
      else None
  }

  /** `riddle_part_one` on the file's text: the hands of the non-empty
      lines, sorted, weighed by rank. */
  function PartOne(text: string): Option<nat> {
    match ParseHands(Text.NonEmpty(Text.Split(text, '\n')))
    case None => None
    case Some(hands) => Some(Winnings(SortHands(hands)))
  }

  /** `riddle_part_one` as written: the hands of the non-empty lines are
      collected and sorted, and the winnings summed over the ranks. A line
      that is not a hand panics. */
  method TotalWinnings(text: string) returns (winnings: Option<nat>)
    ensures winnings == PartOne(text)
  {
    var parsed := ParseHands(Text.NonEmpty(Text.Split(text, '\n')));
    if parsed.None? {
      return None;
    }
    var total := SumWinnings(SortHands(parsed.value));
    winnings := Some(total);
  }

  /** The summing loop of `riddle_part_one`: rank `i + 1` times the bid of
      the `i`-th hand in sorted order. */
  method SumWinnings(hands: seq<CardHand>) returns (total: nat)
    ensures total == Winnings(hands)
  {
    total := 0;
    for rank := 0 to |hands|
      invariant total == Winnings(hands[..rank])
    {
      assert hands[..rank + 1][..rank] == hands[..rank];
      total := total + hands[rank].bid * (rank + 1);
    }
    assert hands[..|hands|] == hands;
  }
}
