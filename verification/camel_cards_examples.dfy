/** The hand-type table of the test module of day7/src/main.rs: thirty-five
    hands with jokers, each with the type `get_type` must give it. Each row
    is split in two: `Counts…` reads the hand's text and counts its cards,
    and `Type…` classifies a count map with exactly those entries; `Row…`
    joins the two halves. */
module CamelCardsExamples {
  import opened Wrappers
  import opened CamelCards

  /** One more card counted, as the fold does it. */
  function Bump(m: map<Card, nat>, c: Card): map<Card, nat> {
    m[c := (if c in m then m[c] else 0) + 1]
  }

  /** The count maps of the first two, three, four and five cards, one
      fold step at a time. */
  lemma CountTwo(a: Card, b: Card)
    ensures CountMap([a, b]) == Bump(Bump(map[], a), b)
  {
    var one := [a];
    assert one[..0] == [];
    CountMapSnoc(one, b);
    assert one + [b] == [a, b];
  }

  lemma CountThree(a: Card, b: Card, c: Card)
    ensures CountMap([a, b, c]) == Bump(Bump(Bump(map[], a), b), c)
  {
    CountTwo(a, b);
    CountMapSnoc([a, b], c);
    assert [a, b] + [c] == [a, b, c];
  }

  lemma CountFour(a: Card, b: Card, c: Card, d: Card)
    ensures CountMap([a, b, c, d]) == Bump(Bump(Bump(Bump(map[], a), b), c), d)
  {
    CountThree(a, b, c);
    CountMapSnoc([a, b, c], d);
    assert [a, b, c] + [d] == [a, b, c, d];
  }

  lemma CountFive(a: Card, b: Card, c: Card, d: Card, e: Card)
    ensures CountMap([a, b, c, d, e]) == Bump(Bump(Bump(Bump(Bump(map[], a), b), c), d), e)
  {
    CountFour(a, b, c, d);
    CountMapSnoc([a, b, c, d], e);
    assert [a, b, c, d] + [e] == [a, b, c, d, e];
  }

  /** The cards of a five-letter hand. */
  lemma ParseCardsFive(s: string, a: Card, b: Card, c: Card, d: Card, e: Card)
    requires |s| == 5
    requires ParseCard(s[0]) == Some(a) && ParseCard(s[1]) == Some(b) && ParseCard(s[2]) == Some(c)
    requires ParseCard(s[3]) == Some(d) && ParseCard(s[4]) == Some(e)
    ensures ParseCards(s) == Some([a, b, c, d, e])
  {
    var r := ParseCards(s);
    assert r.Some?;
    assert r.value[0] == a && r.value[1] == b && r.value[2] == c && r.value[3] == d && r.value[4] == e;
    assert r.value == [a, b, c, d, e];
  }

  /** A hand in which some card reaches five is five of a kind. */
  lemma FiveOfKindWhen(m: map<Card, nat>, c: Card)
    requires Scores(m, c, 5)
    ensures GetType(m) == FiveOfKind
  {
  }

  /** Four of a kind: some card reaches four and none reaches five. */
  lemma FourOfKindWhen(m: map<Card, nat>, c: Card)
    requires forall d :: !Scores(m, d, 5)
    requires Scores(m, c, 4)
    ensures GetType(m) == FourOfKind
  {
  }

  /** Three as the best count: a full house when only two kinds of card
      remain, or three kinds of which one is a single joker. */
  lemma ThreeWhen(m: map<Card, nat>, c: Card)
    requires forall d :: !Scores(m, d, 5) && !Scores(m, d, 4)
    requires Scores(m, c, 3)
    ensures GetType(m) == (if |m| == 2 || (|m| == 3 && JokerCount(m) == 1) then FullHouse else ThreeOfKind)
  {
  }

  /** Two as the best count among five different cards: one pair. */
  lemma OnePairWhen(m: map<Card, nat>, c: Card)
    requires forall d :: !Scores(m, d, 5) && !Scores(m, d, 4) && !Scores(m, d, 3)
    requires Scores(m, c, 2) && |m| == 5
    ensures GetType(m) == OnePair
  {
  }

  /** Row `5J984` of the table. */
  lemma Counts5J984()
    ensures ParseCards("5J984") == Some([Five, Jet, Nine, Eight, Four])
    ensures var m := CountMap([Five, Jet, Nine, Eight, Four]);
      m.Keys == {Five, Jet, Nine, Eight, Four} && m[Five] == 1 && m[Jet] == 1 && m[Nine] == 1 && m[Eight] == 1 && m[Four] == 1
  {
    ParseCardsFive("5J984", Five, Jet, Nine, Eight, Four);
    CountFive(Five, Jet, Nine, Eight, Four);
  }

  lemma Type5J984(m: map<Card, nat>)
    requires m.Keys == {Five, Jet, Nine, Eight, Four} && m[Five] == 1 && m[Jet] == 1 && m[Nine] == 1 && m[Eight] == 1 && m[Four] == 1
    ensures GetType(m) == OnePair
  {
    OnePairWhen(m, Five);
  }

  /** Row `787J8` of the table. */
  lemma Counts787J8()
    ensures ParseCards("787J8") == Some([Seven, Eight, Seven, Jet, Eight])
    ensures var m := CountMap([Seven, Eight, Seven, Jet, Eight]);
      m.Keys == {Seven, Eight, Jet} && m[Seven] == 2 && m[Eight] == 2 && m[Jet] == 1
  {
    ParseCardsFive("787J8", Seven, Eight, Seven, Jet, Eight);
    CountFive(Seven, Eight, Seven, Jet, Eight);
  }

  lemma Type787J8(m: map<Card, nat>)
    requires m.Keys == {Seven, Eight, Jet} && m[Seven] == 2 && m[Eight] == 2 && m[Jet] == 1
    ensures GetType(m) == FullHouse
  {
    ThreeWhen(m, Seven);
  }

  /** Row `7JJ77` of the table. */
  lemma Counts7JJ77()
    ensures ParseCards("7JJ77") == Some([Seven, Jet, Jet, Seven, Seven])
    ensures var m := CountMap([Seven, Jet, Jet, Seven, Seven]);
      m.Keys == {Seven, Jet} && m[Seven] == 3 && m[Jet] == 2
  {
    ParseCardsFive("7JJ77", Seven, Jet, Jet, Seven, Seven);
    CountFive(Seven, Jet, Jet, Seven, Seven);
  }

  lemma Type7JJ77(m: map<Card, nat>)
    requires m.Keys == {Seven, Jet} && m[Seven] == 3 && m[Jet] == 2
    ensures GetType(m) == FiveOfKind
  {
    FiveOfKindWhen(m, Seven);
  }

  /** Row `A7T4J` of the table. */
  lemma CountsA7T4J()
    ensures ParseCards("A7T4J") == Some([Ace, Seven, Ten, Four, Jet])
    ensures var m := CountMap([Ace, Seven, Ten, Four, Jet]);
      m.Keys == {Ace, Seven, Ten, Four, Jet} && m[Ace] == 1 && m[Seven] == 1 && m[Ten] == 1 && m[Four] == 1 && m[Jet] == 1
  {
    ParseCardsFive("A7T4J", Ace, Seven, Ten, Four, Jet);
    CountFive(Ace, Seven, Ten, Four, Jet);
  }

  lemma TypeA7T4J(m: map<Card, nat>)
    requires m.Keys == {Ace, Seven, Ten, Four, Jet} && m[Ace] == 1 && m[Seven] == 1 && m[Ten] == 1 && m[Four] == 1 && m[Jet] == 1
    ensures GetType(m) == OnePair
  {
    OnePairWhen(m, Ace);
  }

  /** Row `Q9A7J` of the table. */
  lemma CountsQ9A7J()
    ensures ParseCards("Q9A7J") == Some([Queen, Nine, Ace, Seven, Jet])
    ensures var m := CountMap([Queen, Nine, Ace, Seven, Jet]);
      m.Keys == {Queen, Nine, Ace, Seven, Jet} && m[Queen] == 1 && m[Nine] == 1 && m[Ace] == 1 && m[Seven] == 1 && m[Jet] == 1
  {
    ParseCardsFive("Q9A7J", Queen, Nine, Ace, Seven, Jet);
    CountFive(Queen, Nine, Ace, Seven, Jet);
  }

  lemma TypeQ9A7J(m: map<Card, nat>)
    requires m.Keys == {Queen, Nine, Ace, Seven, Jet} && m[Queen] == 1 && m[Nine] == 1 && m[Ace] == 1 && m[Seven] == 1 && m[Jet] == 1
    ensures GetType(m) == OnePair
  {
    OnePairWhen(m, Queen);
  }

  /** Row `8J544` of the table. */
  lemma Counts8J544()
    ensures ParseCards("8J544") == Some([Eight, Jet, Five, Four, Four])
    ensures var m := CountMap([Eight, Jet, Five, Four, Four]);
      m.Keys == {Eight, Jet, Five, Four} && m[Eight] == 1 && m[Jet] == 1 && m[Five] == 1 && m[Four] == 2
  {
    ParseCardsFive("8J544", Eight, Jet, Five, Four, Four);
    CountFive(Eight, Jet, Five, Four, Four);
  }

  lemma Type8J544(m: map<Card, nat>)
    requires m.Keys == {Eight, Jet, Five, Four} && m[Eight] == 1 && m[Jet] == 1 && m[Five] == 1 && m[Four] == 2
    ensures GetType(m) == ThreeOfKind
  {
    ThreeWhen(m, Four);
  }

  /** Row `9JQ44` of the table. */
  lemma Counts9JQ44()
    ensures ParseCards("9JQ44") == Some([Nine, Jet, Queen, Four, Four])
    ensures var m := CountMap([Nine, Jet, Queen, Four, Four]);
      m.Keys == {Nine, Jet, Queen, Four} && m[Nine] == 1 && m[Jet] == 1 && m[Queen] == 1 && m[Four] == 2
  {
    ParseCardsFive("9JQ44", Nine, Jet, Queen, Four, Four);
    CountFive(Nine, Jet, Queen, Four, Four);
  }

  lemma Type9JQ44(m: map<Card, nat>)
    requires m.Keys == {Nine, Jet, Queen, Four} && m[Nine] == 1 && m[Jet] == 1 && m[Queen] == 1 && m[Four] == 2
    ensures GetType(m) == ThreeOfKind
  {
    ThreeWhen(m, Four);
  }

  /** Row `963J5` of the table. */
  lemma Counts963J5()
    ensures ParseCards("963J5") == Some([Nine, Six, Three, Jet, Five])
    ensures var m := CountMap([Nine, Six, Three, Jet, Five]);
      m.Keys == {Nine, Six, Three, Jet, Five} && m[Nine] == 1 && m[Six] == 1 && m[Three] == 1 && m[Jet] == 1 && m[Five] == 1
  {
    ParseCardsFive("963J5", Nine, Six, Three, Jet, Five);
    CountFive(Nine, Six, Three, Jet, Five);
  }

  lemma Type963J5(m: map<Card, nat>)
    requires m.Keys == {Nine, Six, Three, Jet, Five} && m[Nine] == 1 && m[Six] == 1 && m[Three] == 1 && m[Jet] == 1 && m[Five] == 1
    ensures GetType(m) == OnePair
  {
    OnePairWhen(m, Nine);
  }

  /** Row `7JJ99` of the table. */
  lemma Counts7JJ99()
    ensures ParseCards("7JJ99") == Some([Seven, Jet, Jet, Nine, Nine])
    ensures var m := CountMap([Seven, Jet, Jet, Nine, Nine]);
      m.Keys == {Seven, Jet, Nine} && m[Seven] == 1 && m[Jet] == 2 && m[Nine] == 2
  {
    ParseCardsFive("7JJ99", Seven, Jet, Jet, Nine, Nine);
    CountFive(Seven, Jet, Jet, Nine, Nine);
  }

  lemma Type7JJ99(m: map<Card, nat>)
    requires m.Keys == {Seven, Jet, Nine} && m[Seven] == 1 && m[Jet] == 2 && m[Nine] == 2
    ensures GetType(m) == FourOfKind
  {
    FourOfKindWhen(m, Nine);
  }

  /** Row `Q6QQJ` of the table. */
  lemma CountsQ6QQJ()
    ensures ParseCards("Q6QQJ") == Some([Queen, Six, Queen, Queen, Jet])
    ensures var m := CountMap([Queen, Six, Queen, Queen, Jet]);
      m.Keys == {Queen, Six, Jet} && m[Queen] == 3 && m[Six] == 1 && m[Jet] == 1
  {
    ParseCardsFive("Q6QQJ", Queen, Six, Queen, Queen, Jet);
    CountFive(Queen, Six, Queen, Queen, Jet);
  }

  lemma TypeQ6QQJ(m: map<Card, nat>)
    requires m.Keys == {Queen, Six, Jet} && m[Queen] == 3 && m[Six] == 1 && m[Jet] == 1
    ensures GetType(m) == FourOfKind
  {
    FourOfKindWhen(m, Queen);
  }

  /** Row `68J8T` of the table. */
  lemma Counts68J8T()
    ensures ParseCards("68J8T") == Some([Six, Eight, Jet, Eight, Ten])
    ensures var m := CountMap([Six, Eight, Jet, Eight, Ten]);
      m.Keys == {Six, Eight, Jet, Ten} && m[Six] == 1 && m[Eight] == 2 && m[Jet] == 1 && m[Ten] == 1
  {
    ParseCardsFive("68J8T", Six, Eight, Jet, Eight, Ten);
    CountFive(Six, Eight, Jet, Eight, Ten);
  }

  lemma Type68J8T(m: map<Card, nat>)
    requires m.Keys == {Six, Eight, Jet, Ten} && m[Six] == 1 && m[Eight] == 2 && m[Jet] == 1 && m[Ten] == 1
    ensures GetType(m) == ThreeOfKind
  {
    ThreeWhen(m, Eight);
  }

  /** Row `5JJK9` of the table. */
  lemma Counts5JJK9()
    ensures ParseCards("5JJK9") == Some([Five, Jet, Jet, King, Nine])
    ensures var m := CountMap([Five, Jet, Jet, King, Nine]);
      m.Keys == {Five, Jet, King, Nine} && m[Five] == 1 && m[Jet] == 2 && m[King] == 1 && m[Nine] == 1
  {
    ParseCardsFive("5JJK9", Five, Jet, Jet, King, Nine);
    CountFive(Five, Jet, Jet, King, Nine);
  }

  lemma Type5JJK9(m: map<Card, nat>)
    requires m.Keys == {Five, Jet, King, Nine} && m[Five] == 1 && m[Jet] == 2 && m[King] == 1 && m[Nine] == 1
    ensures GetType(m) == ThreeOfKind
  {
    ThreeWhen(m, Five);
  }

  /** Row `A94AJ` of the table. */
  lemma CountsA94AJ()
    ensures ParseCards("A94AJ") == Some([Ace, Nine, Four, Ace, Jet])
    ensures var m := CountMap([Ace, Nine, Four, Ace, Jet]);
      m.Keys == {Ace, Nine, Four, Jet} && m[Ace] == 2 && m[Nine] == 1 && m[Four] == 1 && m[Jet] == 1
  {
    ParseCardsFive("A94AJ", Ace, Nine, Four, Ace, Jet);
    CountFive(Ace, Nine, Four, Ace, Jet);
  }

  lemma TypeA94AJ(m: map<Card, nat>)
    requires m.Keys == {Ace, Nine, Four, Jet} && m[Ace] == 2 && m[Nine] == 1 && m[Four] == 1 && m[Jet] == 1
    ensures GetType(m) == ThreeOfKind
  {
    ThreeWhen(m, Ace);
  }

  /** Row `777J8` of the table. */
  lemma Counts777J8()
    ensures ParseCards("777J8") == Some([Seven, Seven, Seven, Jet, Eight])
    ensures var m := CountMap([Seven, Seven, Seven, Jet, Eight]);
      m.Keys == {Seven, Jet, Eight} && m[Seven] == 3 && m[Jet] == 1 && m[Eight] == 1
  {
    ParseCardsFive("777J8", Seven, Seven, Seven, Jet, Eight);
    CountFive(Seven, Seven, Seven, Jet, Eight);
  }

  lemma Type777J8(m: map<Card, nat>)
    requires m.Keys == {Seven, Jet, Eight} && m[Seven] == 3 && m[Jet] == 1 && m[Eight] == 1
    ensures GetType(m) == FourOfKind
  {
    FourOfKindWhen(m, Seven);
  }

  /** Row `JTK7J` of the table. */
  lemma CountsJTK7J()
    ensures ParseCards("JTK7J") == Some([Jet, Ten, King, Seven, Jet])
    ensures var m := CountMap([Jet, Ten, King, Seven, Jet]);
      m.Keys == {Jet, Ten, King, Seven} && m[Jet] == 2 && m[Ten] == 1 && m[King] == 1 && m[Seven] == 1
  {
    ParseCardsFive("JTK7J", Jet, Ten, King, Seven, Jet);
    CountFive(Jet, Ten, King, Seven, Jet);
  }

  lemma TypeJTK7J(m: map<Card, nat>)
    requires m.Keys == {Jet, Ten, King, Seven} && m[Jet] == 2 && m[Ten] == 1 && m[King] == 1 && m[Seven] == 1
    ensures GetType(m) == ThreeOfKind
  {
    ThreeWhen(m, Ten);
  }

  /** Row `96J29` of the table. */
  lemma Counts96J29()
    ensures ParseCards("96J29") == Some([Nine, Six, Jet, Two, Nine])
    ensures var m := CountMap([Nine, Six, Jet, Two, Nine]);
      m.Keys == {Nine, Six, Jet, Two} && m[Nine] == 2 && m[Six] == 1 && m[Jet] == 1 && m[Two] == 1
  {
    ParseCardsFive("96J29", Nine, Six, Jet, Two, Nine);
    CountFive(Nine, Six, Jet, Two, Nine);
  }

  lemma Type96J29(m: map<Card, nat>)
    requires m.Keys == {Nine, Six, Jet, Two} && m[Nine] == 2 && m[Six] == 1 && m[Jet] == 1 && m[Two] == 1
    ensures GetType(m) == ThreeOfKind
  {
    ThreeWhen(m, Nine);
  }

  /** Row `7J44Q` of the table. */
  lemma Counts7J44Q()
    ensures ParseCards("7J44Q") == Some([Seven, Jet, Four, Four, Queen])
    ensures var m := CountMap([Seven, Jet, Four, Four, Queen]);
      m.Keys == {Seven, Jet, Four, Queen} && m[Seven] == 1 && m[Jet] == 1 && m[Four] == 2 && m[Queen] == 1
  {
    ParseCardsFive("7J44Q", Seven, Jet, Four, Four, Queen);
    CountFive(Seven, Jet, Four, Four, Queen);
  }

  lemma Type7J44Q(m: map<Card, nat>)
    requires m.Keys == {Seven, Jet, Four, Queen} && m[Seven] == 1 && m[Jet] == 1 && m[Four] == 2 && m[Queen] == 1
    ensures GetType(m) == ThreeOfKind
  {
    ThreeWhen(m, Four);
  }

  /** Row `T6JT6` of the table. */
  lemma CountsT6JT6()
    ensures ParseCards("T6JT6") == Some([Ten, Six, Jet, Ten, Six])
    ensures var m := CountMap([Ten, Six, Jet, Ten, Six]);
      m.Keys == {Ten, Six, Jet} && m[Ten] == 2 && m[Six] == 2 && m[Jet] == 1
  {
    ParseCardsFive("T6JT6", Ten, Six, Jet, Ten, Six);
    CountFive(Ten, Six, Jet, Ten, Six);
  }

  lemma TypeT6JT6(m: map<Card, nat>)
    requires m.Keys == {Ten, Six, Jet} && m[Ten] == 2 && m[Six] == 2 && m[Jet] == 1
    ensures GetType(m) == FullHouse
  {
    ThreeWhen(m, Ten);
  }

  /** Row `T9AAJ` of the table. */
  lemma CountsT9AAJ()
    ensures ParseCards("T9AAJ") == Some([Ten, Nine, Ace, Ace, Jet])
    ensures var m := CountMap([Ten, Nine, Ace, Ace, Jet]);
      m.Keys == {Ten, Nine, Ace, Jet} && m[Ten] == 1 && m[Nine] == 1 && m[Ace] == 2 && m[Jet] == 1
  {
    ParseCardsFive("T9AAJ", Ten, Nine, Ace, Ace, Jet);
    CountFive(Ten, Nine, Ace, Ace, Jet);
  }

  lemma TypeT9AAJ(m: map<Card, nat>)
    requires m.Keys == {Ten, Nine, Ace, Jet} && m[Ten] == 1 && m[Nine] == 1 && m[Ace] == 2 && m[Jet] == 1
    ensures GetType(m) == ThreeOfKind
  {
    ThreeWhen(m, Ace);
  }

  /** Row `J5559` of the table. */
  lemma CountsJ5559()
    ensures ParseCards("J5559") == Some([Jet, Five, Five, Five, Nine])
    ensures var m := CountMap([Jet, Five, Five, Five, Nine]);
      m.Keys == {Jet, Five, Nine} && m[Jet] == 1 && m[Five] == 3 && m[Nine] == 1
  {
    ParseCardsFive("J5559", Jet, Five, Five, Five, Nine);
    CountFive(Jet, Five, Five, Five, Nine);
  }

  lemma TypeJ5559(m: map<Card, nat>)
    requires m.Keys == {Jet, Five, Nine} && m[Jet] == 1 && m[Five] == 3 && m[Nine] == 1
    ensures GetType(m) == FourOfKind
  {
    FourOfKindWhen(m, Five);
  }

  /** Row `T7AJ7` of the table. */
  lemma CountsT7AJ7()
    ensures ParseCards("T7AJ7") == Some([Ten, Seven, Ace, Jet, Seven])
    ensures var m := CountMap([Ten, Seven, Ace, Jet, Seven]);
      m.Keys == {Ten, Seven, Ace, Jet} && m[Ten] == 1 && m[Seven] == 2 && m[Ace] == 1 && m[Jet] == 1
  {
    ParseCardsFive("T7AJ7", Ten, Seven, Ace, Jet, Seven);
    CountFive(Ten, Seven, Ace, Jet, Seven);
  }

  lemma TypeT7AJ7(m: map<Card, nat>)
    requires m.Keys == {Ten, Seven, Ace, Jet} && m[Ten] == 1 && m[Seven] == 2 && m[Ace] == 1 && m[Jet] == 1
    ensures GetType(m) == ThreeOfKind
  {
    ThreeWhen(m, Seven);
  }

  /** Row `J7TTK` of the table. */
  lemma CountsJ7TTK()
    ensures ParseCards("J7TTK") == Some([Jet, Seven, Ten, Ten, King])
    ensures var m := CountMap([Jet, Seven, Ten, Ten, King]);
      m.Keys == {Jet, Seven, Ten, King} && m[Jet] == 1 && m[Seven] == 1 && m[Ten] == 2 && m[King] == 1
  {
    ParseCardsFive("J7TTK", Jet, Seven, Ten, Ten, King);
    CountFive(Jet, Seven, Ten, Ten, King);
  }

  lemma TypeJ7TTK(m: map<Card, nat>)
    requires m.Keys == {Jet, Seven, Ten, King} && m[Jet] == 1 && m[Seven] == 1 && m[Ten] == 2 && m[King] == 1
    ensures GetType(m) == ThreeOfKind
  {
    ThreeWhen(m, Ten);
  }

  /** Row `6QJJQ` of the table. */
  lemma Counts6QJJQ()
    ensures ParseCards("6QJJQ") == Some([Six, Queen, Jet, Jet, Queen])
    ensures var m := CountMap([Six, Queen, Jet, Jet, Queen]);
      m.Keys == {Six, Queen, Jet} && m[Six] == 1 && m[Queen] == 2 && m[Jet] == 2
  {
    ParseCardsFive("6QJJQ", Six, Queen, Jet, Jet, Queen);
    CountFive(Six, Queen, Jet, Jet, Queen);
  }

  lemma Type6QJJQ(m: map<Card, nat>)
    requires m.Keys == {Six, Queen, Jet} && m[Six] == 1 && m[Queen] == 2 && m[Jet] == 2
    ensures GetType(m) == FourOfKind
  {
    FourOfKindWhen(m, Queen);
  }

  /** Row `5JJ5J` of the table. */
  lemma Counts5JJ5J()
    ensures ParseCards("5JJ5J") == Some([Five, Jet, Jet, Five, Jet])
    ensures var m := CountMap([Five, Jet, Jet, Five, Jet]);
      m.Keys == {Five, Jet} && m[Five] == 2 && m[Jet] == 3
  {
    ParseCardsFive("5JJ5J", Five, Jet, Jet, Five, Jet);
    CountFive(Five, Jet, Jet, Five, Jet);
  }

  lemma Type5JJ5J(m: map<Card, nat>)
    requires m.Keys == {Five, Jet} && m[Five] == 2 && m[Jet] == 3
    ensures GetType(m) == FiveOfKind
  {
    FiveOfKindWhen(m, Five);
  }

  /** Row `6QJJ6` of the table. */
  lemma Counts6QJJ6()
    ensures ParseCards("6QJJ6") == Some([Six, Queen, Jet, Jet, Six])
    ensures var m := CountMap([Six, Queen, Jet, Jet, Six]);
      m.Keys == {Six, Queen, Jet} && m[Six] == 2 && m[Queen] == 1 && m[Jet] == 2
  {
    ParseCardsFive("6QJJ6", Six, Queen, Jet, Jet, Six);
    CountFive(Six, Queen, Jet, Jet, Six);
  }

  lemma Type6QJJ6(m: map<Card, nat>)
    requires m.Keys == {Six, Queen, Jet} && m[Six] == 2 && m[Queen] == 1 && m[Jet] == 2
    ensures GetType(m) == FourOfKind
  {
    FourOfKindWhen(m, Six);
  }

  /** Row `T7J77` of the table. */
  lemma CountsT7J77()
    ensures ParseCards("T7J77") == Some([Ten, Seven, Jet, Seven, Seven])
    ensures var m := CountMap([Ten, Seven, Jet, Seven, Seven]);
      m.Keys == {Ten, Seven, Jet} && m[Ten] == 1 && m[Seven] == 3 && m[Jet] == 1
  {
    ParseCardsFive("T7J77", Ten, Seven, Jet, Seven, Seven);
    CountFive(Ten, Seven, Jet, Seven, Seven);
  }

  lemma TypeT7J77(m: map<Card, nat>)
    requires m.Keys == {Ten, Seven, Jet} && m[Ten] == 1 && m[Seven] == 3 && m[Jet] == 1
    ensures GetType(m) == FourOfKind
  {
    FourOfKindWhen(m, Seven);
  }

  /** Row `7J5T7` of the table. */
  lemma Counts7J5T7()
    ensures ParseCards("7J5T7") == Some([Seven, Jet, Five, Ten, Seven])
    ensures var m := CountMap([Seven, Jet, Five, Ten, Seven]);
      m.Keys == {Seven, Jet, Five, Ten} && m[Seven] == 2 && m[Jet] == 1 && m[Five] == 1 && m[Ten] == 1
  {
    ParseCardsFive("7J5T7", Seven, Jet, Five, Ten, Seven);
    CountFive(Seven, Jet, Five, Ten, Seven);
  }

  lemma Type7J5T7(m: map<Card, nat>)
    requires m.Keys == {Seven, Jet, Five, Ten} && m[Seven] == 2 && m[Jet] == 1 && m[Five] == 1 && m[Ten] == 1
    ensures GetType(m) == ThreeOfKind
  {
    ThreeWhen(m, Seven);
  }

  /** Row `JQ478` of the table. */
  lemma CountsJQ478()
    ensures ParseCards("JQ478") == Some([Jet, Queen, Four, Seven, Eight])
    ensures var m := CountMap([Jet, Queen, Four, Seven, Eight]);
      m.Keys == {Jet, Queen, Four, Seven, Eight} && m[Jet] == 1 && m[Queen] == 1 && m[Four] == 1 && m[Seven] == 1 && m[Eight] == 1
  {
    ParseCardsFive("JQ478", Jet, Queen, Four, Seven, Eight);
    CountFive(Jet, Queen, Four, Seven, Eight);
  }

  lemma TypeJQ478(m: map<Card, nat>)
    requires m.Keys == {Jet, Queen, Four, Seven, Eight} && m[Jet] == 1 && m[Queen] == 1 && m[Four] == 1 && m[Seven] == 1 && m[Eight] == 1
    ensures GetType(m) == OnePair
  {
    OnePairWhen(m, Queen);
  }

  /** Row `QQ9QJ` of the table. */
  lemma CountsQQ9QJ()
    ensures ParseCards("QQ9QJ") == Some([Queen, Queen, Nine, Queen, Jet])
    ensures var m := CountMap([Queen, Queen, Nine, Queen, Jet]);
      m.Keys == {Queen, Nine, Jet} && m[Queen] == 3 && m[Nine] == 1 && m[Jet] == 1
  {
    ParseCardsFive("QQ9QJ", Queen, Queen, Nine, Queen, Jet);
    CountFive(Queen, Queen, Nine, Queen, Jet);
  }

  lemma TypeQQ9QJ(m: map<Card, nat>)
    requires m.Keys == {Queen, Nine, Jet} && m[Queen] == 3 && m[Nine] == 1 && m[Jet] == 1
    ensures GetType(m) == FourOfKind
  {
    FourOfKindWhen(m, Queen);
  }

  /** Row `TAJQK` of the table. */
  lemma CountsTAJQK()
    ensures ParseCards("TAJQK") == Some([Ten, Ace, Jet, Queen, King])
    ensures var m := CountMap([Ten, Ace, Jet, Queen, King]);
      m.Keys == {Ten, Ace, Jet, Queen, King} && m[Ten] == 1 && m[Ace] == 1 && m[Jet] == 1 && m[Queen] == 1 && m[King] == 1
  {
    ParseCardsFive("TAJQK", Ten, Ace, Jet, Queen, King);
    CountFive(Ten, Ace, Jet, Queen, King);
  }

  lemma TypeTAJQK(m: map<Card, nat>)
    requires m.Keys == {Ten, Ace, Jet, Queen, King} && m[Ten] == 1 && m[Ace] == 1 && m[Jet] == 1 && m[Queen] == 1 && m[King] == 1
    ensures GetType(m) == OnePair
  {
    OnePairWhen(m, Ten);
  }

  /** Row `J4422` of the table. */
  lemma CountsJ4422()
    ensures ParseCards("J4422") == Some([Jet, Four, Four, Two, Two])
    ensures var m := CountMap([Jet, Four, Four, Two, Two]);
      m.Keys == {Jet, Four, Two} && m[Jet] == 1 && m[Four] == 2 && m[Two] == 2
  {
    ParseCardsFive("J4422", Jet, Four, Four, Two, Two);
    CountFive(Jet, Four, Four, Two, Two);
  }

  lemma TypeJ4422(m: map<Card, nat>)
    requires m.Keys == {Jet, Four, Two} && m[Jet] == 1 && m[Four] == 2 && m[Two] == 2
    ensures GetType(m) == FullHouse
  {
    ThreeWhen(m, Four);
  }

  /** Row `J8JJ6` of the table. */
  lemma CountsJ8JJ6()
    ensures ParseCards("J8JJ6") == Some([Jet, Eight, Jet, Jet, Six])
    ensures var m := CountMap([Jet, Eight, Jet, Jet, Six]);
      m.Keys == {Jet, Eight, Six} && m[Jet] == 3 && m[Eight] == 1 && m[Six] == 1
  {
    ParseCardsFive("J8JJ6", Jet, Eight, Jet, Jet, Six);
    CountFive(Jet, Eight, Jet, Jet, Six);
  }

  lemma TypeJ8JJ6(m: map<Card, nat>)
    requires m.Keys == {Jet, Eight, Six} && m[Jet] == 3 && m[Eight] == 1 && m[Six] == 1
    ensures GetType(m) == FourOfKind
  {
    FourOfKindWhen(m, Eight);
  }

  /** Row `644J6` of the table. */
  lemma Counts644J6()
    ensures ParseCards("644J6") == Some([Six, Four, Four, Jet, Six])
    ensures var m := CountMap([Six, Four, Four, Jet, Six]);
      m.Keys == {Six, Four, Jet} && m[Six] == 2 && m[Four] == 2 && m[Jet] == 1
  {
    ParseCardsFive("644J6", Six, Four, Four, Jet, Six);
    CountFive(Six, Four, Four, Jet, Six);
  }

  lemma Type644J6(m: map<Card, nat>)
    requires m.Keys == {Six, Four, Jet} && m[Six] == 2 && m[Four] == 2 && m[Jet] == 1
    ensures GetType(m) == FullHouse
  {
    ThreeWhen(m, Six);
  }

  /** Row `J3333` of the table. */
  lemma CountsJ3333()
    ensures ParseCards("J3333") == Some([Jet, Three, Three, Three, Three])
    ensures var m := CountMap([Jet, Three, Three, Three, Three]);
      m.Keys == {Jet, Three} && m[Jet] == 1 && m[Three] == 4
  {
    ParseCardsFive("J3333", Jet, Three, Three, Three, Three);
    CountFive(Jet, Three, Three, Three, Three);
  }

  lemma TypeJ3333(m: map<Card, nat>)
    requires m.Keys == {Jet, Three} && m[Jet] == 1 && m[Three] == 4
    ensures GetType(m) == FiveOfKind
  {
    FiveOfKindWhen(m, Three);
  }

  /** Row `J998A` of the table. */
  lemma CountsJ998A()
    ensures ParseCards("J998A") == Some([Jet, Nine, Nine, Eight, Ace])
    ensures var m := CountMap([Jet, Nine, Nine, Eight, Ace]);
      m.Keys == {Jet, Nine, Eight, Ace} && m[Jet] == 1 && m[Nine] == 2 && m[Eight] == 1 && m[Ace] == 1
  {
    ParseCardsFive("J998A", Jet, Nine, Nine, Eight, Ace);
    CountFive(Jet, Nine, Nine, Eight, Ace);
  }

  lemma TypeJ998A(m: map<Card, nat>)
    requires m.Keys == {Jet, Nine, Eight, Ace} && m[Jet] == 1 && m[Nine] == 2 && m[Eight] == 1 && m[Ace] == 1
    ensures GetType(m) == ThreeOfKind
  {
    ThreeWhen(m, Nine);
  }

  // Each row read end to end: the text, parsed, counted and classified,
  // gives the type the table expects.

  lemma Row5J984()
    ensures ParseCards("5J984").Some?
    ensures GetType(CountMap(ParseCards("5J984").value)) == OnePair
  {
    Counts5J984();
    Type5J984(CountMap([Five, Jet, Nine, Eight, Four]));
  }

  lemma Row787J8()
    ensures ParseCards("787J8").Some?
    ensures GetType(CountMap(ParseCards("787J8").value)) == FullHouse
  {
    Counts787J8();
    Type787J8(CountMap([Seven, Eight, Seven, Jet, Eight]));
  }

  lemma Row7JJ77()
    ensures ParseCards("7JJ77").Some?
    ensures GetType(CountMap(ParseCards("7JJ77").value)) == FiveOfKind
  {
    Counts7JJ77();
    Type7JJ77(CountMap([Seven, Jet, Jet, Seven, Seven]));
  }

  lemma RowA7T4J()
    ensures ParseCards("A7T4J").Some?
    ensures GetType(CountMap(ParseCards("A7T4J").value)) == OnePair
  {
    CountsA7T4J();
    TypeA7T4J(CountMap([Ace, Seven, Ten, Four, Jet]));
  }

  lemma RowQ9A7J()
    ensures ParseCards("Q9A7J").Some?
    ensures GetType(CountMap(ParseCards("Q9A7J").value)) == OnePair
  {
    CountsQ9A7J();
    TypeQ9A7J(CountMap([Queen, Nine, Ace, Seven, Jet]));
  }

  lemma Row8J544()
    ensures ParseCards("8J544").Some?
    ensures GetType(CountMap(ParseCards("8J544").value)) == ThreeOfKind
  {
    Counts8J544();
    Type8J544(CountMap([Eight, Jet, Five, Four, Four]));
  }

  lemma Row9JQ44()
    ensures ParseCards("9JQ44").Some?
    ensures GetType(CountMap(ParseCards("9JQ44").value)) == ThreeOfKind
  {
    Counts9JQ44();
    Type9JQ44(CountMap([Nine, Jet, Queen, Four, Four]));
  }

  lemma Row963J5()
    ensures ParseCards("963J5").Some?
    ensures GetType(CountMap(ParseCards("963J5").value)) == OnePair
  {
    Counts963J5();
    Type963J5(CountMap([Nine, Six, Three, Jet, Five]));
  }

  lemma Row7JJ99()
    ensures ParseCards("7JJ99").Some?
    ensures GetType(CountMap(ParseCards("7JJ99").value)) == FourOfKind
  {
    Counts7JJ99();
    Type7JJ99(CountMap([Seven, Jet, Jet, Nine, Nine]));
  }

  lemma RowQ6QQJ()
    ensures ParseCards("Q6QQJ").Some?
    ensures GetType(CountMap(ParseCards("Q6QQJ").value)) == FourOfKind
  {
    CountsQ6QQJ();
    TypeQ6QQJ(CountMap([Queen, Six, Queen, Queen, Jet]));
  }

  lemma Row68J8T()
    ensures ParseCards("68J8T").Some?
    ensures GetType(CountMap(ParseCards("68J8T").value)) == ThreeOfKind
  {
    Counts68J8T();
    Type68J8T(CountMap([Six, Eight, Jet, Eight, Ten]));
  }

  lemma Row5JJK9()
    ensures ParseCards("5JJK9").Some?
    ensures GetType(CountMap(ParseCards("5JJK9").value)) == ThreeOfKind
  {
    Counts5JJK9();
    Type5JJK9(CountMap([Five, Jet, Jet, King, Nine]));
  }

  lemma RowA94AJ()
    ensures ParseCards("A94AJ").Some?
    ensures GetType(CountMap(ParseCards("A94AJ").value)) == ThreeOfKind
  {
    CountsA94AJ();
    TypeA94AJ(CountMap([Ace, Nine, Four, Ace, Jet]));
  }

  lemma Row777J8()
    ensures ParseCards("777J8").Some?
    ensures GetType(CountMap(ParseCards("777J8").value)) == FourOfKind
  {
    Counts777J8();
    Type777J8(CountMap([Seven, Seven, Seven, Jet, Eight]));
  }

  lemma RowJTK7J()
    ensures ParseCards("JTK7J").Some?
    ensures GetType(CountMap(ParseCards("JTK7J").value)) == ThreeOfKind
  {
    CountsJTK7J();
    TypeJTK7J(CountMap([Jet, Ten, King, Seven, Jet]));
  }

  lemma Row96J29()
    ensures ParseCards("96J29").Some?
    ensures GetType(CountMap(ParseCards("96J29").value)) == ThreeOfKind
  {
    Counts96J29();
    Type96J29(CountMap([Nine, Six, Jet, Two, Nine]));
  }

  lemma Row7J44Q()
    ensures ParseCards("7J44Q").Some?
    ensures GetType(CountMap(ParseCards("7J44Q").value)) == ThreeOfKind
  {
    Counts7J44Q();
    Type7J44Q(CountMap([Seven, Jet, Four, Four, Queen]));
  }

  lemma RowT6JT6()
    ensures ParseCards("T6JT6").Some?
    ensures GetType(CountMap(ParseCards("T6JT6").value)) == FullHouse
  {
    CountsT6JT6();
    TypeT6JT6(CountMap([Ten, Six, Jet, Ten, Six]));
  }

  lemma RowT9AAJ()
    ensures ParseCards("T9AAJ").Some?
    ensures GetType(CountMap(ParseCards("T9AAJ").value)) == ThreeOfKind
  {
    CountsT9AAJ();
    TypeT9AAJ(CountMap([Ten, Nine, Ace, Ace, Jet]));
  }

  lemma RowJ5559()
    ensures ParseCards("J5559").Some?
    ensures GetType(CountMap(ParseCards("J5559").value)) == FourOfKind
  {
    CountsJ5559();
    TypeJ5559(CountMap([Jet, Five, Five, Five, Nine]));
  }

  lemma RowT7AJ7()
    ensures ParseCards("T7AJ7").Some?
    ensures GetType(CountMap(ParseCards("T7AJ7").value)) == ThreeOfKind
  {
    CountsT7AJ7();
    TypeT7AJ7(CountMap([Ten, Seven, Ace, Jet, Seven]));
  }

  lemma RowJ7TTK()
    ensures ParseCards("J7TTK").Some?
    ensures GetType(CountMap(ParseCards("J7TTK").value)) == ThreeOfKind
  {
    CountsJ7TTK();
    TypeJ7TTK(CountMap([Jet, Seven, Ten, Ten, King]));
  }

  lemma Row6QJJQ()
    ensures ParseCards("6QJJQ").Some?
    ensures GetType(CountMap(ParseCards("6QJJQ").value)) == FourOfKind
  {
    Counts6QJJQ();
    Type6QJJQ(CountMap([Six, Queen, Jet, Jet, Queen]));
  }

  lemma Row5JJ5J()
    ensures ParseCards("5JJ5J").Some?
    ensures GetType(CountMap(ParseCards("5JJ5J").value)) == FiveOfKind
  {
    Counts5JJ5J();
    Type5JJ5J(CountMap([Five, Jet, Jet, Five, Jet]));
  }

  lemma Row6QJJ6()
    ensures ParseCards("6QJJ6").Some?
    ensures GetType(CountMap(ParseCards("6QJJ6").value)) == FourOfKind
  {
    Counts6QJJ6();
    Type6QJJ6(CountMap([Six, Queen, Jet, Jet, Six]));
  }

  lemma RowT7J77()
    ensures ParseCards("T7J77").Some?
    ensures GetType(CountMap(ParseCards("T7J77").value)) == FourOfKind
  {
    CountsT7J77();
    TypeT7J77(CountMap([Ten, Seven, Jet, Seven, Seven]));
  }

  lemma Row7J5T7()
    ensures ParseCards("7J5T7").Some?
    ensures GetType(CountMap(ParseCards("7J5T7").value)) == ThreeOfKind
  {
    Counts7J5T7();
    Type7J5T7(CountMap([Seven, Jet, Five, Ten, Seven]));
  }

  lemma RowJQ478()
    ensures ParseCards("JQ478").Some?
    ensures GetType(CountMap(ParseCards("JQ478").value)) == OnePair
  {
    CountsJQ478();
    TypeJQ478(CountMap([Jet, Queen, Four, Seven, Eight]));
  }

  lemma RowQQ9QJ()
    ensures ParseCards("QQ9QJ").Some?
    ensures GetType(CountMap(ParseCards("QQ9QJ").value)) == FourOfKind
  {
    CountsQQ9QJ();
    TypeQQ9QJ(CountMap([Queen, Queen, Nine, Queen, Jet]));
  }

  lemma RowTAJQK()
    ensures ParseCards("TAJQK").Some?
    ensures GetType(CountMap(ParseCards("TAJQK").value)) == OnePair
  {
    CountsTAJQK();
    TypeTAJQK(CountMap([Ten, Ace, Jet, Queen, King]));
  }

  lemma RowJ4422()
    ensures ParseCards("J4422").Some?
    ensures GetType(CountMap(ParseCards("J4422").value)) == FullHouse
  {
    CountsJ4422();
    TypeJ4422(CountMap([Jet, Four, Four, Two, Two]));
  }

  lemma RowJ8JJ6()
    ensures ParseCards("J8JJ6").Some?
    ensures GetType(CountMap(ParseCards("J8JJ6").value)) == FourOfKind
  {
    CountsJ8JJ6();
    TypeJ8JJ6(CountMap([Jet, Eight, Jet, Jet, Six]));
  }

  lemma Row644J6()
    ensures ParseCards("644J6").Some?
    ensures GetType(CountMap(ParseCards("644J6").value)) == FullHouse
  {
    Counts644J6();
    Type644J6(CountMap([Six, Four, Four, Jet, Six]));
  }

  lemma RowJ3333()
    ensures ParseCards("J3333").Some?
    ensures GetType(CountMap(ParseCards("J3333").value)) == FiveOfKind
  {
    CountsJ3333();
    TypeJ3333(CountMap([Jet, Three, Three, Three, Three]));
  }

  lemma RowJ998A()
    ensures ParseCards("J998A").Some?
    ensures GetType(CountMap(ParseCards("J998A").value)) == ThreeOfKind
  {
    CountsJ998A();
    TypeJ998A(CountMap([Jet, Nine, Nine, Eight, Ace]));
  }
}
