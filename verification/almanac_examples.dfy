/** The almanac's small worked example: its seed-to-soil table, the
    translation of single seeds and of one seed range. */
module AlmanacExamples {
  import opened Wrappers
  import opened Intervals
  import opened Almanac
  import opened RangeRemap

  /** The rules `50 98 2` and `52 50 48`, in that order. */
  function SeedToSoil(): seq<MappingRule> {
    [MappingRule(Range(98, 100), Range(50, 52)), MappingRule(Range(50, 98), Range(52, 100))]
  }

  /** Rule lines read as the almanac prints them. */
  lemma FirstRuleLine()
    ensures ParseRule(RuleLine(50, 98, 2)) == Some(SeedToSoil()[0])
  {
    ParseRuleLine(50, 98, 2);
  }

  lemma SecondRuleLine()
    ensures ParseRule(RuleLine(52, 50, 48)) == Some(SeedToSoil()[1])
  {
    ParseRuleLine(52, 50, 48);
  }

  /** Seeds 79, 14, 55 and 13 land on soils 81, 14, 57 and 13. */
  lemma SeedToSoilPoints()
    ensures MappingTranslate(SeedToSoil(), 79) == 81
    ensures MappingTranslate(SeedToSoil(), 14) == 14
    ensures MappingTranslate(SeedToSoil(), 55) == 57
    ensures MappingTranslate(SeedToSoil(), 13) == 13
    ensures MappingTranslate(SeedToSoil(), 98) == 50
    ensures MappingTranslate(SeedToSoil(), 100) == 100
  {
  }

  /** The seed range `79 14` misses the first rule and falls wholly inside
      the second, so it comes out shifted by two. */
  lemma SeedRangeOfPair()
    ensures SeedPairs([79, 14]) == Some([Range(79, 93)])
  {
    var seeds := [79, 14];
    assert seeds[2..] == [];
    assert SeedPairs(seeds[2..]) == Some([]);
    assert [Range(79, 79 + 14)] + [] == [Range(79, 93)];
  }

  lemma SeedRangeThroughSeedToSoil()
    ensures ApplyStage(SeedToSoil(), [Range(79, 93)]) == [Range(81, 95)]
  {
    var rules, rs := SeedToSoil(), [Range(79, 93)];
    assert rs[..0] == [];
    assert LeftoversAll(rs, rules[0]) == rs;
    assert MatchedAll(rs, rules[0]) == [];
    assert LeftoversAll(rs, rules[1]) == [];
    assert MatchedAll(rs, rules[1]) == [Range(81, 95)];
    assert rules[1..][1..] == [];
    assert Converted(rules[1..], rs) == [Range(81, 95)];
    assert Unconverted(rules[1..], rs) == [];
  }

  /** A range straddling both rules is cut in two converted pieces and a
      leftover past the first rule's source. */
  lemma StraddlingRange()
    ensures ApplyStage(SeedToSoil(), [Range(90, 105)]) == [Range(50, 52), Range(92, 100), Range(100, 105)]
  {
    var rules, rs := SeedToSoil(), [Range(90, 105)];
    var rest := [Range(90, 98), Range(100, 105)];
    assert rs[..0] == [];
    assert LeftoversAll(rs, rules[0]) == rest;
    assert MatchedAll(rs, rules[0]) == [Range(50, 52)];
    assert rest[..1] == [Range(90, 98)] && rest[..1][..0] == [];
    assert LeftoversAll(rest, rules[1]) == [Range(100, 105)];
    assert MatchedAll(rest, rules[1]) == [Range(92, 100)];
    assert rules[1..][1..] == [];
  }

  /** When rules overlap, the earlier one wins, for points and ranges alike. */
  lemma FirstRuleWins()
    ensures MappingTranslate([MappingRule(Range(0, 10), Range(100, 110)), MappingRule(Range(5, 15), Range(200, 210))], 7) == 107
    ensures ApplyStage([MappingRule(Range(0, 10), Range(100, 110)), MappingRule(Range(5, 15), Range(200, 210))], [Range(7, 8)])
            == [Range(107, 108)]
  {
    var rules := [MappingRule(Range(0, 10), Range(100, 110)), MappingRule(Range(5, 15), Range(200, 210))];
    var rs := [Range(7, 8)];
    assert rs[..0] == [];
    assert LeftoversAll(rs, rules[0]) == [];
    assert MatchedAll(rs, rules[0]) == [Range(107, 108)];
    assert LeftoversAll([], rules[1]) == [] && MatchedAll([], rules[1]) == [];
    assert rules[1..][1..] == [];
  }

  /** A rule of length zero strictly inside a range splits it, without
      converting or losing any value. */
  lemma ZeroLengthRuleSplits()
    ensures ApplyStage([MappingRule(Range(5, 5), Range(40, 40))], [Range(0, 10)]) == [Range(0, 5), Range(5, 10)]
  {
    var rules, rs := [MappingRule(Range(5, 5), Range(40, 40))], [Range(0, 10)];
    assert rs[..0] == [];
    assert LeftoversAll(rs, rules[0]) == [Range(0, 5), Range(5, 10)];
    assert MatchedAll(rs, rules[0]) == [];
    assert rules[1..] == [];
  }
}
