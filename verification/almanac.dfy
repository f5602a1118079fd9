/** The almanac's translation rules (day5/src/main.rs): one rule moves the
    values of a source range to the same position in a destination range; a
    mapping is an ordered list of rules, and a value no rule claims keeps its
    number. Part one pushes single seeds through every mapping in turn. */
module Almanac {
  import opened Wrappers
  import opened Intervals
  import Text

  /** `MappingRule`: the destination and source ranges of one rule line. */
  datatype MappingRule = MappingRule(source: Range, destination: Range)

  /** A rule from a line whose length field is non-negative: both ranges well
      formed and of the same length. */
  predicate WellFormedRule(rule: MappingRule) {
    rule.source.WellFormed() && rule.destination.Length() == rule.source.Length()
  }

  predicate WellFormedRules(rules: seq<MappingRule>) {
    forall i :: 0 <= i < |rules| ==> rules[i].source.WellFormed()
  }

  /** `dst.start - src.start`: the shift a rule applies. */
  function Offset(rule: MappingRule): int {
    rule.destination.start - rule.source.start
  }

  /** `MappingRule::from_string`: trim, split on spaces, drop empty tokens,
      parse every token as an integer (a bad token panics), and insist on
      exactly three numbers `dst src len` (anything else panics). */
  function ParseRule(line: string): (r: Option<MappingRule>)
    ensures r.Some? <==> |Text.Words(Text.Trim(line))| == 3 && Text.ParseInts(Text.Words(Text.Trim(line))).Some?
    ensures r.Some? ==> r.value.destination.Length() == r.value.source.Length()
  {
    match Text.ParseInts(Text.Words(Text.Trim(line)))
    case None => None
    case Some(ns) => RuleOfNumbers(ns)
  }

  /** The rule of the numbers `dst src len` of one line. */
  function RuleOfNumbers(ns: seq<int>): (r: Option<MappingRule>)
    ensures r.Some? <==> |ns| == 3
  {
    if |ns| != 3 then None
    else Some(MappingRule(Range(ns[1], ns[1] + ns[2]), Range(ns[0], ns[0] + ns[2])))
  }

  /** A rule line as the almanac prints it: `dst src len`. */
  function RuleLine(dst: nat, src: nat, len: nat): string {
    Text.Join([Text.Decimal(dst), Text.Decimal(src), Text.Decimal(len)], ' ')
  }

  /** Reading a printed rule line gives back the rule it describes: the
      destination is `[dst, dst+len)` and the source `[src, src+len)`. */
  lemma ParseRuleLine(dst: nat, src: nat, len: nat)
    ensures ParseRule(RuleLine(dst, src, len))
            == Some(MappingRule(Range(src, src + len), Range(dst, dst + len)))
  {
    var a, b, c := Text.Decimal(dst), Text.Decimal(src), Text.Decimal(len);
    Text.DigitsHaveNoSpace(a);
    Text.DigitsHaveNoSpace(b);
    Text.DigitsHaveNoSpace(c);
    Text.WordsOfJoin([a, b, c]);
    Text.ParseNatDecimal(dst);
    Text.ParseNatDecimal(src);
    Text.ParseNatDecimal(len);
    ParseRuleTokens(RuleLine(dst, src, len), a, b, c, dst, src, len);
  }

  lemma ParseRuleTokens(line: string, a: string, b: string, c: string, x: int, y: int, z: int)
    requires Text.Words(Text.Trim(line)) == [a, b, c]
    requires Text.ParseInt(a) == Some(x) && Text.ParseInt(b) == Some(y) && Text.ParseInt(c) == Some(z)
    ensures ParseRule(line) == Some(MappingRule(Range(y, y + z), Range(x, x + z)))
  {
    ParseThreeInts(a, b, c, x, y, z);
    assert Text.ParseInts(Text.Words(Text.Trim(line))) == Some([x, y, z]);
    assert ParseRule(line) == RuleOfNumbers([x, y, z]);
    RuleOfThree(x, y, z);
  }

  lemma RuleOfThree(x: int, y: int, z: int)
    ensures RuleOfNumbers([x, y, z]) == Some(MappingRule(Range(y, y + z), Range(x, x + z)))
  {
    var ns := [x, y, z];
    assert ns[0] == x && ns[1] == y && ns[2] == z;
  }

  lemma ParseThreeInts(a: string, b: string, c: string, x: int, y: int, z: int)
    requires Text.ParseInt(a) == Some(x) && Text.ParseInt(b) == Some(y) && Text.ParseInt(c) == Some(z)
    ensures Text.ParseInts([a, b, c]) == Some([x, y, z])
  {
    var tokens := [a, b, c];
    assert tokens[0] == a && tokens[1] == b && tokens[2] == c;
    var ns := Text.ParseInts(tokens);
    assert ns.Some?;
    assert ns.value[0] == x && ns.value[1] == y && ns.value[2] == z;
    assert ns.value == [x, y, z];
  }

  /** A line with two numbers is refused, as by the `panic!` in the source. */
  lemma ParseRuleTwoNumbers(dst: nat, src: nat)
    ensures ParseRule(Text.Join([Text.Decimal(dst), Text.Decimal(src)], ' ')) == None
  {
    TwoNumerals(Text.Decimal(dst), Text.Decimal(src));
  }

  lemma TwoNumerals(a: string, b: string)
    requires |a| >= 1 && Text.AllDigits(a) && |b| >= 1 && Text.AllDigits(b)
    ensures |Text.Words(Text.Trim(Text.Join([a, b], ' ')))| == 2
  {
    var parts := [a, b];
    Text.DigitsHaveNoSpace(a);
    Text.DigitsHaveNoSpace(b);
    assert parts[0] == a && parts[1] == b;
    Text.WordsOfJoin(parts);
  }

  /** `MappingRule::translate`: the value at the same position in the
      destination, when the source holds `v`. */
  function Translate(rule: MappingRule, v: int): (r: Option<int>)
    ensures r.Some? <==> rule.source.Contains(v)
    ensures r.Some? ==> r.value - rule.destination.start == v - rule.source.start
    ensures r.Some? && WellFormedRule(rule) ==> rule.destination.Contains(r.value)
  {
    if !rule.source.Contains(v) then None
    else Some(rule.destination.start + (v - rule.source.start))
  }

  /** The translation of the first rule, in declaration order, whose source
      holds `v`. */
  function FirstMatch(rules: seq<MappingRule>, v: int): Option<int> {
    if rules == [] then None
    else match Translate(rules[0], v)
      case Some(w) => Some(w)
      case None => FirstMatch(rules[1..], v)
  }

  /** What `InformationMapping::translate` computes: the first matching
      rule's translation, or `v` itself when no rule matches. */
  function MappingTranslate(rules: seq<MappingRule>, v: int): int {
    FirstMatch(rules, v).GetOr(v)
  }

  /** First-match characterisation: `FirstMatch` is the translation by the
      lowest-indexed rule whose source holds `v`, and there is none exactly
      when no rule's source holds `v`. */
  lemma {:induction false} FirstMatchIsFirst(rules: seq<MappingRule>, v: int)
    ensures FirstMatch(rules, v).None? <==>
              forall i :: 0 <= i < |rules| ==> !rules[i].source.Contains(v)
    ensures forall i :: 0 <= i < |rules| && rules[i].source.Contains(v)
              && (forall j :: 0 <= j < i ==> !rules[j].source.Contains(v))
              ==> FirstMatch(rules, v) == Translate(rules[i], v)
  {
    if rules != [] {
      FirstMatchIsFirst(rules[1..], v);
      if !rules[0].source.Contains(v) {
        forall i | 0 < i < |rules| && rules[i].source.Contains(v)
            && (forall j :: 0 <= j < i ==> !rules[j].source.Contains(v))
          ensures FirstMatch(rules, v) == Translate(rules[i], v)
        {
          assert rules[1..][i - 1] == rules[i];
          forall j | 0 <= j < i - 1 ensures !rules[1..][j].source.Contains(v) {
            assert rules[1..][j] == rules[j + 1];
          }
        }
      }
    }
  }

  /** `InformationMapping::translate`: a loop over the rules that returns on
      the first match. */
  method TranslateValue(rules: seq<MappingRule>, v: int) returns (r: int)
    ensures r == MappingTranslate(rules, v)
    ensures (forall i :: 0 <= i < |rules| ==> !rules[i].source.Contains(v)) ==> r == v
    ensures forall i :: 0 <= i < |rules| && rules[i].source.Contains(v)
              && (forall j :: 0 <= j < i ==> !rules[j].source.Contains(v))
              ==> r == rules[i].destination.start + (v - rules[i].source.start)
  {
    FirstMatchIsFirst(rules, v);
    for k := 0 to |rules|
      invariant forall j :: 0 <= j < k ==> !rules[j].source.Contains(v)
      invariant FirstMatch(rules, v) == FirstMatch(rules[k..], v)
    {
      match Translate(rules[k], v)
      case Some(w) =>
        return w;
      case None =>
        assert rules[k..][1..] == rules[k + 1..];
    }
    r := v;
  }

  /** A value pushed through a chain of mappings, left to right. */
  function RemapPoint(mappings: seq<seq<MappingRule>>, v: int): int {
    if mappings == [] then v else RemapPoint(mappings[1..], MappingTranslate(mappings[0], v))
  }

  /** `riddle_part_one`: every seed is pushed through every mapping and the
      smallest location is reported; with no seeds, `min().unwrap()`
      panics. */
  method LowestLocation(seeds: seq<int>, mappings: seq<seq<MappingRule>>) returns (lowest: Option<int>)
    ensures lowest.None? <==> seeds == []
    ensures lowest.Some? ==>
              (exists i :: 0 <= i < |seeds| && lowest.value == RemapPoint(mappings, seeds[i]))
              && forall i :: 0 <= i < |seeds| ==> lowest.value <= RemapPoint(mappings, seeds[i])
  {
    var locations: seq<int> := [];
    for s := 0 to |seeds|
      invariant |locations| == s
      invariant forall i :: 0 <= i < s ==> locations[i] == RemapPoint(mappings, seeds[i])
    {
      var destination := seeds[s];
      for m := 0 to |mappings|
        invariant RemapPoint(mappings, seeds[s]) == RemapPoint(mappings[m..], destination)
      {
        destination := TranslateValue(mappings[m], destination);
        assert mappings[m..][1..] == mappings[m + 1..];
      }
      locations := locations + [destination];
    }
    if locations == [] {
      return None;
    }
    var least := locations[0];
    for i := 1 to |locations|
      invariant exists k :: 0 <= k < i && least == locations[k]
      invariant forall k :: 0 <= k < i ==> least <= locations[k]
    {
      if locations[i] < least {
        least := locations[i];
      }
    }
    lowest := Some(least);
  }
}
