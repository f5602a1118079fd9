/** The seed-range engine of part two (day5/src/main.rs): each stage splits
    every working range against every rule into the piece before the rule's
    source, the overlap and the piece after it; overlaps are shifted into the
    destination and set aside as converted, the two outer pieces go on to
    the next rule, and what is left after the last rule passes unchanged. */
module RangeRemap {
  import opened Wrappers
  import opened Intervals
  import opened Almanac

  /** Some range of `rs` holds `v`. */
  predicate Covers(rs: seq<Range>, v: int) {
    exists r :: r in rs && r.Contains(v)
  }

  predicate AllWellFormed(rs: seq<Range>) {
    forall r :: r in rs ==> r.WellFormed()
  }

  /** Only ranges with `end > start` are ever stored. */
  predicate AllNonEmpty(rs: seq<Range>) {
    forall r :: r in rs ==> r.NonEmpty()
  }

  predicate WellFormedStages(stages: seq<seq<MappingRule>>) {
    forall k :: 0 <= k < |stages| ==> WellFormedRules(stages[k])
  }

  /** Sum of the lengths of the ranges. */
  function TotalLength(rs: seq<Range>): int {
    if rs == [] then 0 else TotalLength(rs[..|rs| - 1]) + rs[|rs| - 1].Length()
  }

  lemma {:induction false} TotalLengthConcat(a: seq<Range>, b: seq<Range>)
    ensures TotalLength(a + b) == TotalLength(a) + TotalLength(b)
    decreases |b|
  {
    if b != [] {
      assert (a + b)[..|a + b| - 1] == a + b[..|b| - 1];
      TotalLengthConcat(a, b[..|b| - 1]);
    } else {
      assert a + b == a;
    }
  }

  lemma CoversConcat(a: seq<Range>, b: seq<Range>, v: int)
    ensures Covers(a + b, v) <==> Covers(a, v) || Covers(b, v)
  {
    if Covers(a + b, v) {
      var r :| r in a + b && r.Contains(v);
      assert r in a || r in b;
    }
    if Covers(a, v) {
      var r :| r in a && r.Contains(v);
      assert r in a + b;
    }
    if Covers(b, v) {
      var r :| r in b && r.Contains(v);
      assert r in a + b;
    }
  }

  /** `[r]` when `r` is non-empty, nothing otherwise: the guarded `push`. */
  function Keep(r: Range): seq<Range> {
    if r.NonEmpty() then [r] else []
  }

  /** The guarded push keeps only non-empty ranges and drops no value: a
      well-formed range it drops has length zero. */
  lemma KeepFacts(r: Range)
    ensures AllNonEmpty(Keep(r))
    ensures r.WellFormed() ==> TotalLength(Keep(r)) == r.Length()
    ensures forall v :: Covers(Keep(r), v) <==> r.Contains(v)
  {
    if r.NonEmpty() {
      assert [r][..0] == [];
      assert r in [r];
    }
  }

  /** The overlap of `r` with the rule's source, shifted by the rule's
      offset, when it is non-empty. */
  function Matched(r: Range, rule: MappingRule): seq<Range> {
    var ov := Overlap(r, rule.source);
    if ov.NonEmpty() then [Range(ov.start + Offset(rule), ov.end + Offset(rule))] else []
  }

  /** The non-empty pieces of `r` before and after the overlap. */
  function Leftovers(r: Range, rule: MappingRule): seq<Range> {
    var ov := Overlap(r, rule.source);
    Keep(Left(r, ov)) + Keep(Right(r, ov))
  }

  /** Both kinds of piece are non-empty ranges. */
  lemma PiecesNonEmpty(r: Range, rule: MappingRule)
    ensures AllNonEmpty(Matched(r, rule)) && AllNonEmpty(Leftovers(r, rule))
  {
    var ov := Overlap(r, rule.source);
    KeepFacts(Left(r, ov));
    KeepFacts(Right(r, ov));
    var l, m := Keep(Left(r, ov)), Keep(Right(r, ov));
    assert forall x :: x in l + m ==> x in l || x in m;
  }

  /** One range against one rule: the leftovers hold exactly the values of
      `r` outside the source, the shifted overlap exactly the images of the
      values of `r` inside it, and no length is lost. */
  lemma PiecesOfRange(r: Range, rule: MappingRule)
    requires r.WellFormed() && rule.source.WellFormed()
    ensures forall v :: Covers(Leftovers(r, rule), v) <==> r.Contains(v) && !rule.source.Contains(v)
    ensures forall v :: Covers(Matched(r, rule), v + Offset(rule)) <==> r.Contains(v) && rule.source.Contains(v)
    ensures TotalLength(Matched(r, rule)) + TotalLength(Leftovers(r, rule)) == r.Length()
  {
    var ov := Overlap(r, rule.source);
    SplitPartitions(r, rule.source);
    OverlapIsIntersection(r, rule.source);
    KeepFacts(Left(r, ov));
    KeepFacts(Right(r, ov));
    var l, m := Keep(Left(r, ov)), Keep(Right(r, ov));
    forall v ensures Covers(l + m, v) <==> Covers(l, v) || Covers(m, v) {
      CoversConcat(l, m, v);
    }
    TotalLengthConcat(l, m);
    var off := Offset(rule);
    forall v ensures Covers(Matched(r, rule), v + off) <==> r.Contains(v) && rule.source.Contains(v) {
      if ov.NonEmpty() {
        var s := Range(ov.start + off, ov.end + off);
        assert Matched(r, rule) == [s];
        if s.Contains(v + off) {
          assert s in Matched(r, rule);
        }
      }
    }
    if ov.NonEmpty() {
      assert TotalLength(Matched(r, rule)) == TotalLength([]) + ov.Length();
    }
  }

  /** A range that does not overlap the rule's non-empty source is carried
      to the unconverted list unchanged, and nothing of it is converted. */
  lemma NoOverlapCarried(r: Range, rule: MappingRule)
    requires r.NonEmpty() && rule.source.NonEmpty()
    requires !Overlap(r, rule.source).NonEmpty()
    ensures Leftovers(r, rule) == [r]
    ensures Matched(r, rule) == []
  {
    var ov := Overlap(r, rule.source);
    if r.start < rule.source.end && r.end >= rule.source.start {
      assert r.end == rule.source.start;
      assert Keep(Left(r, ov)) == [r];
      assert Keep(Right(r, ov)) == [];
    } else {
      assert Keep(Left(r, ov)) == [];
      assert Keep(Right(r, ov)) == [r];
    }
  }

  /** The leftovers of every range of `rs` against one rule, in the order
      the inner loop pushes them onto `new_unconverted`. */
  function LeftoversAll(rs: seq<Range>, rule: MappingRule): seq<Range> {
    if rs == [] then [] else LeftoversAll(rs[..|rs| - 1], rule) + Leftovers(rs[|rs| - 1], rule)
  }

  /** The shifted overlaps of every range of `rs` with one rule, in the
      order the inner loop pushes them onto `converted`. */
  function MatchedAll(rs: seq<Range>, rule: MappingRule): seq<Range> {
    if rs == [] then [] else MatchedAll(rs[..|rs| - 1], rule) + Matched(rs[|rs| - 1], rule)
  }

  lemma AllNonEmptyConcat(a: seq<Range>, b: seq<Range>)
    requires AllNonEmpty(a) && AllNonEmpty(b)
    ensures AllNonEmpty(a + b)
  {
    assert forall x :: x in a + b ==> x in a || x in b;
  }

  /** Whatever the working list, one rule produces only non-empty pieces. */
  lemma {:induction false} AllPiecesNonEmpty(rs: seq<Range>, rule: MappingRule)
    ensures AllNonEmpty(LeftoversAll(rs, rule)) && AllNonEmpty(MatchedAll(rs, rule))
  {
    if rs != [] {
      AllPiecesNonEmpty(rs[..|rs| - 1], rule);
      PiecesNonEmpty(rs[|rs| - 1], rule);
      AllNonEmptyConcat(LeftoversAll(rs[..|rs| - 1], rule), Leftovers(rs[|rs| - 1], rule));
      AllNonEmptyConcat(MatchedAll(rs[..|rs| - 1], rule), Matched(rs[|rs| - 1], rule));
    }
  }

  /** One more range of the working list adds its own pieces at the end. */
  lemma PiecesSnoc(rs: seq<Range>, i: int, rule: MappingRule)
    requires 0 <= i < |rs|
    ensures MatchedAll(rs[..i + 1], rule) == MatchedAll(rs[..i], rule) + Matched(rs[i], rule)
    ensures LeftoversAll(rs[..i + 1], rule) == LeftoversAll(rs[..i], rule) + Leftovers(rs[i], rule)
  {
    assert rs[..i + 1][..i] == rs[..i];
  }

  lemma Associative(a: seq<Range>, b: seq<Range>, c: seq<Range>)
    ensures (a + b) + c == a + (b + c)
  {
  }

  lemma CoversLast(rs: seq<Range>, v: int)
    requires rs != []
    ensures Covers(rs, v) <==> Covers(rs[..|rs| - 1], v) || rs[|rs| - 1].Contains(v)
  {
    assert rs == rs[..|rs| - 1] + [rs[|rs| - 1]];
    CoversConcat(rs[..|rs| - 1], [rs[|rs| - 1]], v);
    assert Covers([rs[|rs| - 1]], v) <==> rs[|rs| - 1].Contains(v) by {
      if rs[|rs| - 1].Contains(v) {
        assert rs[|rs| - 1] in [rs[|rs| - 1]];
      }
    }
  }

  /** One rule against the whole working list: the leftovers cover exactly
      the covered values outside the rule's source, the converted pieces
      exactly their translations inside it, and the total length is
      conserved. */
  lemma {:induction false} RuleStep(rs: seq<Range>, rule: MappingRule, v: int)
    requires AllWellFormed(rs) && rule.source.WellFormed()
    ensures Covers(LeftoversAll(rs, rule), v) <==> Covers(rs, v) && !rule.source.Contains(v)
    ensures Covers(MatchedAll(rs, rule), v + Offset(rule)) <==> Covers(rs, v) && rule.source.Contains(v)
    ensures TotalLength(MatchedAll(rs, rule)) + TotalLength(LeftoversAll(rs, rule)) == TotalLength(rs)
  {
    if rs != [] {
      var init, last := rs[..|rs| - 1], rs[|rs| - 1];
      assert last in rs;
      assert AllWellFormed(init) by {
        forall r | r in init ensures r.WellFormed() {
          assert r in rs;
        }
      }
      RuleStep(init, rule, v);
      PiecesOfRange(last, rule);
      CoversLast(rs, v);
      CoversConcat(LeftoversAll(init, rule), Leftovers(last, rule), v);
      CoversConcat(MatchedAll(init, rule), Matched(last, rule), v + Offset(rule));
      TotalLengthConcat(LeftoversAll(init, rule), Leftovers(last, rule));
      TotalLengthConcat(MatchedAll(init, rule), Matched(last, rule));
    }
  }

  /** Everything set aside as converted while the rules run in order. */
  function Converted(rules: seq<MappingRule>, rs: seq<Range>): seq<Range> {
    if rules == [] then []
    else MatchedAll(rs, rules[0]) + Converted(rules[1..], LeftoversAll(rs, rules[0]))
  }

  /** What is still unconverted after the last rule. */
  function Unconverted(rules: seq<MappingRule>, rs: seq<Range>): seq<Range> {
    if rules == [] then rs else Unconverted(rules[1..], LeftoversAll(rs, rules[0]))
  }

  /** One stage (one `InformationMapping`): `converted ++ unconverted`. */
  function ApplyStage(rules: seq<MappingRule>, rs: seq<Range>): seq<Range> {
    Converted(rules, rs) + Unconverted(rules, rs)
  }

  /** Stored ranges are never empty: a stage's output is all non-empty when
      its input is, and whatever the input when the stage has a rule. */
  lemma {:induction false} StageNonEmpty(rules: seq<MappingRule>, rs: seq<Range>)
    ensures AllNonEmpty(Converted(rules, rs))
    ensures rules != [] || AllNonEmpty(rs) ==> AllNonEmpty(Unconverted(rules, rs))
    ensures rules != [] || AllNonEmpty(rs) ==> AllNonEmpty(ApplyStage(rules, rs))
  {
    if rules != [] {
      var rest := LeftoversAll(rs, rules[0]);
      AllPiecesNonEmpty(rs, rules[0]);
      StageNonEmpty(rules[1..], rest);
      AllNonEmptyConcat(MatchedAll(rs, rules[0]), Converted(rules[1..], rest));
    }
    if rules != [] || AllNonEmpty(rs) {
      AllNonEmptyConcat(Converted(rules, rs), Unconverted(rules, rs));
    }
  }

  lemma LeftoversWellFormed(rs: seq<Range>, rule: MappingRule)
    ensures AllWellFormed(LeftoversAll(rs, rule))
  {
    AllPiecesNonEmpty(rs, rule);
  }

  /** A stage conserves the total length of its well-formed input. */
  lemma {:induction false} StageLength(rules: seq<MappingRule>, rs: seq<Range>)
    requires AllWellFormed(rs) && WellFormedRules(rules)
    ensures TotalLength(ApplyStage(rules, rs)) == TotalLength(rs)
  {
    if rules != [] {
      var rest := LeftoversAll(rs, rules[0]);
      RuleStep(rs, rules[0], 0);
      LeftoversWellFormed(rs, rules[0]);
      StageLength(rules[1..], rest);
      TotalLengthConcat(MatchedAll(rs, rules[0]), Converted(rules[1..], rest));
      TotalLengthConcat(Converted(rules, rs), Unconverted(rules, rs));
      TotalLengthConcat(Converted(rules[1..], rest), Unconverted(rules[1..], rest));
    } else {
      assert ApplyStage(rules, rs) == rs;
    }
  }

  /** Range semantics agree with point semantics, forwards: every value of
      an input range is translated, by `InformationMapping::translate`, into
      some output range of the stage. */
  lemma {:induction false} StageForward(rules: seq<MappingRule>, rs: seq<Range>, v: int)
    requires AllWellFormed(rs) && WellFormedRules(rules)
    requires Covers(rs, v)
    ensures Covers(ApplyStage(rules, rs), MappingTranslate(rules, v))
  {
    if rules == [] {
      assert ApplyStage(rules, rs) == rs;
    } else {
      var rule, rest := rules[0], LeftoversAll(rs, rules[0]);
      var m, cu := MatchedAll(rs, rule), ApplyStage(rules[1..], rest);
      assert ApplyStage(rules, rs) == m + cu;
      CoversConcat(m, cu, MappingTranslate(rules, v));
      TranslateFirstRule(rules, v);
      RuleStep(rs, rule, v);
      if !rule.source.Contains(v) {
        assert WellFormedRules(rules[1..]);
        LeftoversWellFormed(rs, rule);
        StageForward(rules[1..], rest, v);
      }
    }
  }

  /** The point translation tries the first rule, then the others. */
  lemma TranslateFirstRule(rules: seq<MappingRule>, v: int)
    requires rules != []
    ensures rules[0].source.Contains(v) ==> MappingTranslate(rules, v) == v + Offset(rules[0])
    ensures !rules[0].source.Contains(v) ==> MappingTranslate(rules, v) == MappingTranslate(rules[1..], v)
  {
  }

  /** A value of an overlap moved by the first rule is that rule's
      translation of a value of the input. */
  lemma MatchedBackward(rules: seq<MappingRule>, rs: seq<Range>, w: int)
    requires rules != [] && AllWellFormed(rs) && rules[0].source.WellFormed()
    requires Covers(MatchedAll(rs, rules[0]), w)
    ensures exists v :: Covers(rs, v) && MappingTranslate(rules, v) == w
  {
    var v := w - Offset(rules[0]);
    RuleStep(rs, rules[0], v);
    TranslateFirstRule(rules, v);
    assert Covers(rs, v) && MappingTranslate(rules, v) == w;
  }

  /** Range semantics agree with point semantics, backwards: every value of
      an output range is the translation of some value of an input range. */
  lemma {:induction false} StageBackward(rules: seq<MappingRule>, rs: seq<Range>, w: int)
    requires AllWellFormed(rs) && WellFormedRules(rules)
    requires Covers(ApplyStage(rules, rs), w)
    ensures exists v :: Covers(rs, v) && MappingTranslate(rules, v) == w
  {
    if rules == [] {
      assert ApplyStage(rules, rs) == rs;
      assert MappingTranslate(rules, w) == w;
    } else {
      var rule, rest := rules[0], LeftoversAll(rs, rules[0]);
      var m, c, u := MatchedAll(rs, rule), Converted(rules[1..], rest), Unconverted(rules[1..], rest);
      assert ApplyStage(rules, rs) == m + (c + u);
      CoversConcat(m, c + u, w);
      if Covers(m, w) {
        MatchedBackward(rules, rs, w);
      } else {
        LeftoversWellFormed(rs, rule);
        StageBackward(rules[1..], rest, w);
        var v :| Covers(rest, v) && MappingTranslate(rules[1..], v) == w;
        RuleStep(rs, rule, v);
        assert MappingTranslate(rules, v) == w;
      }
    }
  }

  /** The seed ranges pushed through every stage in turn. */
  function RemapRanges(stages: seq<seq<MappingRule>>, rs: seq<Range>): seq<Range> {
    if stages == [] then rs else RemapRanges(stages[1..], ApplyStage(stages[0], rs))
  }

  /** The whole chain of stages: the output ranges hold exactly the values
      part one's point translation gives for the values of the input
      ranges, no length is lost, and non-empty input stays non-empty. */
  lemma {:induction false} RemapExact(stages: seq<seq<MappingRule>>, rs: seq<Range>)
    requires AllWellFormed(rs) && WellFormedStages(stages)
    ensures forall v :: Covers(rs, v) ==> Covers(RemapRanges(stages, rs), RemapPoint(stages, v))
    ensures forall w :: Covers(RemapRanges(stages, rs), w) ==>
              exists v :: Covers(rs, v) && RemapPoint(stages, v) == w
    ensures TotalLength(RemapRanges(stages, rs)) == TotalLength(rs)
    ensures AllNonEmpty(rs) ==> AllNonEmpty(RemapRanges(stages, rs))
  {
    if stages != [] {
      var next := ApplyStage(stages[0], rs);
      assert WellFormedRules(stages[0]);
      assert WellFormedStages(stages[1..]) by {
        forall k | 0 <= k < |stages| - 1 ensures WellFormedRules(stages[1..][k]) {
          assert stages[1..][k] == stages[k + 1];
        }
      }
      StageNonEmpty(stages[0], rs);
      assert AllNonEmpty(Converted(stages[0], rs));
      assert AllWellFormed(next) by {
        forall r | r in next ensures r.WellFormed() {
          assert r in Converted(stages[0], rs) || r in Unconverted(stages[0], rs);
          if r in Unconverted(stages[0], rs) && stages[0] == [] {
            assert Unconverted(stages[0], rs) == rs;
          }
        }
      }
      RemapExact(stages[1..], next);
      StageLength(stages[0], rs);
      forall v | Covers(rs, v) ensures Covers(RemapRanges(stages, rs), RemapPoint(stages, v)) {
        StageForward(stages[0], rs, v);
      }
      forall w | Covers(RemapRanges(stages, rs), w)
        ensures exists v :: Covers(rs, v) && RemapPoint(stages, v) == w
      {
        var u :| Covers(next, u) && RemapPoint(stages[1..], u) == w;
        StageBackward(stages[0], rs, u);
        var v :| Covers(rs, v) && MappingTranslate(stages[0], v) == u;
        assert RemapPoint(stages, v) == w;
      }
    }
  }

  /** `Iterator::min_by` on the range starts: the first range of least
      start, or nothing for an empty list. */
  function MinByStart(rs: seq<Range>): (m: Option<Range>)
    ensures m.None? <==> rs == []
    ensures m.Some? ==> m.value in rs && forall r :: r in rs ==> m.value.start <= r.start
  {
    if rs == [] then None
    else
      var init, last := rs[..|rs| - 1], rs[|rs| - 1];
      assert forall r :: r in rs ==> r in init || r == last;
      match MinByStart(init)
      case None => Some(last)
      case Some(m) => if last.start < m.start then Some(last) else Some(m)
  }

  /** Of several ranges with the least start, `min_by` picks the first. */
  lemma {:induction false} MinByStartFirst(rs: seq<Range>)
    requires rs != []
    ensures exists i :: 0 <= i < |rs| && rs[i] == MinByStart(rs).value
              && forall j :: 0 <= j < i ==> rs[j].start > MinByStart(rs).value.start
  {
    var init, last := rs[..|rs| - 1], rs[|rs| - 1];
    var m := MinByStart(rs).value;
    if init == [] {
      assert rs[0] == m;
    } else {
      var mi := MinByStart(init).value;
      assert MinByStart(rs) == if last.start < mi.start then Some(last) else Some(mi);
      if last.start < mi.start {
        forall j | 0 <= j < |rs| - 1 ensures rs[j].start > m.start {
          assert rs[j] == init[j] && init[j] in init;
        }
        assert rs[|rs| - 1] == m;
      } else {
        MinByStartFirst(init);
        var k :| 0 <= k < |init| && init[k] == mi && forall j :: 0 <= j < k ==> init[j].start > mi.start;
        forall j | 0 <= j < k ensures rs[j].start > m.start {
          assert rs[j] == init[j];
        }
        assert rs[k] == m;
      }
    }
  }

  /** Part two's answer in terms of part one: for non-empty seed ranges,
      the least start among the final ranges is the least location any seed
      value of those ranges reaches by point translation, and there is no
      answer exactly when there are no seed ranges. */
  lemma LowestStartIsLowestLocation(stages: seq<seq<MappingRule>>, rs: seq<Range>)
    requires AllNonEmpty(rs) && WellFormedStages(stages)
    ensures MinByStart(RemapRanges(stages, rs)).None? <==> rs == []
    ensures MinByStart(RemapRanges(stages, rs)).Some? ==>
              var lowest := MinByStart(RemapRanges(stages, rs)).value.start;
              && (exists v :: Covers(rs, v) && RemapPoint(stages, v) == lowest)
              && forall v :: Covers(rs, v) ==> lowest <= RemapPoint(stages, v)
  {
    var out := RemapRanges(stages, rs);
    RemapExact(stages, rs);
    if rs != [] {
      var r := rs[0];
      assert r in rs && r.Contains(r.start);
      assert Covers(out, RemapPoint(stages, r.start));
    }
    match MinByStart(out)
    case None =>
    case Some(m) =>
      assert m.Contains(m.start);
      assert Covers(out, m.start);
      forall v | Covers(rs, v) ensures m.start <= RemapPoint(stages, v) {
        var o :| o in out && o.Contains(RemapPoint(stages, v));
      }
  }

  /** The same answer when seed pairs of length zero are allowed, as long
      as the first stage has a rule: splitting against it drops the empty
      ranges, so the lowest start is again a location of a seed, and there
      is none exactly when no seed is covered. */
  lemma LowestLocationFromEmptyPairs(stages: seq<seq<MappingRule>>, rs: seq<Range>)
    requires AllWellFormed(rs) && WellFormedStages(stages)
    requires stages != [] && stages[0] != []
    ensures MinByStart(RemapRanges(stages, rs)).None? <==> forall v :: !Covers(rs, v)
    ensures MinByStart(RemapRanges(stages, rs)).Some? ==>
              var lowest := MinByStart(RemapRanges(stages, rs)).value.start;
              && (exists v :: Covers(rs, v) && RemapPoint(stages, v) == lowest)
              && forall v :: Covers(rs, v) ==> lowest <= RemapPoint(stages, v)
  {
    var out := RemapRanges(stages, rs);
    var next := ApplyStage(stages[0], rs);
    assert WellFormedStages(stages[1..]) by {
      forall k | 0 <= k < |stages| - 1 ensures WellFormedRules(stages[1..][k]) {
        assert stages[1..][k] == stages[k + 1];
      }
    }
    StageNonEmpty(stages[0], rs);
    assert AllWellFormed(next) by {
      forall r | r in next ensures r.WellFormed() {
        assert r.NonEmpty();
      }
    }
    RemapExact(stages[1..], next);
    assert AllNonEmpty(out);
    RemapExact(stages, rs);
    if v :| Covers(rs, v) {
      assert Covers(out, RemapPoint(stages, v));
      var o :| o in out && o.Contains(RemapPoint(stages, v));
    }
    match MinByStart(out)
    case None =>
    case Some(m) =>
      assert m.Contains(m.start);
      assert Covers(out, m.start);
      forall v | Covers(rs, v) ensures m.start <= RemapPoint(stages, v) {
        var o :| o in out && o.Contains(RemapPoint(stages, v));
      }
  }

  /** Seed numbers read as consecutive `(start, len)` pairs, each giving
      `[start, start + len)`; an odd count leaves the last pair incomplete,
      which panics in the source. */
  function SeedPairs(seeds: seq<int>): (r: Option<seq<Range>>)
    ensures r.Some? <==> |seeds| % 2 == 0
    ensures r.Some? ==> (|r.value| == |seeds| / 2
              && forall i :: 0 <= i < |r.value| ==>
                   r.value[i] == Range(seeds[2 * i], seeds[2 * i] + seeds[2 * i + 1]))
  {
    if |seeds| == 0 then Some([])
    else if |seeds| == 1 then None
    else match SeedPairs(seeds[2..])
      case None => None
      case Some(rest) =>
        var r := [Range(seeds[0], seeds[0] + seeds[1])] + rest;
        assert forall i :: 1 <= i < |r| ==> r[i] == rest[i - 1];
        Some(r)
  }

  /** Seed ranges of non-negative lengths hold exactly the values the seed
      pairs describe. */
  lemma SeedPairsCover(seeds: seq<int>, v: int)
    requires |seeds| % 2 == 0
    ensures Covers(SeedPairs(seeds).value, v) <==>
              exists i :: 0 <= i < |seeds| / 2 && seeds[2 * i] <= v < seeds[2 * i] + seeds[2 * i + 1]
  {
    var rs := SeedPairs(seeds).value;
    if Covers(rs, v) {
      var r :| r in rs && r.Contains(v);
      var i :| 0 <= i < |rs| && rs[i] == r;
      SeedPairAt(seeds, i);
    }
    if exists i :: 0 <= i < |seeds| / 2 && seeds[2 * i] <= v < seeds[2 * i] + seeds[2 * i + 1] {
      var i :| 0 <= i < |seeds| / 2 && seeds[2 * i] <= v < seeds[2 * i] + seeds[2 * i + 1];
      SeedPairAt(seeds, i);
      assert rs[i] in rs;
    }
  }

  lemma SeedPairAt(seeds: seq<int>, i: int)
    requires |seeds| % 2 == 0 && 0 <= i < |seeds| / 2
    ensures i < |SeedPairs(seeds).value|
    ensures SeedPairs(seeds).value[i] == Range(seeds[2 * i], seeds[2 * i] + seeds[2 * i + 1])
  {
  }

  /** The stage loop of `riddle_part_two` for one mapping: `converted`
      collects the shifted overlaps, `unconverted` is rebuilt from the outer
      pieces after every rule, and the stage ends with `converted` followed
      by what is still unconverted. */
  method ApplyMapping(rules: seq<MappingRule>, currentGen: seq<Range>) returns (nextGen: seq<Range>)
    ensures nextGen == ApplyStage(rules, currentGen)
  {
    var converted: seq<Range> := [];
    var unconverted := currentGen;
    for k := 0 to |rules|
      invariant converted + Converted(rules[k..], unconverted) == Converted(rules, currentGen)
      invariant Unconverted(rules[k..], unconverted) == Unconverted(rules, currentGen)
    {
      ghost var before := converted;
      var newUnconverted;
      converted, newUnconverted := SplitAgainstRule(converted, unconverted, rules[k]);
      Associative(before, MatchedAll(unconverted, rules[k]), Converted(rules[k + 1..], newUnconverted));
      assert rules[k..][1..] == rules[k + 1..];
      unconverted := newUnconverted;
    }
    nextGen := converted + unconverted;
  }

  /** The inner loop of one rule: every working range is cut against the
      rule's source; its shifted overlap is appended to `converted` and its
      outer pieces, left before right, to the new unconverted list. */
  method SplitAgainstRule(converted: seq<Range>, unconverted: seq<Range>, rule: MappingRule)
    returns (convertedOut: seq<Range>, newUnconverted: seq<Range>)
    ensures convertedOut == converted + MatchedAll(unconverted, rule)
    ensures newUnconverted == LeftoversAll(unconverted, rule)
  {
    convertedOut := converted;
    newUnconverted := [];
    for i := 0 to |unconverted|
      invariant convertedOut == converted + MatchedAll(unconverted[..i], rule)
      invariant newUnconverted == LeftoversAll(unconverted[..i], rule)
    {
      PiecesSnoc(unconverted, i, rule);
      Associative(converted, MatchedAll(unconverted[..i], rule), Matched(unconverted[i], rule));
      convertedOut, newUnconverted := SplitRange(convertedOut, newUnconverted, unconverted[i], rule);
    }
    assert unconverted[..|unconverted|] == unconverted;
  }

  /** The body of the inner loop for one range: the piece left of the
      overlap, then the shifted overlap, then the piece right of it, each
      pushed only when non-empty. */
  method SplitRange(converted: seq<Range>, unconverted: seq<Range>, r: Range, rule: MappingRule)
    returns (convertedOut: seq<Range>, newUnconverted: seq<Range>)
    ensures convertedOut == converted + Matched(r, rule)
    ensures newUnconverted == unconverted + Leftovers(r, rule)
  {
    var convertRange := rule.source;
    var offset := rule.destination.start - rule.source.start;
    convertedOut, newUnconverted := converted, unconverted;
    var overlap := Overlap(r, convertRange);
    var left := Range(r.start, overlap.start);
    if left.end > left.start {
      newUnconverted := newUnconverted + [left];
    }
    assert newUnconverted == unconverted + Keep(left);
    ghost var keptLeft := newUnconverted;
    if overlap.end > overlap.start {
      convertedOut := convertedOut + [Range(overlap.start + offset, overlap.end + offset)];
    }
    var right := Range(overlap.end, r.end);
    if right.end > right.start {
      newUnconverted := newUnconverted + [right];
    }
    assert newUnconverted == keptLeft + Keep(right);
    Associative(unconverted, Keep(left), Keep(right));
  }

  /** `riddle_part_two` on parsed data: the seed pairs become ranges, every
      mapping is applied in turn, and the first range of least start is
      reported; an odd number of seeds is an error. */
  method LowestSeedRange(seeds: seq<int>, stages: seq<seq<MappingRule>>) returns (r: Result<Option<Range>, string>)
    ensures r.Err? <==> |seeds| % 2 == 1
    ensures r.Ok? ==> r.value == MinByStart(RemapRanges(stages, SeedPairs(seeds).value))
  {
    var currentGen: seq<Range> := [];
    var index := 0;
    while index < |seeds|
      invariant 0 <= index <= |seeds| && index % 2 == 0
      invariant |currentGen| == index / 2
      invariant forall i :: 0 <= i < |currentGen| ==>
                  currentGen[i] == Range(seeds[2 * i], seeds[2 * i] + seeds[2 * i + 1])
    {
      if index + 1 >= |seeds| {
        return Err("index out of bounds: the seed list has an odd length");
      }
      var start := seeds[index];
      var len := seeds[index + 1];
      currentGen := currentGen + [Range(start, start + len)];
      index := index + 2;
    }
    assert currentGen == SeedPairs(seeds).value;
    for k := 0 to |stages|
      invariant RemapRanges(stages[k..], currentGen) == RemapRanges(stages, SeedPairs(seeds).value)
    {
      assert stages[k..][1..] == stages[k + 1..];
      currentGen := ApplyMapping(stages[k], currentGen);
    }
    assert stages[|stages|..] == [];
    var least := LowestStart(currentGen);
    r := Ok(least);
  }

  /** The closing `min_by` of `riddle_part_two`: a pass over the final
      ranges that replaces the current least only on a strictly smaller
      start, so the first of equal starts is kept. */
  method LowestStart(rs: seq<Range>) returns (least: Option<Range>)
    ensures least == MinByStart(rs)
  {
    least := None;
    for i := 0 to |rs|
      invariant least == MinByStart(rs[..i])
    {
      assert rs[..i + 1][..i] == rs[..i];
      if least.None? || rs[i].start < least.value.start {
        least := Some(rs[i]);
      }
    }
    assert rs[..|rs|] == rs;
  }
}
