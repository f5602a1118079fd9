/** Cube conundrum (day2/src/main.rs): every line records a game, an id and
    the draws of coloured cubes taken from a bag. Part one adds up the ids
    of the games that a bag of 12 red, 13 green and 14 blue cubes allows;
    part two adds up, over the games, the product of the largest count of
    each colour seen. */
module CubeConundrum {
  import opened Wrappers
  import Text

  // ---------------------------------------------------------------------------
  // Colours

  datatype CubeColor = Red | Green | Blue

  /** How a colour is written in a draw. */
  function ColorName(c: CubeColor): string {
    match c
    case Red => "red"
    case Green => "green"
    case Blue => "blue"
  }

  /** `CubeColor::from_string`: exactly the three colour names are accepted;
      any other word panics. */
  function ColorFromString(text: string): (r: Option<CubeColor>)
    ensures r.Some? ==> ColorName(r.value) == text
    ensures r.None? <==> text != "red" && text != "green" && text != "blue"
  {
    if text == "red" then Some(Red)
    else if text == "green" then Some(Green)
    else if text == "blue" then Some(Blue)
    else None
  }

  lemma ColorNameRoundTrip(c: CubeColor)
    ensures ColorFromString(ColorName(c)) == Some(c)
    ensures |ColorName(c)| > 0 && ' ' !in ColorName(c)
    ensures ',' !in ColorName(c) && ';' !in ColorName(c) && ':' !in ColorName(c)
  {
  }

  // ---------------------------------------------------------------------------
  // Draws

  /** One draw: how many cubes of each colour were shown. */
  datatype CubeDraw = CubeDraw(cubes: map<CubeColor, nat>)

  /** One comma-separated `count color` entry of a draw: the first two
      non-empty space-separated words. A missing word, a count that is not
      a number or an unknown colour panics. */
  function ParseCubeCount(info: string): Option<(CubeColor, nat)> {
    var words := Text.Words(info);
    if |words| < 2 then None
    else
      match (Text.ParseNat(words[0]), ColorFromString(words[1]))
      case (Some(count), Some(color)) => Some((color, count))
      case _ => None
  }

  /** What `CubeDraw::from_string` computes: the comma-separated entries,
      inserted in order. */
  function DrawOf(text: string): Option<CubeDraw> {
    match MapAll(Text.Split(text, ','), ParseCubeCount)
    case Some(entries) => Some(CubeDraw(InsertAll(entries)))
    case None => None
  }

  /** `CubeDraw::from_string`: the loop that inserts every entry into the
      map. */
  method ParseDraw(text: string) returns (draw: Option<CubeDraw>)
    ensures draw == DrawOf(text)
  {
    var cubes: map<CubeColor, nat> := map[];
    var drawInfos := Text.Split(text, ',');
    ghost var entries: seq<(CubeColor, nat)> := [];
    for k := 0 to |drawInfos|
      invariant MapAll(drawInfos[..k], ParseCubeCount) == Some(entries)
      invariant cubes == InsertAll(entries)
    {
      var entry := ParseCubeCount(drawInfos[k]);
      if entry.None? {
        return None;
      }
      var (color, count) := entry.value;
      MapAllPrefix(drawInfos, k, ParseCubeCount, entries, entry.value);
      InsertAllSnoc(entries, color, count);
      cubes := cubes[color := count];
      entries := entries + [entry.value];
    }
    assert drawInfos[..|drawInfos|] == drawInfos;
    draw := Some(CubeDraw(cubes));
  }

  // ---------------------------------------------------------------------------
  // Games

  datatype Game = Game(id: nat, cubeDraws: seq<CubeDraw>)

  /** Why a line is not a game: `Game::from_string` returns an error for a
      line without exactly one `':'`, and panics on a bad id or draw. */
  datatype GameError = NotTwoParts | BadId | BadDraw

  /** `Game::from_string`: split on `':'`; the id is read from byte 5 of the
      first part on, and every `';'`-separated segment of the second part is
      a draw. */
  function ParseGame(text: string): (r: Result<Game, GameError>)
    ensures r == Err(NotTwoParts) <==> |Text.Split(text, ':')| != 2
  {
    var gameParts := Text.Split(text, ':');
    if |gameParts| != 2 then Err(NotTwoParts)
    else if |gameParts[0]| < 5 then Err(BadId)
    else
      match Text.ParseNat(gameParts[0][5..])
      case None => Err(BadId)
      case Some(id) =>
        match MapAll(Text.Split(gameParts[1], ';'), DrawOf)
        case None => Err(BadDraw)
        case Some(draws) => Ok(Game(id, draws))
  }

  /** `Game::from_string(line).expect(..)`: a line that is not a game
      panics. */
  function GameOf(line: string): Option<Game> {
    match ParseGame(line)
    case Ok(game) => Some(game)
    case Err(_) => None
  }

  // ---------------------------------------------------------------------------
  // Writing games, and reading them back

  /** A `count color` entry as it follows a `':'`, `','` or `';'`. */
  function CountText(entry: (CubeColor, nat)): string {
    " " + Text.Decimal(entry.1) + " " + ColorName(entry.0)
  }

  function CountTexts(entries: seq<(CubeColor, nat)>): (r: seq<string>)
    ensures |r| == |entries| && forall i :: 0 <= i < |r| ==> r[i] == CountText(entries[i])
  {
    if entries == [] then [] else [CountText(entries[0])] + CountTexts(entries[1..])
  }

  /** A draw written as comma-separated entries. */
  function DrawText(entries: seq<(CubeColor, nat)>): string
    requires |entries| >= 1
  {
    Text.Join(CountTexts(entries), ',')
  }

  function DrawTexts(draws: seq<seq<(CubeColor, nat)>>): (r: seq<string>)
    requires forall i :: 0 <= i < |draws| ==> |draws[i]| >= 1
    ensures |r| == |draws| && forall i :: 0 <= i < |r| ==> r[i] == DrawText(draws[i])
  {
    if draws == [] then [] else [DrawText(draws[0])] + DrawTexts(draws[1..])
  }

  /** A game written as one line: `Game <id>:` and the draws separated by
      `';'`. */
  function GameText(id: nat, draws: seq<seq<(CubeColor, nat)>>): string
    requires |draws| >= 1 && forall i :: 0 <= i < |draws| ==> |draws[i]| >= 1
  {
    "Game " + Text.Decimal(id) + ":" + Text.Join(DrawTexts(draws), ';')
  }

  /** The separators of a game line occur in no entry. */
  lemma CountTextAvoids(entry: (CubeColor, nat))
    ensures ',' !in CountText(entry) && ';' !in CountText(entry) && ':' !in CountText(entry)
  {
    ColorNameRoundTrip(entry.0);
    assert Text.AllDigits(Text.Decimal(entry.1));
  }

  /** An entry written by `CountText` is read back. */
  lemma ParseCountText(entry: (CubeColor, nat))
    ensures ParseCubeCount(CountText(entry)) == Some(entry)
  {
    var (color, count) := entry;
    var numeral := Text.Decimal(count);
    Text.DigitsHaveNoSpace(numeral);
    ColorNameRoundTrip(color);
    Text.WordsOfPair(numeral, ColorName(color));
    Text.ParseNatDecimal(count);
  }

  /** The entries of a draw are written without `','` and each is read
      back. */
  lemma CountTextsParse(entries: seq<(CubeColor, nat)>)
    ensures forall i :: 0 <= i < |entries| ==> ',' !in CountTexts(entries)[i]
    ensures forall i :: 0 <= i < |entries| ==> ParseCubeCount(CountTexts(entries)[i]) == Some(entries[i])
  {
    forall i | 0 <= i < |entries|
      ensures ',' !in CountText(entries[i]) && ParseCubeCount(CountText(entries[i])) == Some(entries[i])
    {
      CountTextAvoids(entries[i]);
      ParseCountText(entries[i]);
    }
  }

  /** A draw written by `DrawText` is read back as the map of its
      entries. */
  lemma DrawOfText(entries: seq<(CubeColor, nat)>)
    requires |entries| >= 1
    ensures DrawOf(DrawText(entries)) == Some(CubeDraw(InsertAll(entries)))
  {
    var texts := CountTexts(entries);
    CountTextsParse(entries);
    Text.SplitJoin(texts, ',');
    MapAllEach(texts, ParseCubeCount, entries);
  }

  /** The draws of a game line contain no `';'` or `':'`. */
  lemma DrawTextAvoids(entries: seq<(CubeColor, nat)>)
    requires |entries| >= 1
    ensures ';' !in DrawText(entries) && ':' !in DrawText(entries)
  {
    var texts := CountTexts(entries);
    forall i | 0 <= i < |texts|
      ensures ';' !in texts[i] && ':' !in texts[i]
    {
      CountTextAvoids(entries[i]);
    }
    Text.JoinAvoids(texts, ',', ';');
    Text.JoinAvoids(texts, ',', ':');
  }

  /** What a game's draws are read back as. */
  function DrawsRead(draws: seq<seq<(CubeColor, nat)>>): seq<CubeDraw> {
    seq(|draws|, i requires 0 <= i < |draws| => CubeDraw(InsertAll(draws[i])))
  }

  /** Every draw of a game is written without `';'` or `':'`, and read
      back. */
  lemma DrawTextsParse(draws: seq<seq<(CubeColor, nat)>>)
    requires forall i :: 0 <= i < |draws| ==> |draws[i]| >= 1
    ensures forall i :: 0 <= i < |draws| ==> ';' !in DrawTexts(draws)[i] && ':' !in DrawTexts(draws)[i]
    ensures forall i :: 0 <= i < |draws| ==> DrawOf(DrawTexts(draws)[i]) == Some(DrawsRead(draws)[i])
  {
    forall i | 0 <= i < |draws|
      ensures ';' !in DrawText(draws[i]) && ':' !in DrawText(draws[i])
      ensures DrawOf(DrawText(draws[i])) == Some(CubeDraw(InsertAll(draws[i])))
    {
      DrawTextAvoids(draws[i]);
      DrawOfText(draws[i]);
    }
  }

  /** The draws of a written game are read back one by one. */
  lemma DrawsOfTexts(draws: seq<seq<(CubeColor, nat)>>)
    requires |draws| >= 1 && forall i :: 0 <= i < |draws| ==> |draws[i]| >= 1
    ensures Text.Split(Text.Join(DrawTexts(draws), ';'), ';') == DrawTexts(draws)
    ensures MapAll(DrawTexts(draws), DrawOf) == Some(DrawsRead(draws))
    ensures ':' !in Text.Join(DrawTexts(draws), ';')
  {
    var texts := DrawTexts(draws);
    DrawTextsParse(draws);
    Text.SplitJoin(texts, ';');
    Text.JoinAvoids(texts, ';', ':');
    MapAllEach(texts, DrawOf, DrawsRead(draws));
  }

  /** The `Game <id>` head contains no `':'` and holds the id's numeral
      from byte 5 on. */
  lemma GameHead(id: nat)
    ensures ':' !in "Game " + Text.Decimal(id)
    ensures ("Game " + Text.Decimal(id))[5..] == Text.Decimal(id)
  {
    var numeral := Text.Decimal(id);
    forall i | 0 <= i < |numeral|
      ensures numeral[i] != ':'
    {
      assert Text.IsDigit(numeral[i]);
    }
  }

  /** A written game splits on `':'` into its head and its draws. */
  lemma GameTextParts(id: nat, draws: seq<seq<(CubeColor, nat)>>)
    requires |draws| >= 1 && forall i :: 0 <= i < |draws| ==> |draws[i]| >= 1
    ensures Text.Split(GameText(id, draws), ':')
         == ["Game " + Text.Decimal(id), Text.Join(DrawTexts(draws), ';')]
  {
    var head := "Game " + Text.Decimal(id);
    var body := Text.Join(DrawTexts(draws), ';');
    DrawsOfTexts(draws);
    GameHead(id);
    assert GameText(id, draws) == head + [':'] + body;
    Text.SplitPair(head, body, ':');
  }

  /** A game written by `GameText` is read back: its id, and each draw as
      the map of its entries. */
  lemma ParseGameText(id: nat, draws: seq<seq<(CubeColor, nat)>>)
    requires |draws| >= 1 && forall i :: 0 <= i < |draws| ==> |draws[i]| >= 1
    ensures ParseGame(GameText(id, draws)) == Ok(Game(id, DrawsRead(draws)))
  {
    var parts := Text.Split(GameText(id, draws), ':');
    GameTextParts(id, draws);
    GameHead(id);
    Text.ParseNatDecimal(id);
    assert Text.ParseNat(parts[0][5..]) == Some(id);
    DrawsOfTexts(draws);
    assert MapAll(Text.Split(parts[1], ';'), DrawOf) == Some(DrawsRead(draws));
  }

  // ---------------------------------------------------------------------------
  // Part one: which games the bag allows

  /** `bag_loadout`: how many cubes of each colour the bag holds. */
  function BagLoadout(c: CubeColor): nat {
    match c
    case Red => 12
    case Green => 13
    case Blue => 14
  }

  /** A draw the bag allows: no colour shown more often than the bag holds
      it. */
  predicate DrawPossible(draw: CubeDraw) {
    forall c :: c in draw.cubes ==> draw.cubes[c] <= BagLoadout(c)
  }

  predicate Possible(game: Game) {
    forall i :: 0 <= i < |game.cubeDraws| ==> DrawPossible(game.cubeDraws[i])
  }

  /** The `is_possible` check of `riddle_part_one`: every colour of every
      draw, in the map's own order, until one count exceeds the bag. */
  method IsPossible(game: Game) returns (isPossible: bool)
    ensures isPossible <==> Possible(game)
  {
    isPossible := true;
    label outer:
    for k := 0 to |game.cubeDraws|
      invariant isPossible
      invariant forall i :: 0 <= i < k ==> DrawPossible(game.cubeDraws[i])
    {
      var draw := game.cubeDraws[k];
      var remaining := draw.cubes.Keys;
      while remaining != {}
        invariant remaining <= draw.cubes.Keys
        invariant forall c :: c in draw.cubes && c !in remaining ==> draw.cubes[c] <= BagLoadout(c)
        decreases remaining
      {
        var cubeColor :| cubeColor in remaining;
        if draw.cubes[cubeColor] > BagLoadout(cubeColor) {
          isPossible := false;
          break outer;
        }
        remaining := remaining - {cubeColor};
      }
    }
  }

  /** The ids of the possible games, added up. */
  function PossibleIdSum(games: seq<Game>): nat {
    if games == [] then 0
    else
      var last := games[|games| - 1];
      PossibleIdSum(games[..|games| - 1]) + (if Possible(last) then last.id else 0)
  }

  /** Every `'\n'`-separated line read as a game; a final newline leaves an
      empty line, which is not a game. */
  method ReadGames(text: string) returns (games: Option<seq<Game>>)
    ensures games == MapAll(Text.Split(text, '\n'), GameOf)
  {
    games := CollectAll(Text.Split(text, '\n'), GameOf);
  }

  /** `riddle_part_one`: the sum of the ids of the possible games. */
  method RiddlePartOne(text: string) returns (sum: Option<nat>)
    ensures sum.Some? <==> MapAll(Text.Split(text, '\n'), GameOf).Some?
    ensures sum.Some? ==> sum.value == PossibleIdSum(MapAll(Text.Split(text, '\n'), GameOf).value)
  {
    var games := ReadGames(text);
    if games.None? {
      return None;
    }
    var gameIdSum := SumPossibleIds(games.value);
    sum := Some(gameIdSum);
  }

  /** The loop of `riddle_part_one`: add the id of every possible game. */
  method SumPossibleIds(games: seq<Game>) returns (gameIdSum: nat)
    ensures gameIdSum == PossibleIdSum(games)
  {
    gameIdSum := 0;
    for k := 0 to |games|
      invariant gameIdSum == PossibleIdSum(games[..k])
    {
      var isPossible := IsPossible(games[k]);
      assert games[..k + 1][..k] == games[..k];
      if isPossible {
        gameIdSum := gameIdSum + games[k].id;
      }
    }
    assert games[..|games|] == games;
  }

  // ---------------------------------------------------------------------------
  // Part two: the fewest cubes that make a game possible

  /** The largest count of colour `c` over the draws, 0 if it was never
      shown. */
  function MaxCount(draws: seq<CubeDraw>, c: CubeColor): nat {
    if draws == [] then 0
    else
      var m, last := MaxCount(draws[..|draws| - 1], c), draws[|draws| - 1];
      if c in last.cubes && last.cubes[c] > m then last.cubes[c] else m
  }

  /** No draw shows colour `c` more often than `MaxCount`. */
  lemma {:induction false} MaxCountBounds(draws: seq<CubeDraw>, c: CubeColor, i: nat)
    requires i < |draws| && c in draws[i].cubes
    ensures draws[i].cubes[c] <= MaxCount(draws, c)
  {
    var init := draws[..|draws| - 1];
    if i < |init| {
      assert init[i] == draws[i];
      MaxCountBounds(init, c, i);
    }
  }

  /** A positive `MaxCount` is the count of `c` in some draw. */
  lemma {:induction false} MaxCountAttained(draws: seq<CubeDraw>, c: CubeColor) returns (i: nat)
    requires MaxCount(draws, c) > 0
    ensures i < |draws| && c in draws[i].cubes && draws[i].cubes[c] == MaxCount(draws, c)
  {
    var init, last := draws[..|draws| - 1], draws[|draws| - 1];
    if c in last.cubes && last.cubes[c] > MaxCount(init, c) {
      i := |draws| - 1;
    } else {
      i := MaxCountAttained(init, c);
      assert init[i] == draws[i];
    }
  }

  /** `min_count_per_cube_color` holds colour `c` with count `v`: present
      exactly when `v` is positive, since a count is only stored when it
      beats the one stored before (or 0). */
  predicate Records(minCounts: map<CubeColor, nat>, c: CubeColor, v: nat) {
    (c in minCounts <==> v > 0) && (c in minCounts ==> minCounts[c] == v)
  }

  /** One colour's factor of the power: its largest count, or 1 when it was
      never shown with a positive count (it is then not in the map). */
  function Factor(draws: seq<CubeDraw>, c: CubeColor): nat {
    if MaxCount(draws, c) > 0 then MaxCount(draws, c) else 1
  }

  /** The power of a game: the product of the colours' factors. */
  function Power(draws: seq<CubeDraw>): nat {
    Factor(draws, Red) * Factor(draws, Green) * Factor(draws, Blue)
  }

  /** The factor of colour `c` in the product loop: the stored count once
      `c` has been multiplied in, 1 before. */
  function Done(minCounts: map<CubeColor, nat>, remaining: set<CubeColor>, c: CubeColor): nat {
    if c in minCounts && c !in remaining then minCounts[c] else 1
  }

  /** The draw loop of `riddle_part_two`: `min_count_per_cube_color`
      collects, for every colour, the largest count shown. */
  method MinimumCounts(draws: seq<CubeDraw>) returns (minCounts: map<CubeColor, nat>)
    ensures forall c :: Records(minCounts, c, MaxCount(draws, c))
  {
    minCounts := map[];
    for k := 0 to |draws|
      invariant forall c :: Records(minCounts, c, MaxCount(draws[..k], c))
    {
      var draw := draws[k];
      assert draws[..k + 1][..k] == draws[..k];
      var remaining := draw.cubes.Keys;
      while remaining != {}
        invariant remaining <= draw.cubes.Keys
        invariant forall c :: c in remaining || c !in draw.cubes ==> Records(minCounts, c, MaxCount(draws[..k], c))
        invariant forall c :: c !in remaining && c in draw.cubes ==> Records(minCounts, c, MaxCount(draws[..k + 1], c))
        decreases remaining
      {
        var cubeColor :| cubeColor in remaining;
        var cubeCount := draw.cubes[cubeColor];
        if cubeCount > (if cubeColor in minCounts then minCounts[cubeColor] else 0) {
          minCounts := minCounts[cubeColor := cubeCount];
        }
        remaining := remaining - {cubeColor};
      }
    }
    assert draws[..|draws|] == draws;
  }

  /** The per-game body of `riddle_part_two`: the largest count of each
      colour, then the stored counts multiplied in the map's own order. */
  method GamePower(game: Game) returns (cubePower: nat)
    ensures cubePower == Power(game.cubeDraws)
  {
    var minCounts := MinimumCounts(game.cubeDraws);
    cubePower := 1;
    var remaining := minCounts.Keys;
    while remaining != {}
      invariant remaining <= minCounts.Keys
      invariant cubePower == Done(minCounts, remaining, Red) * Done(minCounts, remaining, Green)
                             * Done(minCounts, remaining, Blue)
      decreases remaining
    {
      var cubeColor :| cubeColor in remaining;
      MultiplyIn(minCounts, remaining, cubeColor);
      cubePower := cubePower * minCounts[cubeColor];
      remaining := remaining - {cubeColor};
    }
    assert forall c :: Done(minCounts, {}, c) == Factor(game.cubeDraws, c);
  }

  /** Multiplying in the count of one more colour moves that colour's
      factor from 1 to its count. */
  lemma MultiplyIn(minCounts: map<CubeColor, nat>, remaining: set<CubeColor>, c: CubeColor)
    requires c in remaining && remaining <= minCounts.Keys
    ensures Done(minCounts, remaining, Red) * Done(minCounts, remaining, Green)
            * Done(minCounts, remaining, Blue) * minCounts[c]
         == Done(minCounts, remaining - {c}, Red) * Done(minCounts, remaining - {c}, Green)
            * Done(minCounts, remaining - {c}, Blue)
  {
    var rest := remaining - {c};
    var r, g, b := Done(minCounts, remaining, Red), Done(minCounts, remaining, Green), Done(minCounts, remaining, Blue);
    assert Done(minCounts, rest, c) == minCounts[c];
    assert forall d :: d != c ==> Done(minCounts, rest, d) == Done(minCounts, remaining, d);
    SwapFactor(r, g, b, minCounts[c]);
  }

  lemma SwapFactor(r: nat, g: nat, b: nat, v: nat)
    ensures r == 1 ==> r * g * b * v == v * g * b
    ensures g == 1 ==> r * g * b * v == r * v * b
    ensures b == 1 ==> r * g * b * v == r * g * v
  {
  }

  /** The powers of the games, added up. */
  function PowerSum(games: seq<Game>): nat {
    if games == [] then 0 else PowerSum(games[..|games| - 1]) + Power(games[|games| - 1].cubeDraws)
  }

  /** `riddle_part_two`: the sum of the games' powers. */
  method RiddlePartTwo(text: string) returns (sum: Option<nat>)
    ensures sum.Some? <==> MapAll(Text.Split(text, '\n'), GameOf).Some?
    ensures sum.Some? ==> sum.value == PowerSum(MapAll(Text.Split(text, '\n'), GameOf).value)
  {
    var games := ReadGames(text);
    if games.None? {
      return None;
    }
    var cubePowerSum := SumPowers(games.value);
    sum := Some(cubePowerSum);
  }

  /** The loop of `riddle_part_two`: add up the power of every game. */
  method SumPowers(games: seq<Game>) returns (cubePowerSum: nat)
    ensures cubePowerSum == PowerSum(games)
  {
    cubePowerSum := 0;
    for k := 0 to |games|
      invariant cubePowerSum == PowerSum(games[..k])
    {
      var cubePower := GamePower(games[k]);
      assert games[..k + 1][..k] == games[..k];
      cubePowerSum := cubePowerSum + cubePower;
    }
    assert games[..|games|] == games;
  }

  // ---------------------------------------------------------------------------
  // How the two parts relate

  /** A game is possible exactly when its fewest cubes fit in the bag. */
  lemma PossibleIffMaxWithinBag(game: Game)
    ensures Possible(game) <==> forall c :: MaxCount(game.cubeDraws, c) <= BagLoadout(c)
  {
    var draws := game.cubeDraws;
    if Possible(game) {
      forall c ensures MaxCount(draws, c) <= BagLoadout(c) {
        if MaxCount(draws, c) > 0 {
          var i := MaxCountAttained(draws, c);
          assert DrawPossible(draws[i]);
        }
      }
    } else {
      var i :| 0 <= i < |draws| && !DrawPossible(draws[i]);
      var c :| c in draws[i].cubes && draws[i].cubes[c] > BagLoadout(c);
      MaxCountBounds(draws, c, i);
    }
  }

  /** A game in which no colour is ever shown with a positive count has
      power 1: the product over an empty map. */
  lemma PowerWithoutCubes(draws: seq<CubeDraw>)
    requires forall i, c :: 0 <= i < |draws| && c in draws[i].cubes ==> draws[i].cubes[c] == 0
    ensures Power(draws) == 1
  {
    forall c ensures MaxCount(draws, c) == 0 {
      if MaxCount(draws, c) > 0 {
        var i := MaxCountAttained(draws, c);
      }
    }
  }
}
