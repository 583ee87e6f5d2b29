/** Day 2 ("Cube Conundrum"): a game is a list of reveals, each the number of
    red, green and blue cubes drawn from a bag. Part 1 adds the ids of the
    games possible with 12 red, 13 green and 14 blue cubes; part 2 adds the
    "power" of every game, the product of the fewest cubes of each colour that
    make it possible. A reveal is a sequence of three counts indexed by colour
    id: 0 red, 1 green, 2 blue. */
module CubeConundrum {

  datatype Game = Game(id: nat, revealed: seq<seq<nat>>)

  predicate ValidGame(g: Game) {
    forall k :: 0 <= k < |g.revealed| ==> |g.revealed[k]| == 3
  }

  predicate ValidGames(games: seq<Game>) {
    forall k :: 0 <= k < |games| ==> ValidGame(games[k])
  }

  // ---------------------------------------------------------------------------
  // Parsing one reveal: "3 blue, 4 red"

  /** The colour id of a colour name: anything that is not red or green counts as blue. */
  function ColorId(name: string): (c: nat)
    ensures c < 3
    ensures c == 0 <==> name == "red"
    ensures c == 1 <==> name == "green"
  {
    if name == "red" then 0 else if name == "green" then 1 else 2
  }

  /** The largest count given for colour `c` in a list of (count, colour) items, 0 if none. */
  function MaxMentioned(items: seq<(nat, string)>, c: nat): nat {
    if items == [] then 0
    else
      var m := MaxMentioned(items[..|items| - 1], c);
      var (n, name) := items[|items| - 1];
      if ColorId(name) == c && n > m then n else m
  }

  /** The inner loop of `parse_input`: each colour keeps the maximum count mentioned. */
  method RevealValues(items: seq<(nat, string)>) returns (values: seq<nat>)
    ensures |values| == 3
    ensures forall c :: 0 <= c < 3 ==> values[c] == MaxMentioned(items, c)
  {
    var a := new nat[3](_ => 0);
    for k := 0 to |items|
      invariant forall c :: 0 <= c < 3 ==> a[c] == MaxMentioned(items[..k], c)
    {
      var (count, name) := items[k];
      var id := ColorId(name);
      assert items[..k + 1][..k] == items[..k];
      if count > a[id] {
        a[id] := count;
      }
    }
    assert items[..|items|] == items;
    values := a[..];
  }

  /** The kept count is at least every count given for that colour, and it is
      one of them unless none was given. */
  lemma {:induction false} MaxMentionedIsMax(items: seq<(nat, string)>, c: nat)
    ensures forall k :: 0 <= k < |items| && ColorId(items[k].1) == c ==> items[k].0 <= MaxMentioned(items, c)
    ensures MaxMentioned(items, c) == 0
            || exists k :: 0 <= k < |items| && ColorId(items[k].1) == c && items[k].0 == MaxMentioned(items, c)
  {
    if items != [] {
      var init := items[..|items| - 1];
      MaxMentionedIsMax(init, c);
      assert forall k :: 0 <= k < |init| ==> init[k] == items[k];
    }
  }

  // ---------------------------------------------------------------------------
  // Part 1

  predicate RevealFits(r: seq<nat>)
    requires |r| == 3
  {
    r[0] <= 12 && r[1] <= 13 && r[2] <= 14
  }

  predicate IsPossible(g: Game)
    requires ValidGame(g)
  {
    forall k :: 0 <= k < |g.revealed| ==> RevealFits(g.revealed[k])
  }

  /** The `possible` loop of `solve_part1`, which stops at the first reveal that does not fit. */
  method Possible(g: Game) returns (possible: bool)
    requires ValidGame(g)
    ensures possible <==> IsPossible(g)
  {
    possible := true;
    var k := 0;
    while k < |g.revealed|
      invariant 0 <= k <= |g.revealed|
      invariant possible <==> forall j :: 0 <= j < k ==> RevealFits(g.revealed[j])
      invariant !possible ==> k == |g.revealed|
    {
      var r := g.revealed[k];
      if r[0] > 12 || r[1] > 13 || r[2] > 14 {
        possible := false;
        k := |g.revealed|;
      } else {
        k := k + 1;
      }
    }
  }

  /** The sum of the ids of the possible games. */
  function PossibleIdSum(games: seq<Game>): nat
    requires ValidGames(games)
  {
    if games == [] then 0
    else
      var g := games[|games| - 1];
      PossibleIdSum(games[..|games| - 1]) + if IsPossible(g) then g.id else 0
  }

  method SolvePart1(games: seq<Game>) returns (sum: nat)
    requires ValidGames(games)
    ensures sum == PossibleIdSum(games)
  {
    sum := 0;
    for n := 0 to |games|
      invariant sum == PossibleIdSum(games[..n])
    {
      var possible := Possible(games[n]);
      assert games[..n + 1][..n] == games[..n];
      sum := sum + if possible then games[n].id else 0;
    }
    assert games[..|games|] == games;
  }

  /** Impossible games add nothing and possible ones add their id: the sum is
      at most the sum of all ids, with equality when every game is possible. */
  lemma {:induction false} PossibleIdSumBound(games: seq<Game>)
    requires ValidGames(games)
    ensures PossibleIdSum(games) <= IdSum(games)
    ensures (forall k :: 0 <= k < |games| ==> IsPossible(games[k])) ==> PossibleIdSum(games) == IdSum(games)
    ensures (forall k :: 0 <= k < |games| ==> !IsPossible(games[k])) ==> PossibleIdSum(games) == 0
  {
    if games != [] {
      PossibleIdSumBound(games[..|games| - 1]);
    }
  }

  function IdSum(games: seq<Game>): nat {
    if games == [] then 0 else IdSum(games[..|games| - 1]) + games[|games| - 1].id
  }

  // ---------------------------------------------------------------------------
  // Part 2

  /** The largest count of colour `c` over all reveals, 0 if there are none. */
  function MaxOf(revealed: seq<seq<nat>>, c: nat): nat
    requires c < 3 && forall k :: 0 <= k < |revealed| ==> |revealed[k]| == 3
  {
    if revealed == [] then 0
    else
      var m := MaxOf(revealed[..|revealed| - 1], c);
      var v := revealed[|revealed| - 1][c];
      if v > m then v else m
  }

  /** The `max_cubes` loop of `solve_part2`. */
  method MaxCubes(g: Game) returns (m: seq<nat>)
    requires ValidGame(g)
    ensures |m| == 3 && forall c :: 0 <= c < 3 ==> m[c] == MaxOf(g.revealed, c)
  {
    var a := new nat[3](_ => 0);
    for k := 0 to |g.revealed|
      invariant forall c :: 0 <= c < 3 ==> a[c] == MaxOf(g.revealed[..k], c)
    {
      var r := g.revealed[k];
      assert g.revealed[..k + 1][..k] == g.revealed[..k];
      a[0] := if a[0] > r[0] then a[0] else r[0];
      a[1] := if a[1] > r[1] then a[1] else r[1];
      a[2] := if a[2] > r[2] then a[2] else r[2];
    }
    assert g.revealed[..|g.revealed|] == g.revealed;
    m := a[..];
  }

  /** `max_cubes[c]` bounds colour `c` in every reveal and equals it in one,
      unless there are no reveals. */
  lemma {:induction false} MaxOfIsMax(revealed: seq<seq<nat>>, c: nat)
    requires c < 3 && forall k :: 0 <= k < |revealed| ==> |revealed[k]| == 3
    ensures forall k :: 0 <= k < |revealed| ==> revealed[k][c] <= MaxOf(revealed, c)
    ensures revealed == [] ==> MaxOf(revealed, c) == 0
    ensures revealed != [] ==> exists k :: 0 <= k < |revealed| && revealed[k][c] == MaxOf(revealed, c)
  {
    if revealed != [] {
      var init := revealed[..|revealed| - 1];
      MaxOfIsMax(init, c);
      assert forall k :: 0 <= k < |init| ==> init[k] == revealed[k];
      if init != [] && MaxOf(revealed, c) == MaxOf(init, c) {
        var k :| 0 <= k < |init| && init[k][c] == MaxOf(init, c);
        assert revealed[k][c] == MaxOf(revealed, c);
      }
    }
  }

  function Power(g: Game): nat
    requires ValidGame(g)
  {
    MaxOf(g.revealed, 0) * MaxOf(g.revealed, 1) * MaxOf(g.revealed, 2)
  }

  /** The power is the product of the least bag that makes the game possible:
      every bag that fits every reveal holds at least that many of each colour. */
  lemma PowerIsLeastBag(g: Game, red: nat, green: nat, blue: nat)
    requires ValidGame(g)
    requires forall k :: 0 <= k < |g.revealed| ==>
               g.revealed[k][0] <= red && g.revealed[k][1] <= green && g.revealed[k][2] <= blue
    ensures MaxOf(g.revealed, 0) <= red && MaxOf(g.revealed, 1) <= green && MaxOf(g.revealed, 2) <= blue
    ensures g.revealed == [] ==> Power(g) == 0
  {
    LeastBound(g.revealed, 0, red);
    LeastBound(g.revealed, 1, green);
    LeastBound(g.revealed, 2, blue);
  }

  lemma {:induction false} LeastBound(revealed: seq<seq<nat>>, c: nat, bound: nat)
    requires c < 3 && forall k :: 0 <= k < |revealed| ==> |revealed[k]| == 3
    requires forall k :: 0 <= k < |revealed| ==> revealed[k][c] <= bound
    ensures MaxOf(revealed, c) <= bound
  {
    if revealed != [] {
      var init := revealed[..|revealed| - 1];
      assert forall k :: 0 <= k < |init| ==> init[k] == revealed[k];
      LeastBound(init, c, bound);
    }
  }

  function PowerSum(games: seq<Game>): nat
    requires ValidGames(games)
  {
    if games == [] then 0 else PowerSum(games[..|games| - 1]) + Power(games[|games| - 1])
  }

  method SolvePart2(games: seq<Game>) returns (total: nat)
    requires ValidGames(games)
    ensures total == PowerSum(games)
  {
    total := 0;
    for n := 0 to |games|
      invariant total == PowerSum(games[..n])
    {
      var m := MaxCubes(games[n]);
      assert games[..n + 1][..n] == games[..n];
      total := total + m[0] * m[1] * m[2];
    }
    assert games[..|games|] == games;
  }
}
