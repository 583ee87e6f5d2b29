/** Day 14 ("Parabolic Reflector Dish"): round rocks 'O' roll across a
    platform until cube rocks '#' or the edge stop them. Each roll repeats a
    pass over the board, moving every 'O' with a '.' beside it one cell,
    until a pass moves nothing. The load on the north beams weighs each round
    rock by its distance to the south edge. */
module ParabolicDish {

  import opened Common

  type Grid = seq<seq<char>>

  function Width(g: Grid): nat {
    if g == [] then 0 else |g[0]|
  }

  predicate Rect(g: Grid) {
    forall y :: 0 <= y < |g| ==> |g[y]| == Width(g)
  }

  predicate InBounds(g: Grid, y: int, x: int) {
    0 <= y < |g| && 0 <= x < Width(g)
  }

  /** The board in memory. */
  ghost function Cells(board: array2<char>): (g: Grid)
    reads board
    ensures |g| == board.Length0 && Rect(g) && (g != [] ==> Width(g) == board.Length1)
  {
    seq(board.Length0, y requires 0 <= y < board.Length0 reads board =>
      seq(board.Length1, x requires 0 <= x < board.Length1 reads board => board[y, x]))
  }

  // ---------------------------------------------------------------------------
  // Moves

  datatype Dir = North | South | West | East

  /** The cell an 'O' at (y, x) rolls into. */
  function Target(d: Dir, y: int, x: int): (int, int) {
    match d
    case North => (y - 1, x)
    case South => (y + 1, x)
    case West => (y, x - 1)
    case East => (y, x + 1)
  }

  /** The round rock at (y, x) has a free cell beside it in direction `d`. */
  predicate Movable(g: Grid, d: Dir, y: int, x: int)
    requires Rect(g)
  {
    var (ty, tx) := Target(d, y, x);
    InBounds(g, y, x) && InBounds(g, ty, tx) && g[y][x] == 'O' && g[ty][tx] == '.'
  }

  /** No round rock can roll further in direction `d`. */
  predicate Settled(g: Grid, d: Dir)
    requires Rect(g)
  {
    forall y, x :: 0 <= y < |g| && 0 <= x < Width(g) ==> !Movable(g, d, y, x)
  }

  function Set(g: Grid, y: nat, x: nat, c: char): (r: Grid)
    requires Rect(g) && InBounds(g, y, x)
    ensures |r| == |g| && Rect(r) && Width(r) == Width(g)
  {
    g[y := g[y][x := c]]
  }

  /** The board after the rock at (y, x) rolled one cell in direction `d`. */
  function Moved(g: Grid, d: Dir, y: nat, x: nat): (r: Grid)
    requires Rect(g) && Movable(g, d, y, x)
    ensures |r| == |g| && Rect(r) && Width(r) == Width(g)
  {
    var (ty, tx) := Target(d, y, x);
    Set(Set(g, y, x, '.'), ty, tx, 'O')
  }

  predicate Loose(c: char) {
    c == 'O' || c == '.'
  }

  /** Only round rocks and empty cells change, and they stay one or the
      other; the board keeps its dimensions. */
  predicate RocksFixed(g0: Grid, g: Grid)
    requires Rect(g0) && Rect(g)
  {
    |g| == |g0| && Width(g) == Width(g0) &&
    forall y, x :: 0 <= y < |g0| && 0 <= x < Width(g0) ==> if Loose(g0[y][x]) then Loose(g[y][x]) else g[y][x] == g0[y][x]
  }

  function Column(g: Grid, x: nat): (c: seq<char>)
    requires Rect(g) && x < Width(g)
    ensures |c| == |g|
  {
    seq(|g|, y requires 0 <= y < |g| => g[y][x])
  }

  /** Along a line, `b` has as many round rocks as `a` before every fixed
      cell of `a` and in all: no round rock crosses a cube rock. */
  predicate SegmentsKept(a: seq<char>, b: seq<char>)
    requires |b| == |a|
  {
    forall p :: 0 <= p <= |a| && (p == |a| || !Loose(a[p])) ==> CountRound(b[..p]) == CountRound(a[..p])
  }

  /** One line keeps its contents and the round rocks of each of its
      stretches between cube rocks. */
  predicate LineKept(a0: seq<char>, a: seq<char>)
    requires |a| == |a0|
  {
    multiset(a) == multiset(a0) && SegmentsKept(a0, a)
  }

  /** A roll along columns keeps every column, a roll along rows every row. */
  predicate LinesKept(g0: Grid, g: Grid, d: Dir)
    requires Rect(g0) && Rect(g) && |g| == |g0| && Width(g) == Width(g0)
  {
    if d == North || d == South then
      forall x {:trigger LineKept(Column(g0, x), Column(g, x))} :: 0 <= x < Width(g0) ==> LineKept(Column(g0, x), Column(g, x))
    else
      forall y {:trigger LineKept(g0[y], g[y])} :: 0 <= y < |g0| ==> LineKept(g0[y], g[y])
  }

  predicate Keeps(g0: Grid, g: Grid, d: Dir)
    requires Rect(g0) && Rect(g)
  {
    RocksFixed(g0, g) && LinesKept(g0, g, d)
  }

  lemma KeepsTrans(g0: Grid, g1: Grid, g2: Grid, d: Dir)
    requires Rect(g0) && Rect(g1) && Rect(g2)
    requires Keeps(g0, g1, d) && Keeps(g1, g2, d)
    ensures Keeps(g0, g2, d)
  {
    if d == North || d == South {
      forall x | 0 <= x < Width(g0)
        ensures LineKept(Column(g0, x), Column(g2, x))
      {
        assert LineKept(Column(g0, x), Column(g1, x)) && LineKept(Column(g1, x), Column(g2, x));
        assert forall p :: 0 <= p < |g0| && !Loose(Column(g0, x)[p]) ==> Column(g1, x)[p] == Column(g0, x)[p];
      }
    } else {
      forall y | 0 <= y < |g0|
        ensures LineKept(g0[y], g2[y])
      {
        assert LineKept(g0[y], g1[y]) && LineKept(g1[y], g2[y]);
        assert forall p :: 0 <= p < Width(g0) && !Loose(g0[y][p]) ==> g1[y][p] == g0[y][p];
      }
    }
  }

  /** Swapping an 'O' with the '.' next to it keeps the round rocks before
      every fixed cell, since no fixed cell lies between the two. */
  lemma SwapSegments(a: seq<char>, p: nat, q: nat)
    requires p < |a| && q < |a| && (p == q + 1 || q == p + 1) && a[p] == 'O' && a[q] == '.'
    ensures SegmentsKept(a, a[p := '.'][q := 'O'])
  {
    var b := a[p := '.'][q := 'O'];
    forall k | 0 <= k <= |a| && (k == |a| || !Loose(a[k]))
      ensures CountRound(b[..k]) == CountRound(a[..k])
    {
      if k > p {
        assert b[..k] == a[..k][p := '.'][q := 'O'];
        CountRoundMultiset(a[..k]);
        CountRoundMultiset(b[..k]);
      } else {
        assert b[..k] == a[..k];
      }
    }
  }

  lemma MovedColumn(g: Grid, d: Dir, y: nat, x: nat, c: nat)
    requires Rect(g) && Movable(g, d, y, x) && (d == North || d == South) && c < Width(g)
    ensures LineKept(Column(g, c), Column(Moved(g, d, y, x), c))
  {
    var m := Moved(g, d, y, x);
    if c == x {
      assert Column(m, c) == Column(g, c)[y := '.'][Target(d, y, x).0 := 'O'];
      SwapSegments(Column(g, c), y, Target(d, y, x).0);
    } else {
      assert Column(m, c) == Column(g, c);
    }
  }

  lemma MovedRow(g: Grid, d: Dir, y: nat, x: nat, r: nat)
    requires Rect(g) && Movable(g, d, y, x) && (d == West || d == East) && r < |g|
    ensures LineKept(g[r], Moved(g, d, y, x)[r])
  {
    var m := Moved(g, d, y, x);
    if r == y {
      assert m[r] == g[r][x := '.'][Target(d, y, x).1 := 'O'];
      SwapSegments(g[r], x, Target(d, y, x).1);
    }
  }

  /** A single move swaps an 'O' with the '.' beside it: the rocks stay, and
      the line it moves along keeps its contents and the round rocks of each
      stretch between cube rocks. */
  lemma MovedKeeps(g: Grid, d: Dir, y: nat, x: nat)
    requires Rect(g) && Movable(g, d, y, x)
    ensures Keeps(g, Moved(g, d, y, x), d)
  {
    if d == North || d == South {
      forall c | 0 <= c < Width(g)
        ensures LineKept(Column(g, c), Column(Moved(g, d, y, x), c))
      {
        MovedColumn(g, d, y, x, c);
      }
    } else {
      forall r | 0 <= r < |g|
        ensures LineKept(g[r], Moved(g, d, y, x)[r])
      {
        MovedRow(g, d, y, x, r);
      }
    }
  }

  // ---------------------------------------------------------------------------
  // A settled board is determined by what a roll keeps

  /** No round rock along the line could roll one cell further towards its
      start (`front`) or towards its end. */
  predicate Packed(s: seq<char>, front: bool) {
    forall i :: 0 < i < |s| ==> if front then !(s[i] == 'O' && s[i - 1] == '.') else !(s[i - 1] == 'O' && s[i] == '.')
  }

  /** Loose cells of `a0` stay loose in `a`, the others are unchanged. */
  predicate LineFixed(a0: seq<char>, a: seq<char>)
    requires |a| == |a0|
  {
    forall i :: 0 <= i < |a0| ==> if Loose(a0[i]) then Loose(a[i]) else a[i] == a0[i]
  }

  /** The first fixed cell of `a0` at or after `i`, or its length. */
  function SegmentEnd(a0: seq<char>, i: nat): (e: nat)
    requires i <= |a0|
    ensures i <= e <= |a0| && (e == |a0| || !Loose(a0[e]))
    ensures forall j :: i <= j < e ==> Loose(a0[j])
    decreases |a0| - i
  {
    if i == |a0| || !Loose(a0[i]) then i else SegmentEnd(a0, i + 1)
  }

  lemma {:induction false} FirstDiff(a: seq<char>, b: seq<char>) returns (i: nat)
    requires |a| == |b| && a != b
    ensures i < |a| && a[i] != b[i] && a[..i] == b[..i]
  {
    if a[0] != b[0] {
      i := 0;
    } else {
      assert a == [a[0]] + a[1..] && b == [b[0]] + b[1..];
      var k := FirstDiff(a[1..], b[1..]);
      i := k + 1;
      assert a[..i] == [a[0]] + a[1..][..k] && b[..i] == [b[0]] + b[1..][..k];
    }
  }

  lemma {:induction false} CountRoundAppend(s: seq<char>, t: seq<char>)
    ensures CountRound(s + t) == CountRound(s) + CountRound(t)
    decreases |t|
  {
    if t == [] {
      assert s + t == s;
    } else {
      assert (s + t)[..|s + t| - 1] == s + t[..|t| - 1];
      CountRoundAppend(s, t[..|t| - 1]);
    }
  }

  lemma {:induction false} CountRoundAtMost(s: seq<char>)
    ensures CountRound(s) <= |s|
  {
    if s != [] {
      CountRoundAtMost(s[..|s| - 1]);
    }
  }

  lemma {:induction false} AllRounds(s: seq<char>)
    requires forall j :: 0 <= j < |s| ==> s[j] == 'O'
    ensures CountRound(s) == |s|
  {
    if s != [] {
      AllRounds(s[..|s| - 1]);
    }
  }

  lemma {:induction false} NoRounds(s: seq<char>)
    requires forall j :: 0 <= j < |s| ==> s[j] != 'O'
    ensures CountRound(s) == 0
  {
    if s != [] {
      NoRounds(s[..|s| - 1]);
    }
  }

  /** Packed towards the start, the cells after a '.' up to the next fixed
      cell are all '.'. */
  lemma {:induction false} DotsAfter(a0: seq<char>, v: seq<char>, i: nat, e: nat)
    requires |v| == |a0| && LineFixed(a0, v) && Packed(v, true)
    requires i < e <= |a0| && v[i] == '.' && forall j :: i <= j < e ==> Loose(a0[j])
    ensures forall j :: i <= j < e ==> v[j] == '.'
    decreases e
  {
    if e > i + 1 {
      DotsAfter(a0, v, i, e - 1);
      assert Loose(v[e - 1]) && v[e - 2] == '.';
    }
  }

  /** Packed towards the end, the cells after an 'O' up to the next fixed
      cell are all 'O'. */
  lemma {:induction false} RoundsAfter(a0: seq<char>, u: seq<char>, i: nat, e: nat)
    requires |u| == |a0| && LineFixed(a0, u) && Packed(u, false)
    requires i < e <= |a0| && u[i] == 'O' && forall j :: i <= j < e ==> Loose(a0[j])
    ensures forall j :: i <= j < e ==> u[j] == 'O'
    decreases e
  {
    if e > i + 1 {
      RoundsAfter(a0, u, i, e - 1);
      assert Loose(u[e - 1]) && u[e - 2] == 'O';
    }
  }

  lemma HeadCount(s: seq<char>)
    requires s != []
    ensures CountRound(s) == (if s[0] == 'O' then 1 else 0) + CountRound(s[1..])
  {
    assert s == [s[0]] + s[1..];
    CountRoundAppend([s[0]], s[1..]);
    assert [s[0]][..0] == [];
  }

  /** Lines that agree before `i` and keep the round rocks before every fixed
      cell of `a0` hold as many round rocks from `i` to the next fixed cell. */
  lemma StretchCounts(a0: seq<char>, a: seq<char>, b: seq<char>, i: nat)
    requires |a| == |a0| && |b| == |a0| && i <= |a0|
    requires SegmentsKept(a0, a) && SegmentsKept(a0, b) && a[..i] == b[..i]
    ensures CountRound(a[i..SegmentEnd(a0, i)]) == CountRound(b[i..SegmentEnd(a0, i)])
  {
    var e := SegmentEnd(a0, i);
    assert CountRound(a[..e]) == CountRound(a0[..e]) == CountRound(b[..e]);
    assert a[..e] == a[..i] + a[i..e] && b[..e] == b[..i] + b[i..e];
    CountRoundAppend(a[..i], a[i..e]);
    CountRoundAppend(b[..i], b[i..e]);
  }

  /** Two lines that keep the fixed cells of `a0` and its round rocks
      before every fixed cell, packed the same way, cannot first differ at a
      cell holding 'O' in one and '.' in the other: the stretch from there
      to the next fixed cell would hold different numbers of round rocks. */
  lemma FirstDiffImpossible(a0: seq<char>, u: seq<char>, v: seq<char>, i: nat, front: bool)
    requires |u| == |a0| && |v| == |a0| && i < |a0| && u[i] == 'O' && v[i] == '.'
    requires LineFixed(a0, u) && LineFixed(a0, v) && SegmentsKept(a0, u) && SegmentsKept(a0, v)
    requires Packed(u, front) && Packed(v, front)
    ensures u[..i] != v[..i]
  {
    if u[..i] == v[..i] {
      var e := SegmentEnd(a0, i);
      StretchCounts(a0, u, v, i);
      HeadCount(u[i..e]);
      HeadCount(v[i..e]);
      assert u[i..e][1..] == u[i + 1..e] && v[i..e][1..] == v[i + 1..e];
      assert CountRound(u[i + 1..e]) + 1 == CountRound(v[i + 1..e]);
      if front {
        DotsAfter(a0, v, i, e);
        NoRounds(v[i + 1..e]);
      } else {
        RoundsAfter(a0, u, i, e);
        AllRounds(u[i + 1..e]);
        CountRoundAtMost(v[i + 1..e]);
      }
      assert false;
    }
  }

  /** Two such lines packed the same way are equal. */
  lemma PackedLineUnique(a0: seq<char>, a: seq<char>, b: seq<char>, front: bool)
    requires |a| == |a0| && |b| == |a0|
    requires LineFixed(a0, a) && LineFixed(a0, b) && SegmentsKept(a0, a) && SegmentsKept(a0, b)
    requires Packed(a, front) && Packed(b, front)
    ensures a == b
  {
    if a != b {
      var i := FirstDiff(a, b);
      assert Loose(a[i]) && Loose(b[i]);
      if a[i] == 'O' {
        FirstDiffImpossible(a0, a, b, i, front);
      } else {
        FirstDiffImpossible(a0, b, a, i, front);
      }
      assert false;
    }
  }

  lemma SettledColumn(g0: Grid, g: Grid, d: Dir, x: nat)
    requires Rect(g0) && Rect(g) && Keeps(g0, g, d) && Settled(g, d) && (d == North || d == South) && x < Width(g0)
    ensures LineFixed(Column(g0, x), Column(g, x)) && SegmentsKept(Column(g0, x), Column(g, x))
    ensures Packed(Column(g, x), d == North)
  {
    assert LineKept(Column(g0, x), Column(g, x));
    forall i | 0 < i < |g|
      ensures if d == North then !(g[i][x] == 'O' && g[i - 1][x] == '.') else !(g[i - 1][x] == 'O' && g[i][x] == '.')
    {
      if d == North {
        assert !Movable(g, d, i, x);
      } else {
        assert !Movable(g, d, i - 1, x);
      }
    }
  }

  lemma SettledRow(g0: Grid, g: Grid, d: Dir, y: nat)
    requires Rect(g0) && Rect(g) && Keeps(g0, g, d) && Settled(g, d) && (d == West || d == East) && y < |g0|
    ensures |g[y]| == |g0[y]| && LineFixed(g0[y], g[y]) && SegmentsKept(g0[y], g[y])
    ensures Packed(g[y], d == West)
  {
    assert LineKept(g0[y], g[y]);
    forall i | 0 < i < |g[y]|
      ensures if d == West then !(g[y][i] == 'O' && g[y][i - 1] == '.') else !(g[y][i - 1] == 'O' && g[y][i] == '.')
    {
      if d == West {
        assert !Movable(g, d, y, i);
      } else {
        assert !Movable(g, d, y, i - 1);
      }
    }
  }

  /** What a roll promises pins its result down: two boards settled in
      direction `d` that both keep the rocks of `g0`, and the round rocks of
      every stretch between cube rocks along `d`, are the same board. */
  lemma SettledUnique(g0: Grid, g1: Grid, g2: Grid, d: Dir)
    requires Rect(g0) && Rect(g1) && Rect(g2)
    requires Keeps(g0, g1, d) && Keeps(g0, g2, d) && Settled(g1, d) && Settled(g2, d)
    ensures g1 == g2
  {
    if d == North || d == South {
      forall x | 0 <= x < Width(g0)
        ensures Column(g1, x) == Column(g2, x)
      {
        SettledColumn(g0, g1, d, x);
        SettledColumn(g0, g2, d, x);
        PackedLineUnique(Column(g0, x), Column(g1, x), Column(g2, x), d == North);
      }
      forall y | 0 <= y < |g0|
        ensures g1[y] == g2[y]
      {
        assert forall x :: 0 <= x < Width(g0) ==> g1[y][x] == Column(g1, x)[y] && g2[y][x] == Column(g2, x)[y];
      }
    } else {
      forall y | 0 <= y < |g0|
        ensures g1[y] == g2[y]
      {
        SettledRow(g0, g1, d, y);
        SettledRow(g0, g2, d, y);
        PackedLineUnique(g0[y], g1[y], g2[y], d == West);
      }
    }
  }

  /** A round rock never crosses a cube rock: in the column '.', '#', 'O'
      the rock may not end above the '#'. */
  lemma NoCrossing()
    ensures !Keeps([['.'], ['#'], ['O']], [['O'], ['#'], ['.']], North)
  {
    var g0: Grid, g: Grid := [['.'], ['#'], ['O']], [['O'], ['#'], ['.']];
    var a, b := Column(g0, 0), Column(g, 0);
    assert a == ['.', '#', 'O'] && b == ['O', '#', '.'];
    assert a[..1] == ['.'] && b[..1] == ['O'];
    assert CountRound(['.']) == 0 && CountRound(['O']) == 1;
    assert !Loose(a[1]) && CountRound(b[..1]) != CountRound(a[..1]);
    assert !SegmentsKept(a, b);
    assert !LineKept(a, b);
  }

  // ---------------------------------------------------------------------------
  // The termination measure

  /** How far a cell in row y, column x can still roll in direction `d`
      (for North, the row index). */
  function Weight(d: Dir, y: nat, x: nat, h: nat, w: nat): nat
    requires y < h && x < w
  {
    match d
    case North => y
    case South => h - 1 - y
    case West => x
    case East => w - 1 - x
  }

  lemma TargetWeight(g: Grid, d: Dir, y: nat, x: nat)
    requires Rect(g) && Movable(g, d, y, x)
    ensures var (ty, tx) := Target(d, y, x);
      Weight(d, ty, tx, |g|, Width(g)) + 1 == Weight(d, y, x, |g|, Width(g))
  {
  }

  /** The weights of the round rocks among the first `n` cells of row y. */
  function RowPotential(row: seq<char>, d: Dir, y: nat, h: nat, w: nat, n: nat): nat
    requires y < h && n <= |row| && n <= w
  {
    if n == 0 then 0
    else RowPotential(row, d, y, h, w, n - 1) + (if row[n - 1] == 'O' then Weight(d, y, n - 1, h, w) else 0)
  }

  /** The weights of the round rocks in the first `n` rows. */
  function Potential(g: Grid, d: Dir, n: nat): nat
    requires Rect(g) && n <= |g|
  {
    if n == 0 then 0
    else Potential(g, d, n - 1) + RowPotential(g[n - 1], d, n - 1, |g|, Width(g), Width(g))
  }

  function Bonus(c: char, wt: nat): nat {
    if c == 'O' then wt else 0
  }

  lemma {:induction false} RowPotentialSet(row: seq<char>, d: Dir, y: nat, h: nat, w: nat, n: nat, x: nat, c: char)
    requires y < h && n <= |row| && n <= w && x < |row| && x < w
    ensures RowPotential(row[x := c], d, y, h, w, n) + (if x < n then Bonus(row[x], Weight(d, y, x, h, w)) else 0)
      == RowPotential(row, d, y, h, w, n) + (if x < n then Bonus(c, Weight(d, y, x, h, w)) else 0)
  {
    if n > 0 {
      RowPotentialSet(row, d, y, h, w, n - 1, x, c);
    }
  }

  lemma {:induction false} PotentialSet(g: Grid, d: Dir, n: nat, y: nat, x: nat, c: char)
    requires Rect(g) && n <= |g| && InBounds(g, y, x)
    ensures Potential(Set(g, y, x, c), d, n) + (if y < n then Bonus(g[y][x], Weight(d, y, x, |g|, Width(g))) else 0)
      == Potential(g, d, n) + (if y < n then Bonus(c, Weight(d, y, x, |g|, Width(g))) else 0)
  {
    if n > 0 {
      PotentialSet(g, d, n - 1, y, x, c);
      if n - 1 == y {
        RowPotentialSet(g[y], d, y, |g|, Width(g), Width(g), x, c);
      }
    }
  }

  /** Every move lowers the total weight by one, which bounds the passes of
      a roll. */
  lemma MovedPotential(g: Grid, d: Dir, y: nat, x: nat)
    requires Rect(g) && Movable(g, d, y, x)
    ensures Potential(Moved(g, d, y, x), d, |g|) + 1 == Potential(g, d, |g|)
  {
    var (ty, tx) := Target(d, y, x);
    var g1 := Set(g, y, x, '.');
    PotentialSet(g, d, |g|, y, x, '.');
    PotentialSet(g1, d, |g|, ty, tx, 'O');
    TargetWeight(g, d, y, x);
  }

  // ---------------------------------------------------------------------------
  // The rolls

  /** The two writes of a move. */
  method MoveRock(board: array2<char>, ghost d: Dir, y: nat, x: nat, ty: nat, tx: nat)
    requires Rect(Cells(board)) && Movable(Cells(board), d, y, x) && Target(d, y, x) == (ty, tx)
    modifies board
    ensures Cells(board) == Moved(old(Cells(board)), d, y, x)
  {
    ghost var g := Cells(board);
    board[y, x] := '.';
    board[ty, tx] := 'O';
    ghost var m := Moved(g, d, y, x);
    forall i | 0 <= i < board.Length0
      ensures Cells(board)[i] == m[i]
    {
      assert forall j :: 0 <= j < board.Length1 ==> Cells(board)[i][j] == m[i][j];
    }
  }

  /** The cells a pass in direction `d` has visited before (y, x): north
      and south go row by row, west and east column by column. */
  predicate Done(d: Dir, i: int, j: int, y: int, x: int) {
    match d
    case North => i < y || (i == y && j < x)
    case South => i > y || (i == y && j < x)
    case West => j < x || (j == x && i < y)
    case East => j > x || (j == x && i < y)
  }

  /** No visited cell of the board the pass started from could move. */
  predicate Clean(g0: Grid, d: Dir, y: int, x: int)
    requires Rect(g0)
  {
    forall i, j :: 0 <= i < |g0| && 0 <= j < Width(g0) && Done(d, i, j, y, x) ==> !Movable(g0, d, i, j)
  }

  /** What a pass keeps between two cells: the start's rocks and lines, a
      lower weight once something moved, the start itself while nothing
      has, and nothing moved at all from a settled start. */
  predicate Progress(g0: Grid, g: Grid, d: Dir, moved: bool)
    requires Rect(g0) && Rect(g)
  {
    Keeps(g0, g, d) &&
    (moved ==> Potential(g, d, |g|) < Potential(g0, d, |g0|)) &&
    (!moved ==> g == g0) &&
    (Settled(g0, d) ==> !moved)
  }

  /** The loop body of every pass: move the rock at (y, x) to (ty, tx) when
      it is an 'O' facing a '.'. */
  method Visit(board: array2<char>, ghost g0: Grid, ghost d: Dir, y: nat, x: nat, ty: nat, tx: nat, moved: bool)
    returns (moved': bool)
    requires y < board.Length0 && x < board.Length1 && ty < board.Length0 && tx < board.Length1
    requires Target(d, y, x) == (ty, tx)
    requires Rect(g0) && Progress(g0, Cells(board), d, moved)
    modifies board
    ensures Progress(g0, Cells(board), d, moved')
    ensures !moved' ==> !moved && !Movable(g0, d, y, x)
  {
    moved' := moved;
    if board[y, x] == 'O' && board[ty, tx] == '.' {
      ghost var g := Cells(board);
      assert Movable(g, d, y, x);
      MovedKeeps(g, d, y, x);
      MovedPotential(g, d, y, x);
      MoveRock(board, d, y, x, ty, tx);
      KeepsTrans(g0, g, Cells(board), d);
      moved' := true;
    } else {
      assert !Movable(Cells(board), d, y, x);
    }
  }

  /** One pass of `roll_north`: rows top to bottom from the second. A pass
      that moves nothing leaves the board settled; a settled board is never
      moved. */
  method PassNorth(board: array2<char>) returns (moved: bool)
    modifies board
    ensures Progress(old(Cells(board)), Cells(board), North, moved)
    ensures !moved ==> Settled(Cells(board), North)
  {
    ghost var g0 := Cells(board);
    moved := false;
    var y := 1;
    while y < board.Length0
      invariant 1 <= y && Progress(g0, Cells(board), North, moved)
      invariant !moved ==> Clean(g0, North, y, 0)
    {
      for x := 0 to board.Length1
        invariant Progress(g0, Cells(board), North, moved)
        invariant !moved ==> Clean(g0, North, y, x)
      {
        moved := Visit(board, g0, North, y, x, y - 1, x, moved);
      }
      y := y + 1;
    }
  }

  /** One pass of `roll_south`: rows bottom to top from the second last. */
  method PassSouth(board: array2<char>) returns (moved: bool)
    requires board.Length0 >= 1
    modifies board
    ensures Progress(old(Cells(board)), Cells(board), South, moved)
    ensures !moved ==> Settled(Cells(board), South)
  {
    ghost var g0 := Cells(board);
    moved := false;
    for y := board.Length0 - 1 downto 0
      invariant Progress(g0, Cells(board), South, moved)
      invariant !moved ==> Clean(g0, South, y, board.Length1)
    {
      for x := 0 to board.Length1
        invariant Progress(g0, Cells(board), South, moved)
        invariant !moved ==> Clean(g0, South, y, x)
      {
        moved := Visit(board, g0, South, y, x, y + 1, x, moved);
      }
    }
  }

  /** One pass of `roll_west`: columns left to right from the second. */
  method PassWest(board: array2<char>) returns (moved: bool)
    modifies board
    ensures Progress(old(Cells(board)), Cells(board), West, moved)
    ensures !moved ==> Settled(Cells(board), West)
  {
    ghost var g0 := Cells(board);
    moved := false;
    var x := 1;
    while x < board.Length1
      invariant 1 <= x && Progress(g0, Cells(board), West, moved)
      invariant !moved ==> Clean(g0, West, 0, x)
    {
      for y := 0 to board.Length0
        invariant Progress(g0, Cells(board), West, moved)
        invariant !moved ==> Clean(g0, West, y, x)
      {
        moved := Visit(board, g0, West, y, x, y, x - 1, moved);
      }
      x := x + 1;
    }
  }

  /** One pass of `roll_east`: columns right to left from the second last. */
  method PassEast(board: array2<char>) returns (moved: bool)
    requires board.Length1 >= 1
    modifies board
    ensures Progress(old(Cells(board)), Cells(board), East, moved)
    ensures !moved ==> Settled(Cells(board), East)
  {
    ghost var g0 := Cells(board);
    moved := false;
    for x := board.Length1 - 1 downto 0
      invariant Progress(g0, Cells(board), East, moved)
      invariant !moved ==> Clean(g0, East, board.Length0, x)
    {
      for y := 0 to board.Length0
        invariant Progress(g0, Cells(board), East, moved)
        invariant !moved ==> Clean(g0, East, y, x)
      {
        moved := Visit(board, g0, East, y, x, y, x + 1, moved);
      }
    }
  }

  /** `roll_north`: passes until one moves nothing. The board ends settled,
      with the same rocks and the same contents in every column, and a board
      already settled is left as it is. */
  method RollNorth(board: array2<char>)
    modifies board
    ensures Keeps(old(Cells(board)), Cells(board), North) && Settled(Cells(board), North)
    ensures Settled(old(Cells(board)), North) ==> Cells(board) == old(Cells(board))
  {
    ghost var g0 := Cells(board);
    var moving := true;
    while moving
      invariant Keeps(g0, Cells(board), North)
      invariant !moving ==> Settled(Cells(board), North)
      invariant Settled(g0, North) ==> Cells(board) == g0
      decreases Potential(Cells(board), North, board.Length0), moving
    {
      ghost var g := Cells(board);
      moving := PassNorth(board);
      KeepsTrans(g0, g, Cells(board), North);
    }
  }

  method RollSouth(board: array2<char>)
    requires board.Length0 >= 1
    modifies board
    ensures Keeps(old(Cells(board)), Cells(board), South) && Settled(Cells(board), South)
    ensures Settled(old(Cells(board)), South) ==> Cells(board) == old(Cells(board))
  {
    ghost var g0 := Cells(board);
    var moving := true;
    while moving
      invariant Keeps(g0, Cells(board), South)
      invariant !moving ==> Settled(Cells(board), South)
      invariant Settled(g0, South) ==> Cells(board) == g0
      decreases Potential(Cells(board), South, board.Length0), moving
    {
      ghost var g := Cells(board);
      moving := PassSouth(board);
      KeepsTrans(g0, g, Cells(board), South);
    }
  }

  method RollWest(board: array2<char>)
    modifies board
    ensures Keeps(old(Cells(board)), Cells(board), West) && Settled(Cells(board), West)
    ensures Settled(old(Cells(board)), West) ==> Cells(board) == old(Cells(board))
  {
    ghost var g0 := Cells(board);
    var moving := true;
    while moving
      invariant Keeps(g0, Cells(board), West)
      invariant !moving ==> Settled(Cells(board), West)
      invariant Settled(g0, West) ==> Cells(board) == g0
      decreases Potential(Cells(board), West, board.Length0), moving
    {
      ghost var g := Cells(board);
      moving := PassWest(board);
      KeepsTrans(g0, g, Cells(board), West);
    }
  }

  method RollEast(board: array2<char>)
    requires board.Length1 >= 1
    modifies board
    ensures Keeps(old(Cells(board)), Cells(board), East) && Settled(Cells(board), East)
    ensures Settled(old(Cells(board)), East) ==> Cells(board) == old(Cells(board))
  {
    ghost var g0 := Cells(board);
    var moving := true;
    while moving
      invariant Keeps(g0, Cells(board), East)
      invariant !moving ==> Settled(Cells(board), East)
      invariant Settled(g0, East) ==> Cells(board) == g0
      decreases Potential(Cells(board), East, board.Length0), moving
    {
      ghost var g := Cells(board);
      moving := PassEast(board);
      KeepsTrans(g0, g, Cells(board), East);
    }
  }

  /** A spin cycle: north, west, south, east. Each roll ends settled in its
      direction and keeps what the last one left (by SettledUnique this
      fixes every intermediate board and the result), the cube rocks stay,
      and a board settled in all four directions is a fixed point. */
  method Cycle(board: array2<char>) returns (ghost north: Grid, ghost west: Grid, ghost south: Grid)
    requires board.Length0 >= 1 && board.Length1 >= 1
    modifies board
    ensures Rect(north) && Keeps(old(Cells(board)), north, North) && Settled(north, North)
    ensures Rect(west) && Keeps(north, west, West) && Settled(west, West)
    ensures Rect(south) && Keeps(west, south, South) && Settled(south, South)
    ensures Keeps(south, Cells(board), East) && Settled(Cells(board), East)
    ensures RocksFixed(old(Cells(board)), Cells(board))
    ensures (Settled(old(Cells(board)), North) && Settled(old(Cells(board)), West) &&
             Settled(old(Cells(board)), South) && Settled(old(Cells(board)), East)) ==> Cells(board) == old(Cells(board))
  {
    RollNorth(board);
    north := Cells(board);
    RollWest(board);
    west := Cells(board);
    RollSouth(board);
    south := Cells(board);
    RollEast(board);
  }

  // ---------------------------------------------------------------------------
  // The load

  function CountRound(s: seq<char>): nat {
    if s == [] then 0 else CountRound(s[..|s| - 1]) + (if s[|s| - 1] == 'O' then 1 else 0)
  }

  /** The row's round rocks are what its contents say. */
  lemma {:induction false} CountRoundMultiset(s: seq<char>)
    ensures CountRound(s) == multiset(s)['O']
  {
    if s != [] {
      CountRoundMultiset(s[..|s| - 1]);
      assert s == s[..|s| - 1] + [s[|s| - 1]];
    }
  }

  /** The load of the first `n` rows: row i weighs height - i per round rock. */
  function LoadRows(g: Grid, n: nat): nat
    requires n <= |g|
  {
    if n == 0 then 0 else LoadRows(g, n - 1) + (|g| - (n - 1)) * CountRound(g[n - 1])
  }

  function Load(g: Grid): nat {
    LoadRows(g, |g|)
  }

  function TotalRound(g: Grid, n: nat): nat
    requires n <= |g|
  {
    if n == 0 then 0 else TotalRound(g, n - 1) + CountRound(g[n - 1])
  }

  lemma {:induction false} RowPotentialSouth(row: seq<char>, y: nat, h: nat, w: nat, n: nat)
    requires y < h && n <= |row| && n <= w
    ensures RowPotential(row, South, y, h, w, n) == (h - 1 - y) * CountRound(row[..n])
  {
    if n > 0 {
      RowPotentialSouth(row, y, h, w, n - 1);
      assert row[..n][..n - 1] == row[..n - 1];
      var c := CountRound(row[..n - 1]);
      assert (h - 1 - y) * (c + 1) == (h - 1 - y) * c + (h - 1 - y);
    } else {
      assert row[..0] == [];
    }
  }

  /** The load counts for each round rock its distance to the south edge plus
      one: the southward weights plus the number of round rocks. Every move
      north therefore raises the load by one. */
  lemma {:induction false} LoadIsSouthDistance(g: Grid, n: nat)
    requires Rect(g) && n <= |g|
    ensures LoadRows(g, n) == Potential(g, South, n) + TotalRound(g, n)
  {
    if n > 0 {
      LoadIsSouthDistance(g, n - 1);
      RowPotentialSouth(g[n - 1], n - 1, |g|, Width(g), Width(g));
      assert g[n - 1][..Width(g)] == g[n - 1];
      var c := CountRound(g[n - 1]);
      assert (|g| - (n - 1)) * c == (|g| - 1 - (n - 1)) * c + c;
    }
  }

  /** The round rocks of row i (the `filter(..).count()`). */
  method CountRow(board: array2<char>, i: nat) returns (count: nat)
    requires i < board.Length0
    ensures count == CountRound(Cells(board)[i])
  {
    ghost var row := Cells(board)[i];
    count := 0;
    for x := 0 to board.Length1
      invariant count == CountRound(row[..x])
    {
      assert row[..x + 1][..x] == row[..x];
      if board[i, x] == 'O' {
        count := count + 1;
      }
    }
    assert row[..board.Length1] == row;
  }

  /** The load computation of both parts. */
  method LoadOf(board: array2<char>) returns (load: nat)
    ensures load == Load(Cells(board))
  {
    ghost var g := Cells(board);
    var height := board.Length0;
    load := 0;
    for i := 0 to height
      invariant load == LoadRows(g, i)
    {
      var count := CountRow(board, i);
      load := load + (height - i) * count;
    }
  }

  /** `solve_part_1`: roll a copy north and weigh it. The answer is the load
      of every board that is settled north and keeps the input's rocks and
      the round rocks of each stretch of every column, and `rolled` is one. */
  method SolvePart1(board: array2<char>) returns (load: nat, ghost rolled: Grid)
    requires board.Length0 >= 1
    ensures Rect(rolled) && Keeps(Cells(board), rolled, North) && Settled(rolled, North)
    ensures forall g :: Rect(g) && Keeps(Cells(board), g, North) && Settled(g, North) ==> load == Load(g)
  {
    var copy := new char[board.Length0, board.Length1]((y, x) reads board =>
      if 0 <= y < board.Length0 && 0 <= x < board.Length1 then board[y, x] else '.');
    assert Cells(copy) == Cells(board) by {
      forall i | 0 <= i < board.Length0
        ensures Cells(copy)[i] == Cells(board)[i]
      {
      }
    }
    RollNorth(copy);
    rolled := Cells(copy);
    load := LoadOf(copy);
    forall g | Rect(g) && Keeps(Cells(board), g, North) && Settled(g, North)
      ensures load == Load(g)
    {
      SettledUnique(Cells(board), rolled, g, North);
    }
  }

  // ---------------------------------------------------------------------------
  // Skipping ahead to the billionth cycle

  /** The board after `n` applications of the cycle `f`. */
  function Iterate<T>(f: T -> T, s: T, n: nat): T {
    if n == 0 then s else f(Iterate(f, s, n - 1))
  }

  /** The index of the stored board the source reads back, when the board
      after cycle i + 2 equals the one stored at `jStart`. */
  function TargetIndex(jStart: nat, i: nat): nat
    requires jStart <= i && jStart <= 1000000000 - 1
  {
    jStart + (1000000000 - 1 - jStart) % (i + 1 - jStart)
  }

  /** Once the state at `jStart + p` equals the state at `jStart`, the states
      repeat with period p from there on. */
  lemma {:induction false} Periodic<T>(f: T -> T, s: T, jStart: nat, p: nat, m: nat)
    requires Iterate(f, s, jStart + p) == Iterate(f, s, jStart) && jStart <= m
    ensures Iterate(f, s, m + p) == Iterate(f, s, m)
    decreases m - jStart
  {
    if m > jStart {
      Periodic(f, s, jStart, p, m - 1);
    }
  }

  lemma {:induction false} Reduce<T>(f: T -> T, s: T, jStart: nat, p: nat, n: nat)
    requires p > 0 && Iterate(f, s, jStart + p) == Iterate(f, s, jStart) && jStart <= n
    ensures Iterate(f, s, n) == Iterate(f, s, jStart + (n - jStart) % p)
    decreases n
  {
    if n - jStart < p {
      DivModUnique(n - jStart, p, 0, n - jStart);
    } else {
      Reduce(f, s, jStart, p, n - p);
      Periodic(f, s, jStart, p, n - p);
      DivModUnique(n - jStart, p, (n - p - jStart) / p + 1, (n - p - jStart) % p);
    }
  }

  /** The cycle-skipping formula: the source stores the board after cycle
      k + 1 under index k, so when the board after cycle i + 2 equals the one
      stored under `jStart`, the board after the billionth cycle is the one
      stored under TargetIndex(jStart, i). */
  lemma BillionthCycle<T>(f: T -> T, board: T, jStart: nat, i: nat)
    requires jStart <= i && jStart <= 1000000000 - 1
    requires Iterate(f, board, i + 2) == Iterate(f, board, jStart + 1)
    ensures Iterate(f, board, 1000000000) == Iterate(f, board, TargetIndex(jStart, i) + 1)
  {
    var s := f(board);
    forall k: nat
      ensures Iterate(f, s, k) == Iterate(f, board, k + 1)
    {
      IterateShift(f, board, k);
    }
    Reduce(f, s, jStart, i + 1 - jStart, 1000000000 - 1);
  }

  lemma {:induction false} IterateShift<T>(f: T -> T, board: T, k: nat)
    ensures Iterate(f, f(board), k) == Iterate(f, board, k + 1)
  {
    if k > 0 {
      IterateShift(f, board, k - 1);
    }
  }
}
