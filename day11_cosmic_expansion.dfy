/** Day 11 ("Cosmic Expansion"): the galaxies of an image are collected in
    row-major order, every column and then every row holding no galaxy is
    widened by `expansion` extra lines, and the answer is the sum of the
    Manhattan distances over all pairs of galaxies. Part 1 is the same
    computation with `expansion` = 1. */
module CosmicExpansion {

  /** A galaxy's position: (column, row). */
  type Coord = (int, int)

  function Abs(v: int): nat {
    if v < 0 then -v else v
  }

  function Min(a: int, b: int): int {
    if a < b then a else b
  }

  function Max(a: int, b: int): int {
    if a < b then b else a
  }

  function Dist(a: Coord, b: Coord): nat {
    Abs(a.0 - b.0) + Abs(a.1 - b.1)
  }

  // ---------------------------------------------------------------------------
  // Collecting the galaxies

  /** What the source can scan: it reads `galaxy[0]` for the width, so there
      is a first row, and it indexes every row up to that width. A nonzero
      cell is a galaxy. */
  predicate Scannable(g: seq<seq<int>>) {
    |g| > 0 && forall y :: 0 <= y < |g| ==> |g[y]| >= |g[0]|
  }

  /** The galaxies among the first `n` cells of `row`, which is row `y`. */
  function RowGalaxies(row: seq<int>, y: int, n: nat): seq<Coord>
    requires n <= |row|
  {
    if n == 0 then [] else RowGalaxies(row, y, n - 1) + (if row[n - 1] != 0 then [(n - 1, y)] else [])
  }

  /** The galaxies among the first `n` rows, each row read up to column `w`. */
  function GridGalaxies(g: seq<seq<int>>, w: nat, n: nat): seq<Coord>
    requires n <= |g| && forall y :: 0 <= y < |g| ==> |g[y]| >= w
  {
    if n == 0 then [] else GridGalaxies(g, w, n - 1) + RowGalaxies(g[n - 1], n - 1, w)
  }

  function Galaxies(g: seq<seq<int>>): seq<Coord>
    requires Scannable(g)
  {
    GridGalaxies(g, |g[0]|, |g|)
  }

  /** `a` comes before `b` in row-major order. */
  predicate Before(a: Coord, b: Coord) {
    a.1 < b.1 || (a.1 == b.1 && a.0 < b.0)
  }

  predicate RowMajor(gs: seq<Coord>) {
    forall i, j :: 0 <= i < j < |gs| ==> Before(gs[i], gs[j])
  }

  lemma AppendRowMajor(a: seq<Coord>, b: seq<Coord>)
    requires RowMajor(a) && RowMajor(b)
    requires forall p, q :: p in a && q in b ==> Before(p, q)
    ensures RowMajor(a + b)
  {
    forall i, j | 0 <= i < j < |a + b|
      ensures Before((a + b)[i], (a + b)[j])
    {
      if j < |a| {
        assert (a + b)[i] == a[i] && (a + b)[j] == a[j];
      } else if i >= |a| {
        assert (a + b)[i] == b[i - |a|] && (a + b)[j] == b[j - |a|];
      } else {
        assert (a + b)[i] in a && (a + b)[j] in b;
      }
    }
  }

  lemma {:induction false} RowGalaxiesMeaning(row: seq<int>, y: int, n: nat)
    requires n <= |row|
    ensures RowMajor(RowGalaxies(row, y, n))
    ensures forall p :: p in RowGalaxies(row, y, n) <==> p.1 == y && 0 <= p.0 < n && row[p.0] != 0
  {
    if n > 0 {
      RowGalaxiesMeaning(row, y, n - 1);
      var a, b := RowGalaxies(row, y, n - 1), if row[n - 1] != 0 then [(n - 1, y)] else [];
      assert RowGalaxies(row, y, n) == a + b;
      AppendRowMajor(a, b);
      forall p: Coord
        ensures p in a + b <==> p.1 == y && 0 <= p.0 < n && row[p.0] != 0
      {
        assert p in a + b <==> p in a || p in b;
      }
    }
  }

  lemma {:induction false} GridGalaxiesMeaning(g: seq<seq<int>>, w: nat, n: nat)
    requires n <= |g| && forall y :: 0 <= y < |g| ==> |g[y]| >= w
    ensures RowMajor(GridGalaxies(g, w, n))
    ensures forall p :: p in GridGalaxies(g, w, n) <==> 0 <= p.1 < n && 0 <= p.0 < w && g[p.1][p.0] != 0
  {
    if n > 0 {
      GridGalaxiesMeaning(g, w, n - 1);
      RowGalaxiesMeaning(g[n - 1], n - 1, w);
      var a, b := GridGalaxies(g, w, n - 1), RowGalaxies(g[n - 1], n - 1, w);
      assert GridGalaxies(g, w, n) == a + b;
      assert forall p :: p in a ==> p.1 < n - 1;
      assert forall q :: q in b ==> q.1 == n - 1;
      AppendRowMajor(a, b);
      forall p: Coord
        ensures p in a + b <==> 0 <= p.1 < n && 0 <= p.0 < w && g[p.1][p.0] != 0
      {
        assert p in a + b <==> p in a || p in b;
      }
    }
  }

  /** The galaxies are exactly the nonzero cells, each once, in row-major
      order. */
  lemma GalaxiesMeaning(g: seq<seq<int>>)
    requires Scannable(g)
    ensures RowMajor(Galaxies(g))
    ensures forall p :: p in Galaxies(g) <==> 0 <= p.1 < |g| && 0 <= p.0 < |g[0]| && g[p.1][p.0] != 0
  {
    GridGalaxiesMeaning(g, |g[0]|, |g|);
  }

  /** The two nested loops pushing the coordinates of the nonzero cells. */
  method CollectGalaxies(g: seq<seq<int>>) returns (coords: seq<Coord>)
    requires Scannable(g)
    ensures coords == Galaxies(g)
  {
    coords := [];
    var h, w := |g|, |g[0]|;
    for y := 0 to h
      invariant coords == GridGalaxies(g, w, y)
    {
      for x := 0 to w
        invariant coords == GridGalaxies(g, w, y) + RowGalaxies(g[y], y, x)
      {
        ghost var a, b := GridGalaxies(g, w, y), RowGalaxies(g[y], y, x);
        if g[y][x] != 0 {
          assert (a + b) + [(x, y)] == a + (b + [(x, y)]);
          coords := coords + [(x, y)];
        } else {
          assert b + [] == b;
        }
      }
    }
  }

  // ---------------------------------------------------------------------------
  // Expansion along one axis

  /** The coordinate along the axis being expanded: the column or the row. */
  function At(p: Coord, columns: bool): int {
    if columns then p.0 else p.1
  }

  function With(p: Coord, columns: bool, v: int): Coord {
    if columns then (v, p.1) else (p.0, v)
  }

  /** `iter().filter(..).count()`: the galaxies on line `v` of the axis. */
  function CountAt(gs: seq<Coord>, columns: bool, v: int): (n: nat)
    ensures n <= |gs|
  {
    if gs == [] then 0
    else CountAt(gs[..|gs| - 1], columns, v) + if At(gs[|gs| - 1], columns) == v then 1 else 0
  }

  /** The count is zero exactly when no galaxy lies on the line. */
  lemma {:induction false} CountAtZero(gs: seq<Coord>, columns: bool, v: int)
    ensures CountAt(gs, columns, v) == 0 <==> forall k :: 0 <= k < |gs| ==> At(gs[k], columns) != v
    decreases |gs|
  {
    if gs != [] {
      var a := gs[..|gs| - 1];
      CountAtZero(a, columns, v);
      assert forall k :: 0 <= k < |a| ==> a[k] == gs[k];
    }
  }

  /** Two lists that agree, element by element, on which galaxies lie on the
      lines asked about count the same. */
  lemma {:induction false} CountAtSame(a: seq<Coord>, b: seq<Coord>, columns: bool, v: int, w: int)
    requires |a| == |b|
    requires forall k :: 0 <= k < |a| ==> (At(a[k], columns) == v <==> At(b[k], columns) == w)
    ensures CountAt(a, columns, v) == CountAt(b, columns, w)
    decreases |a|
  {
    if a != [] {
      CountAtSame(a[..|a| - 1], b[..|b| - 1], columns, v, w);
    }
  }

  /** The number of empty lines (holding no galaxy) among 0 .. c - 1. */
  function EmptyBelow(gs: seq<Coord>, columns: bool, c: int): nat
    decreases c
  {
    if c <= 0 then 0 else EmptyBelow(gs, columns, c - 1) + if CountAt(gs, columns, c - 1) == 0 then 1 else 0
  }

  /** The number of empty lines strictly between `lo` and `hi`. */
  function EmptyBetween(gs: seq<Coord>, columns: bool, lo: int, hi: int): nat
    decreases hi - lo
  {
    if hi <= lo + 1 then 0 else EmptyBetween(gs, columns, lo, hi - 1) + if CountAt(gs, columns, hi - 1) == 0 then 1 else 0
  }

  lemma {:induction false} EmptyBelowMono(gs: seq<Coord>, columns: bool, c: int, d: int)
    requires c <= d
    ensures EmptyBelow(gs, columns, c) <= EmptyBelow(gs, columns, d)
    decreases d - c
  {
    if c < d {
      EmptyBelowMono(gs, columns, c, d - 1);
    }
  }

  lemma {:induction false} EmptyBelowSplit(gs: seq<Coord>, columns: bool, lo: int, hi: int)
    requires 0 <= lo < hi
    ensures EmptyBelow(gs, columns, hi) == EmptyBelow(gs, columns, lo + 1) + EmptyBetween(gs, columns, lo, hi)
    decreases hi - lo
  {
    if hi > lo + 1 {
      EmptyBelowSplit(gs, columns, lo, hi - 1);
    }
  }

  /** The extra lines that `n` empty lines, each widened by `e`, add: n * e
      (`StretchIsProduct`), written as a sum. */
  function Stretch(e: int, n: nat): int {
    if n == 0 then 0 else Stretch(e, n - 1) + e
  }

  lemma {:induction false} StretchIsProduct(e: int, n: nat)
    ensures Stretch(e, n) == n * e
  {
    if n > 0 {
      StretchIsProduct(e, n - 1);
    }
  }

  lemma {:induction false} StretchMono(e: int, a: nat, b: nat)
    requires e >= 0 && a <= b
    ensures Stretch(e, a) <= Stretch(e, b)
    decreases b
  {
    if a < b {
      StretchMono(e, a, b - 1);
    }
  }

  lemma {:induction false} StretchAdd(e: int, a: nat, b: nat)
    ensures Stretch(e, a + b) == Stretch(e, a) + Stretch(e, b)
    decreases b
  {
    if b > 0 {
      StretchAdd(e, a, b - 1);
    }
  }

  /** Every galaxy moved along the axis by `e` for each empty line before it;
      the other coordinate and the number of galaxies stay. */
  function Expanded(gs: seq<Coord>, columns: bool, e: int): (r: seq<Coord>)
    ensures |r| == |gs|
    ensures forall k :: 0 <= k < |gs| ==> At(r[k], !columns) == At(gs[k], !columns)
  {
    seq(|gs|, k requires 0 <= k < |gs| => With(gs[k], columns, At(gs[k], columns) + Stretch(e, EmptyBelow(gs, columns, At(gs[k], columns)))))
  }

  /** Where a galaxy on line `c` stands once the lines before `o` were
      scanned. */
  function MovedTo(gs: seq<Coord>, columns: bool, e: int, o: int, c: int): int {
    c + Stretch(e, EmptyBelow(gs, columns, Min(c, o)))
  }

  /** The galaxies once the lines before `o` were scanned. */
  ghost function ExpandedBelow(gs: seq<Coord>, columns: bool, e: int, o: int): (r: seq<Coord>)
    ensures |r| == |gs|
  {
    seq(|gs|, k requires 0 <= k < |gs| => With(gs[k], columns, MovedTo(gs, columns, e, o, At(gs[k], columns))))
  }

  /** The `iter_mut().for_each` pass at line `v`: the galaxies beyond it move
      by `e`. */
  function Shifted(gs: seq<Coord>, columns: bool, v: int, e: int): (r: seq<Coord>)
    ensures |r| == |gs|
  {
    seq(|gs|, k requires 0 <= k < |gs| => if At(gs[k], columns) > v then With(gs[k], columns, At(gs[k], columns) + e) else gs[k])
  }

  /** Scanned positions keep their order: a galaxy lies on the scan line
      exactly when it lay on line `o`, and beyond it exactly when it lay
      beyond `o`. */
  lemma MovedToOrder(gs: seq<Coord>, columns: bool, e: int, o: int, c: int)
    requires e >= 0 && 0 <= o && 0 <= c
    ensures MovedTo(gs, columns, e, o, c) == MovedTo(gs, columns, e, o, o) <==> c == o
    ensures MovedTo(gs, columns, e, o, c) > MovedTo(gs, columns, e, o, o) <==> c > o
  {
    if c < o {
      EmptyBelowMono(gs, columns, c, o);
      StretchMono(e, EmptyBelow(gs, columns, c), EmptyBelow(gs, columns, o));
    }
  }

  /** At line `o` the scan line holds as many galaxies as line `o` did. */
  lemma ScanCount(gs: seq<Coord>, columns: bool, e: int, o: int)
    requires e >= 0 && 0 <= o
    requires forall k :: 0 <= k < |gs| ==> 0 <= At(gs[k], columns)
    ensures CountAt(ExpandedBelow(gs, columns, e, o), columns, MovedTo(gs, columns, e, o, o)) == CountAt(gs, columns, o)
  {
    var r, x := ExpandedBelow(gs, columns, e, o), MovedTo(gs, columns, e, o, o);
    forall k | 0 <= k < |gs|
      ensures At(r[k], columns) == x <==> At(gs[k], columns) == o
    {
      MovedToOrder(gs, columns, e, o, At(gs[k], columns));
    }
    CountAtSame(r, gs, columns, x, o);
  }

  /** After an empty line `o`, the galaxies beyond it move by `e`. */
  lemma ScanEmpty(gs: seq<Coord>, columns: bool, e: int, o: int)
    requires e >= 0 && 0 <= o && CountAt(gs, columns, o) == 0
    requires forall k :: 0 <= k < |gs| ==> 0 <= At(gs[k], columns)
    ensures Shifted(ExpandedBelow(gs, columns, e, o), columns, MovedTo(gs, columns, e, o, o), e) == ExpandedBelow(gs, columns, e, o + 1)
  {
    var r, x := ExpandedBelow(gs, columns, e, o), MovedTo(gs, columns, e, o, o);
    var next := ExpandedBelow(gs, columns, e, o + 1);
    CountAtZero(gs, columns, o);
    var n := EmptyBelow(gs, columns, o);
    assert EmptyBelow(gs, columns, o + 1) == n + 1;
    assert Stretch(e, n + 1) == Stretch(e, n) + e;
    forall k | 0 <= k < |gs|
      ensures Shifted(r, columns, x, e)[k] == next[k]
    {
      MovedToOrder(gs, columns, e, o, At(gs[k], columns));
    }
  }

  /** After a line `o` holding a galaxy, nothing moves. */
  lemma ScanFull(gs: seq<Coord>, columns: bool, e: int, o: int)
    requires e >= 0 && 0 <= o && CountAt(gs, columns, o) != 0
    ensures ExpandedBelow(gs, columns, e, o) == ExpandedBelow(gs, columns, e, o + 1)
  {
    var r, next := ExpandedBelow(gs, columns, e, o), ExpandedBelow(gs, columns, e, o + 1);
    assert EmptyBelow(gs, columns, o + 1) == EmptyBelow(gs, columns, o);
    forall k | 0 <= k < |gs|
      ensures r[k] == next[k]
    {
    }
  }

  /** The `iter_mut().for_each` loop. */
  method ShiftBeyond(coords: seq<Coord>, columns: bool, v: int, e: int) returns (r: seq<Coord>)
    ensures r == Shifted(coords, columns, v, e)
  {
    r := coords;
    for k := 0 to |r|
      invariant |r| == |coords|
      invariant forall k' :: 0 <= k' < |r| ==> r[k'] == if k' < k then Shifted(coords, columns, v, e)[k'] else coords[k']
    {
      if At(r[k], columns) > v {
        r := r[k := With(r[k], columns, At(r[k], columns) + e)];
      }
    }
  }

  /** The `while` loop expanding one axis of `size` lines: the scan position
      `x` jumps over the lines it inserts, and the loop stops at the grown
      size. The new positions are the expanded ones. */
  method Expand(coords: seq<Coord>, columns: bool, size: int, e: int) returns (r: seq<Coord>, newSize: int)
    requires e >= 0 && size >= 0
    requires forall k :: 0 <= k < |coords| ==> 0 <= At(coords[k], columns) < size
    ensures r == Expanded(coords, columns, e)
    ensures newSize == size + Stretch(e, EmptyBelow(coords, columns, size))
  {
    r, newSize := coords, size;
    var x := 0;
    ghost var o := 0;
    assert r == ExpandedBelow(coords, columns, e, 0);
    while x < newSize
      invariant 0 <= o <= size
      invariant x == o + Stretch(e, EmptyBelow(coords, columns, o))
      invariant newSize == size + Stretch(e, EmptyBelow(coords, columns, o))
      invariant r == ExpandedBelow(coords, columns, e, o)
      decreases size - o
    {
      assert x == MovedTo(coords, columns, e, o, o);
      ScanCount(coords, columns, e, o);
      ghost var n := EmptyBelow(coords, columns, o);
      if CountAt(r, columns, x) == 0 {
        ScanEmpty(coords, columns, e, o);
        assert EmptyBelow(coords, columns, o + 1) == n + 1;
        assert Stretch(e, n + 1) == Stretch(e, n) + e;
        r := ShiftBeyond(r, columns, x, e);
        newSize := newSize + e;
        x := x + e;
      } else {
        ScanFull(coords, columns, e, o);
        assert EmptyBelow(coords, columns, o + 1) == n;
      }
      x := x + 1;
      o := o + 1;
    }
    ScanDone(coords, columns, e, o);
  }

  /** Once every line the galaxies lie on was scanned, they stand where the
      expansion puts them. */
  lemma ScanDone(gs: seq<Coord>, columns: bool, e: int, o: int)
    requires forall k :: 0 <= k < |gs| ==> At(gs[k], columns) < o
    ensures ExpandedBelow(gs, columns, e, o) == Expanded(gs, columns, e)
  {
    var r, f := ExpandedBelow(gs, columns, e, o), Expanded(gs, columns, e);
    forall k | 0 <= k < |gs|
      ensures r[k] == f[k]
    {
    }
  }

  // ---------------------------------------------------------------------------
  // Distances

  /** The distances from galaxy `i` to galaxies i+1 .. j-1. */
  function RowPairs(gs: seq<Coord>, i: nat, j: nat): nat
    requires i < |gs| && j <= |gs|
  {
    if j <= i + 1 then 0 else RowPairs(gs, i, j - 1) + Dist(gs[i], gs[j - 1])
  }

  /** The distances of every pair whose first galaxy is among the first `n`
      (the order of the two nested loops). */
  function Pairs(gs: seq<Coord>, n: nat): nat
    requires n <= |gs|
  {
    if n == 0 then 0 else Pairs(gs, n - 1) + RowPairs(gs, n - 1, |gs|)
  }

  /** The distances from the first `n` galaxies of `gs` to `b`. */
  function ToPoint(gs: seq<Coord>, b: Coord, n: nat): nat
    requires n <= |gs|
  {
    if n == 0 then 0 else ToPoint(gs, b, n - 1) + Dist(gs[n - 1], b)
  }

  /** An independent definition of the pair sum: each galaxy paired with
      all galaxies before it. */
  function AllPairs(gs: seq<Coord>): nat {
    if gs == [] then 0 else AllPairs(gs[..|gs| - 1]) + ToPoint(gs[..|gs| - 1], gs[|gs| - 1], |gs| - 1)
  }

  lemma {:induction false} RowPairsPrefix(a: seq<Coord>, b: Coord, i: nat, j: nat)
    requires i < |a| && j <= |a|
    ensures RowPairs(a + [b], i, j) == RowPairs(a, i, j)
  {
    if j > i + 1 {
      RowPairsPrefix(a, b, i, j - 1);
      assert (a + [b])[j - 1] == a[j - 1] && (a + [b])[i] == a[i];
    }
  }

  lemma {:induction false} PairsAppend(a: seq<Coord>, b: Coord, n: nat)
    requires n <= |a|
    ensures Pairs(a + [b], n) == Pairs(a, n) + ToPoint(a, b, n)
  {
    if n > 0 {
      var c := a + [b];
      PairsAppend(a, b, n - 1);
      RowPairsPrefix(a, b, n - 1, |a|);
      assert c[|a|] == b && c[n - 1] == a[n - 1];
      assert RowPairs(c, n - 1, |c|) == RowPairs(c, n - 1, |a|) + Dist(a[n - 1], b);
    }
  }

  /** The nested loops' sum is the sum over all pairs. */
  lemma {:induction false} PairsIsAllPairs(gs: seq<Coord>)
    ensures Pairs(gs, |gs|) == AllPairs(gs)
    decreases |gs|
  {
    if gs != [] {
      var a, b := gs[..|gs| - 1], gs[|gs| - 1];
      assert gs == a + [b];
      PairsIsAllPairs(a);
      PairsAppend(a, b, |a|);
    }
  }

  /** The two nested loops summing the distances of all pairs i < j. */
  method PairSum(coords: seq<Coord>) returns (sum: int)
    ensures sum == Pairs(coords, |coords|)
  {
    sum := 0;
    for i := 0 to |coords|
      invariant sum == Pairs(coords, i)
    {
      for j := i + 1 to |coords|
        invariant sum == Pairs(coords, i) + RowPairs(coords, i, j)
      {
        sum := sum + (Abs(coords[i].0 - coords[j].0) + Abs(coords[i].1 - coords[j].1));
      }
    }
  }

  // ---------------------------------------------------------------------------
  // The answer

  /** The galaxies after the columns and then the rows were expanded. */
  function ExpandedGalaxies(g: seq<seq<int>>, e: int): seq<Coord>
    requires Scannable(g)
  {
    Expanded(Expanded(Galaxies(g), true, e), false, e)
  }

  function Answer(g: seq<seq<int>>, e: int): nat
    requires Scannable(g)
  {
    Pairs(ExpandedGalaxies(g, e), |Galaxies(g)|)
  }

  /** `solve_part_2` (and `solve_part_1` for `expansion` = 1). */
  method Solve(g: seq<seq<int>>, expansion: int) returns (sum: int)
    requires Scannable(g) && expansion >= 0
    ensures sum == Answer(g, expansion)
  {
    var coords := CollectGalaxies(g);
    GalaxiesMeaning(g);
    var height, width := |g|, |g[0]|;
    assert forall k :: 0 <= k < |coords| ==> coords[k] in Galaxies(g);
    coords, width := Expand(coords, true, width, expansion);
    coords, height := Expand(coords, false, height, expansion);
    sum := PairSum(coords);
  }

  /** Expanding one axis stretches the distance along it by `e` for each
      empty line strictly between the two galaxies. */
  lemma ExpandedGap(gs: seq<Coord>, columns: bool, e: int, i: int, j: int)
    requires e >= 0 && 0 <= i < |gs| && 0 <= j < |gs|
    requires forall k :: 0 <= k < |gs| ==> 0 <= At(gs[k], columns)
    ensures Abs(At(Expanded(gs, columns, e)[i], columns) - At(Expanded(gs, columns, e)[j], columns)) ==
      Abs(At(gs[i], columns) - At(gs[j], columns)) +
      Stretch(e, EmptyBetween(gs, columns, Min(At(gs[i], columns), At(gs[j], columns)), Max(At(gs[i], columns), At(gs[j], columns))))
  {
    ExpandedAt(gs, columns, e, i);
    ExpandedAt(gs, columns, e, j);
    if At(gs[i], columns) <= At(gs[j], columns) {
      GapOrdered(gs, columns, e, i, At(gs[i], columns), At(gs[j], columns));
    } else {
      GapOrdered(gs, columns, e, j, At(gs[j], columns), At(gs[i], columns));
    }
  }

  lemma ExpandedAt(gs: seq<Coord>, columns: bool, e: int, k: int)
    requires 0 <= k < |gs|
    ensures At(Expanded(gs, columns, e)[k], columns) == At(gs[k], columns) + Stretch(e, EmptyBelow(gs, columns, At(gs[k], columns)))
  { }

  /** Between a galaxy's line `lo` and a line `hi` beyond it, the stretch
      grows by exactly the empty lines strictly between them. */
  lemma GapOrdered(gs: seq<Coord>, columns: bool, e: int, k: int, lo: int, hi: int)
    requires e >= 0 && 0 <= k < |gs| && At(gs[k], columns) == lo && 0 <= lo <= hi
    ensures hi + Stretch(e, EmptyBelow(gs, columns, hi)) - (lo + Stretch(e, EmptyBelow(gs, columns, lo)))
      == hi - lo + Stretch(e, EmptyBetween(gs, columns, lo, hi))
    ensures Stretch(e, EmptyBetween(gs, columns, lo, hi)) >= 0
  {
    StretchMono(e, 0, EmptyBetween(gs, columns, lo, hi));
    if lo < hi {
      EmptyBelowSplit(gs, columns, lo, hi);
      CountAtZero(gs, columns, lo);
      assert EmptyBelow(gs, columns, lo + 1) == EmptyBelow(gs, columns, lo);
      StretchAdd(e, EmptyBelow(gs, columns, lo), EmptyBetween(gs, columns, lo, hi));
    }
  }

  /** The distance between two galaxies in the answer is their distance in
      the image plus `e` for every empty column and every empty row strictly
      between them. */
  lemma GalaxyDistance(g: seq<seq<int>>, e: int, i: int, j: int)
    requires Scannable(g) && e >= 0 && 0 <= i < |Galaxies(g)| && 0 <= j < |Galaxies(g)|
    ensures var gs := Galaxies(g);
      Dist(ExpandedGalaxies(g, e)[i], ExpandedGalaxies(g, e)[j]) ==
        Dist(gs[i], gs[j]) +
        Stretch(e, EmptyBetween(gs, true, Min(gs[i].0, gs[j].0), Max(gs[i].0, gs[j].0))) +
        Stretch(e, EmptyBetween(gs, false, Min(gs[i].1, gs[j].1), Max(gs[i].1, gs[j].1)))
  {
    var gs := Galaxies(g);
    GalaxiesNonNegative(g);
    var cols := Expanded(gs, true, e);
    ExpandedGap(gs, true, e, i, j);
    ExpandedGap(cols, false, e, i, j);
    ColumnsKeepRows(gs, e, Min(gs[i].1, gs[j].1), Max(gs[i].1, gs[j].1));
  }

  lemma GalaxiesNonNegative(g: seq<seq<int>>)
    requires Scannable(g)
    ensures forall k :: 0 <= k < |Galaxies(g)| ==> 0 <= Galaxies(g)[k].0 && 0 <= Galaxies(g)[k].1
  {
    GalaxiesMeaning(g);
    assert forall k :: 0 <= k < |Galaxies(g)| ==> Galaxies(g)[k] in Galaxies(g);
  }

  /** Expanding the columns leaves the rows, and so the empty rows, alone. */
  lemma ColumnsKeepRows(gs: seq<Coord>, e: int, lo: int, hi: int)
    ensures EmptyBetween(Expanded(gs, true, e), false, lo, hi) == EmptyBetween(gs, false, lo, hi)
  {
    var cols := Expanded(gs, true, e);
    forall v
      ensures CountAt(cols, false, v) == CountAt(gs, false, v)
    {
      CountAtSame(cols, gs, false, v, v);
    }
    EmptyBetweenSame(cols, gs, lo, hi);
  }

  lemma {:induction false} EmptyBetweenSame(a: seq<Coord>, b: seq<Coord>, lo: int, hi: int)
    requires forall v :: CountAt(a, false, v) == CountAt(b, false, v)
    ensures EmptyBetween(a, false, lo, hi) == EmptyBetween(b, false, lo, hi)
    decreases hi - lo
  {
    if hi > lo + 1 {
      EmptyBetweenSame(a, b, lo, hi - 1);
    }
  }
}
