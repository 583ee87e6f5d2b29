/** Day 13 ("Point of Incidence"): a pattern of ash '.' and rocks '#' has a
    line of reflection between two rows or two columns. The searches return
    the first split whose two sides mirror each other, skipping the split
    found before; part 2 flips each cell in turn to find the smudge. */
module PointOfIncidence {

  datatype Option<T> = None | Some(value: T)

  type Grid = seq<seq<char>>

  function Width(g: Grid): nat {
    if g == [] then 0 else |g[0]|
  }

  predicate Rect(g: Grid) {
    forall y :: 0 <= y < |g| ==> |g[y]| == Width(g)
  }

  function Min(a: int, b: int): int {
    if a < b then a else b
  }

  // ---------------------------------------------------------------------------
  // Reflections

  /** Row `y` above split `s` equals row `y` below it. */
  predicate RowPairMatches(g: Grid, s: nat, y: nat)
    requires Rect(g) && y < s && s + y < |g|
  {
    g[s - y - 1] == g[s + y]
  }

  /** The rows above split `s` mirror those below it, as far as the nearer
      edge. */
  predicate RowsMirror(g: Grid, s: nat)
    requires Rect(g) && s <= |g|
  {
    forall y :: 0 <= y < Min(s, |g| - s) ==> RowPairMatches(g, s, y)
  }

  /** Column `x` left of split `s` equals column `x` right of it. */
  predicate ColPairMatches(g: Grid, s: nat, x: nat)
    requires Rect(g) && x < s && s + x < Width(g)
  {
    forall y :: 0 <= y < |g| ==> g[y][s - x - 1] == g[y][s + x]
  }

  /** The columns left of split `s` mirror those to its right. */
  predicate ColsMirror(g: Grid, s: nat)
    requires Rect(g) && s <= Width(g)
  {
    forall x :: 0 <= x < Min(s, Width(g) - s) ==> ColPairMatches(g, s, x)
  }

  /** The first split from `s` on that mirrors and is not `previous`. */
  function HorizontalFrom(g: Grid, previous: Option<nat>, s: nat): Option<nat>
    requires Rect(g) && s >= 1
    decreases |g| - s
  {
    if s >= |g| then None
    else if RowsMirror(g, s) && previous != Some(s) then Some(s)
    else HorizontalFrom(g, previous, s + 1)
  }

  /** `find_horizontal_reflection`. */
  function Horizontal(g: Grid, previous: Option<nat>): Option<nat>
    requires Rect(g)
  {
    HorizontalFrom(g, previous, 1)
  }

  function VerticalFrom(g: Grid, previous: Option<nat>, s: nat): Option<nat>
    requires Rect(g) && s >= 1
    decreases Width(g) - s
  {
    if s >= Width(g) then None
    else if ColsMirror(g, s) && previous != Some(s) then Some(s)
    else VerticalFrom(g, previous, s + 1)
  }

  /** `find_vertical_reflection`. */
  function Vertical(g: Grid, previous: Option<nat>): Option<nat>
    requires Rect(g)
  {
    VerticalFrom(g, previous, 1)
  }

  /** Split `t` is one the search accepts: its rows mirror and it is not
      `previous`. */
  predicate Accepted(g: Grid, previous: Option<nat>, t: nat)
    requires Rect(g) && t <= |g|
  {
    RowsMirror(g, t) && previous != Some(t)
  }

  /** `r` is the first accepted split from `s` on. */
  predicate FirstAccepted(g: Grid, previous: Option<nat>, s: nat, r: nat)
    requires Rect(g)
  {
    s <= r < |g| && Accepted(g, previous, r) && forall t :: s <= t < r ==> !Accepted(g, previous, t)
  }

  lemma {:induction false} HorizontalFromMeaning(g: Grid, previous: Option<nat>, s: nat)
    requires Rect(g) && s >= 1
    ensures HorizontalFrom(g, previous, s) == None <==> forall t :: s <= t < |g| ==> !Accepted(g, previous, t)
    ensures HorizontalFrom(g, previous, s).Some? ==> FirstAccepted(g, previous, s, HorizontalFrom(g, previous, s).value)
    decreases |g| - s
  {
    if s < |g| && !Accepted(g, previous, s) {
      HorizontalFromMeaning(g, previous, s + 1);
    }
  }

  /** The horizontal search returns the smallest split in 1..height whose
      rows mirror, other than `previous`, and None when there is none. */
  lemma HorizontalMeaning(g: Grid, previous: Option<nat>)
    requires Rect(g)
    ensures Horizontal(g, previous) == None <==>
      forall t :: 1 <= t < |g| ==> !RowsMirror(g, t) || previous == Some(t)
    ensures forall r :: Horizontal(g, previous) == Some(r) <==>
      1 <= r < |g| && RowsMirror(g, r) && previous != Some(r) &&
      forall t :: 1 <= t < r ==> !RowsMirror(g, t) || previous == Some(t)
  {
    HorizontalFromMeaning(g, previous, 1);
    assert forall t :: 1 <= t < |g| ==> (Accepted(g, previous, t) <==> RowsMirror(g, t) && previous != Some(t));
    forall r | FirstAccepted(g, previous, 1, r)
      ensures Horizontal(g, previous) == Some(r)
    {
      var h := Horizontal(g, previous).value;
      assert FirstAccepted(g, previous, 1, h);
      assert !(h < r) && !(r < h);
    }
  }

  /** The pattern's columns as rows. */
  function Transpose(g: Grid): (t: Grid)
    requires Rect(g)
    ensures |t| == Width(g) && Rect(t) && (t != [] ==> Width(t) == |g|)
  {
    seq(Width(g), x requires 0 <= x < Width(g) => seq(|g|, y requires 0 <= y < |g| => g[y][x]))
  }

  lemma ColsMirrorTranspose(g: Grid, s: nat)
    requires Rect(g) && s <= Width(g)
    ensures ColsMirror(g, s) <==> RowsMirror(Transpose(g), s)
  {
    var t := Transpose(g);
    forall x | 0 <= x < Min(s, Width(g) - s)
      ensures ColPairMatches(g, s, x) <==> RowPairMatches(t, s, x)
    {
      var a, b := t[s - x - 1], t[s + x];
      if ColPairMatches(g, s, x) {
        assert forall y :: 0 <= y < |g| ==> a[y] == b[y];
      }
      if a == b {
        assert forall y :: 0 <= y < |g| ==> a[y] == g[y][s - x - 1] && b[y] == g[y][s + x];
      }
    }
  }

  lemma {:induction false} VerticalFromTranspose(g: Grid, previous: Option<nat>, s: nat)
    requires Rect(g) && s >= 1
    ensures VerticalFrom(g, previous, s) == HorizontalFrom(Transpose(g), previous, s)
    decreases Width(g) - s
  {
    if s < Width(g) {
      ColsMirrorTranspose(g, s);
      VerticalFromTranspose(g, previous, s + 1);
    }
  }

  /** The vertical search is the horizontal one on the columns. */
  lemma VerticalIsHorizontalOfColumns(g: Grid, previous: Option<nat>)
    requires Rect(g)
    ensures Vertical(g, previous) == Horizontal(Transpose(g), previous)
  {
    VerticalFromTranspose(g, previous, 1);
  }

  /** Hence the vertical search returns the smallest split in 1..width
      whose columns mirror, other than `previous`, and None when there is
      none. */
  lemma VerticalMeaning(g: Grid, previous: Option<nat>)
    requires Rect(g)
    ensures Vertical(g, previous) == None <==>
      forall t :: 1 <= t < Width(g) ==> !ColsMirror(g, t) || previous == Some(t)
    ensures forall r :: Vertical(g, previous) == Some(r) <==>
      1 <= r < Width(g) && ColsMirror(g, r) && previous != Some(r) &&
      forall t :: 1 <= t < r ==> !ColsMirror(g, t) || previous == Some(t)
  {
    VerticalIsHorizontalOfColumns(g, previous);
    HorizontalMeaning(Transpose(g), previous);
    forall t | 1 <= t < Width(g)
      ensures ColsMirror(g, t) <==> RowsMirror(Transpose(g), t)
    {
      ColsMirrorTranspose(g, t);
    }
  }

  // ---------------------------------------------------------------------------
  // Scores

  /** The part-1 score of a pattern: its columns when it has a vertical
      reflection, else 100 times its rows; None where the source panics. */
  function Score(g: Grid): Option<nat>
    requires Rect(g)
  {
    match Vertical(g, None)
    case Some(cols) => Some(cols)
    case None =>
      match Horizontal(g, None)
      case Some(rows) => Some(100 * rows)
      case None => None
  }

  /** A score is a mirroring column split, or 100 times a mirroring row
      split when no column split mirrors. */
  lemma ScoreMeaning(g: Grid)
    requires Rect(g)
    ensures Score(g).Some? ==>
      var v := Score(g).value;
      (1 <= v < Width(g) && ColsMirror(g, v)) ||
      (v % 100 == 0 && 1 <= v / 100 < |g| && RowsMirror(g, v / 100) &&
       forall t :: 1 <= t < Width(g) ==> !ColsMirror(g, t))
  {
    VerticalMeaning(g, None);
    if Vertical(g, None) == None {
      HorizontalMeaning(g, None);
      if Horizontal(g, None).Some? {
        var r := Horizontal(g, None).value;
        assert Score(g) == Some(100 * r);
        assert (100 * r) / 100 == r && (100 * r) % 100 == 0;
      }
    }
  }

  /** The source panics exactly when neither a column split nor a row split
      mirrors. */
  lemma ScoreUndefined(g: Grid)
    requires Rect(g)
    ensures Score(g) == None <==>
      (forall t :: 1 <= t < Width(g) ==> !ColsMirror(g, t)) && (forall t :: 1 <= t < |g| ==> !RowsMirror(g, t))
  {
    HorizontalMeaning(g, None);
    VerticalMeaning(g, None);
  }

  function Value(r: Option<nat>): nat {
    if r.Some? then r.value else 0
  }

  function Other(c: char): char {
    if c == '#' then '.' else '#'
  }

  /** The pattern with the cell at (y, x) flipped. */
  function Flip(g: Grid, y: nat, x: nat): (f: Grid)
    requires Rect(g) && y < |g| && x < Width(g)
    ensures |f| == |g| && Rect(f) && Width(f) == Width(g)
  {
    g[y := g[y][x := Other(g[y][x])]]
  }

  /** Writing the saved cell back undoes the flip. */
  lemma FlipUndone(g: Grid, y: nat, x: nat)
    requires Rect(g) && y < |g| && x < Width(g)
    ensures Flip(g, y, x)[y := Flip(g, y, x)[y][x := g[y][x]]] == g
  {
    assert Flip(g, y, x)[y][x := g[y][x]] == g[y];
  }

  /** A flip changes exactly one cell. */
  lemma FlipChangesOneCell(g: Grid, y: nat, x: nat)
    requires Rect(g) && y < |g| && x < Width(g)
    ensures forall i, j :: 0 <= i < |g| && 0 <= j < Width(g) ==>
      (Flip(g, y, x)[i][j] == g[i][j] <==> (i, j) != (y, x))
  {
  }

  /** Flipping the cell at (y, x) yields a new reflection. */
  predicate Hit(g: Grid, previousCol: Option<nat>, previousRow: Option<nat>, y: nat, x: nat)
    requires Rect(g) && y < |g| && x < Width(g)
  {
    Vertical(Flip(g, y, x), previousCol).Some? || Horizontal(Flip(g, y, x), previousRow).Some?
  }

  /** The first cell from (y, x) on, row by row, whose flip yields a new
      reflection. */
  function FirstSmudge(g: Grid, previousCol: Option<nat>, previousRow: Option<nat>, y: nat, x: nat): (r: Option<(nat, nat)>)
    requires Rect(g) && y <= |g| && x <= Width(g)
    ensures r.Some? ==> r.value.0 < |g| && r.value.1 < Width(g)
    decreases |g| - y, Width(g) - x
  {
    if y >= |g| then None
    else if x >= Width(g) then FirstSmudge(g, previousCol, previousRow, y + 1, 0)
    else if Hit(g, previousCol, previousRow, y, x) then Some((y, x))
    else FirstSmudge(g, previousCol, previousRow, y, x + 1)
  }

  /** One step of the search: the end of a row moves to the next one, a hit
      stops, any other cell moves right. */
  lemma FirstSmudgeStep(g: Grid, pc: Option<nat>, pr: Option<nat>, y: nat, x: nat)
    requires Rect(g) && y < |g| && x <= Width(g)
    ensures x == Width(g) ==> FirstSmudge(g, pc, pr, y, x) == FirstSmudge(g, pc, pr, y + 1, 0)
    ensures x < Width(g) && Hit(g, pc, pr, y, x) ==> FirstSmudge(g, pc, pr, y, x) == Some((y, x))
    ensures x < Width(g) && !Hit(g, pc, pr, y, x) ==> FirstSmudge(g, pc, pr, y, x) == FirstSmudge(g, pc, pr, y, x + 1)
  { }

  /** Cell (i, j) comes before (y, x) in the order of the search. */
  predicate Before(i: nat, j: nat, y: nat, x: nat) {
    i < y || (i == y && j < x)
  }

  lemma {:induction false} FirstSmudgeNone(g: Grid, pc: Option<nat>, pr: Option<nat>, y: nat, x: nat)
    requires Rect(g) && y <= |g| && x <= Width(g)
    ensures FirstSmudge(g, pc, pr, y, x) == None <==>
      forall i, j :: 0 <= i < |g| && 0 <= j < Width(g) && !Before(i, j, y, x) ==> !Hit(g, pc, pr, i, j)
    decreases |g| - y, Width(g) - x
  {
    if y < |g| {
      if x >= Width(g) {
        FirstSmudgeNone(g, pc, pr, y + 1, 0);
      } else if !Hit(g, pc, pr, y, x) {
        FirstSmudgeNone(g, pc, pr, y, x + 1);
      }
    }
  }

  lemma {:induction false} FirstSmudgeSome(g: Grid, pc: Option<nat>, pr: Option<nat>, y: nat, x: nat)
    requires Rect(g) && y <= |g| && x <= Width(g)
    ensures FirstSmudge(g, pc, pr, y, x).Some? ==>
      var (sy, sx) := FirstSmudge(g, pc, pr, y, x).value;
      !Before(sy, sx, y, x) && Hit(g, pc, pr, sy, sx) &&
      forall i, j :: 0 <= i < |g| && 0 <= j < Width(g) && !Before(i, j, y, x) && Before(i, j, sy, sx) ==> !Hit(g, pc, pr, i, j)
    decreases |g| - y, Width(g) - x
  {
    if y < |g| {
      if x >= Width(g) {
        FirstSmudgeSome(g, pc, pr, y + 1, 0);
      } else if !Hit(g, pc, pr, y, x) {
        FirstSmudgeSome(g, pc, pr, y, x + 1);
      }
    }
  }

  /** The smudge is the first cell of the pattern whose flip yields a new
      reflection; no earlier cell does. */
  lemma SmudgeMeaning(g: Grid, pc: Option<nat>, pr: Option<nat>)
    requires Rect(g)
    ensures FirstSmudge(g, pc, pr, 0, 0) == None <==>
      forall i, j :: 0 <= i < |g| && 0 <= j < Width(g) ==> !Hit(g, pc, pr, i, j)
    ensures FirstSmudge(g, pc, pr, 0, 0).Some? ==>
      var (sy, sx) := FirstSmudge(g, pc, pr, 0, 0).value;
      Hit(g, pc, pr, sy, sx) &&
      forall i, j :: 0 <= i < |g| && 0 <= j < Width(g) && Before(i, j, sy, sx) ==> !Hit(g, pc, pr, i, j)
  {
    FirstSmudgeNone(g, pc, pr, 0, 0);
    FirstSmudgeSome(g, pc, pr, 0, 0);
  }

  /** What the smudged pattern adds: its new columns plus 100 times its new
      rows (both when both searches succeed), or nothing without a smudge. */
  function SmudgeScore(g: Grid, pc: Option<nat>, pr: Option<nat>): nat
    requires Rect(g)
  {
    match FirstSmudge(g, pc, pr, 0, 0)
    case None => 0
    case Some((y, x)) =>
      var f := Flip(g, y, x);
      Value(Vertical(f, pc)) + 100 * Value(Horizontal(f, pr))
  }

  /** The pattern after the smudge search: flipped at the smudge, or as it
      was. */
  function Smudged(g: Grid, pc: Option<nat>, pr: Option<nat>): Grid
    requires Rect(g)
  {
    match FirstSmudge(g, pc, pr, 0, 0)
    case None => g
    case Some((y, x)) => Flip(g, y, x)
  }

  /** The part-2 score of a pattern, searched past its part-1 reflection;
      None where the source panics. */
  function Score2(g: Grid): Option<nat>
    requires Rect(g)
  {
    match Vertical(g, None)
    case Some(cols) => Some(SmudgeScore(g, Some(cols), None))
    case None =>
      match Horizontal(g, None)
      case Some(rows) => Some(SmudgeScore(g, None, Some(rows)))
      case None => None
  }

  /** Part 2 panics exactly where part 1 does. */
  lemma Score2Defined(g: Grid)
    requires Rect(g)
    ensures Score2(g).Some? <==> Score(g).Some?
  {
  }

  // ---------------------------------------------------------------------------
  // The pattern in memory

  class Pattern {
    const height: nat
    const width: nat
    const data: array2<char>

    ghost predicate Valid()
      reads this
    {
      data.Length0 == height && data.Length1 == width && (height == 0 ==> width == 0)
    }

    /** The cells as a grid. */
    ghost function Cells(): (g: Grid)
      requires Valid()
      reads this, data
      ensures |g| == height && Rect(g) && Width(g) == width
    {
      seq(height, y requires 0 <= y < height reads data =>
        seq(width, x requires 0 <= x < width reads data => data[y, x]))
    }

    /** The copy of a pattern that part 2 works on. */
    constructor (g: Grid)
      requires Rect(g)
      ensures Valid() && Cells() == g && fresh(data)
    {
      height := |g|;
      width := Width(g);
      data := new char[|g|, Width(g)]((y, x) requires 0 <= y < |g| && 0 <= x < Width(g) => g[y][x]);
      new;
      assert forall y :: 0 <= y < |g| ==> Cells()[y] == g[y];
    }

    /** The inner loops of the horizontal search for one split: a mismatch
        moves on to the next split. */
    method RowsMatch(s: nat) returns (ok: bool)
      requires Valid() && 1 <= s < height
      ensures ok == RowsMirror(Cells(), s)
    {
      ghost var g := Cells();
      for y := 0 to Min(s, height - s)
        invariant forall i :: 0 <= i < y ==> RowPairMatches(g, s, i)
      {
        ghost var above, below := g[s - y - 1], g[s + y];
        for x := 0 to width
          invariant above[..x] == below[..x]
        {
          if data[s - y - 1, x] != data[s + y, x] {
            assert above[x] != below[x];
            assert !RowPairMatches(g, s, y);
            return false;
          }
          assert above[..x + 1] == above[..x] + [above[x]];
          assert below[..x + 1] == below[..x] + [below[x]];
        }
        assert above == above[..width] && below == below[..width];
      }
      ok := true;
    }

    method ColsMatch(s: nat) returns (ok: bool)
      requires Valid() && 1 <= s < width
      ensures ok == ColsMirror(Cells(), s)
    {
      ghost var g := Cells();
      for x := 0 to Min(s, width - s)
        invariant forall i :: 0 <= i < x ==> ColPairMatches(g, s, i)
      {
        for y := 0 to height
          invariant forall j :: 0 <= j < y ==> g[j][s - x - 1] == g[j][s + x]
        {
          if data[y, s - x - 1] != data[y, s + x] {
            assert g[y][s - x - 1] != g[y][s + x];
            assert !ColPairMatches(g, s, x);
            return false;
          }
        }
      }
      ok := true;
    }

    /** `find_horizontal_reflection`. */
    method FindHorizontal(previous: Option<nat>) returns (r: Option<nat>)
      requires Valid()
      ensures r == Horizontal(Cells(), previous)
    {
      var s := 1;
      while s < height
        invariant s >= 1
        invariant Horizontal(Cells(), previous) == HorizontalFrom(Cells(), previous, s)
      {
        var ok := RowsMatch(s);
        if ok && previous != Some(s) {
          return Some(s);
        }
        s := s + 1;
      }
      r := None;
    }

    /** `find_vertical_reflection`. */
    method FindVertical(previous: Option<nat>) returns (r: Option<nat>)
      requires Valid()
      ensures r == Vertical(Cells(), previous)
    {
      var s := 1;
      while s < width
        invariant s >= 1
        invariant Vertical(Cells(), previous) == VerticalFrom(Cells(), previous, s)
      {
        var ok := ColsMatch(s);
        if ok && previous != Some(s) {
          return Some(s);
        }
        s := s + 1;
      }
      r := None;
    }

    /** One write to a cell. */
    method SetCell(y: nat, x: nat, c: char)
      requires Valid() && y < height && x < width
      modifies data
      ensures Valid() && Cells() == old(Cells())[y := old(Cells())[y][x := c]]
    {
      ghost var g := Cells();
      data[y, x] := c;
      ghost var h := g[y := g[y][x := c]];
      forall i | 0 <= i < height
        ensures Cells()[i] == h[i]
      {
        assert forall j :: 0 <= j < width ==> Cells()[i][j] == h[i][j];
      }
    }

    /** One step of the smudge loop: flip the cell at (y, x) and search with
        the part-1 splits excluded; on a new reflection keep the flip and
        return what it scores, otherwise write the saved cell back. */
    method TryCell(y: nat, x: nat, previousCol: Option<nat>, previousRow: Option<nat>) returns (added: nat, smudge: bool)
      requires Valid() && y < height && x < width
      modifies data
      ensures Valid()
      ensures smudge == Hit(old(Cells()), previousCol, previousRow, y, x)
      ensures smudge ==> Cells() == Flip(old(Cells()), y, x)
      ensures smudge ==> added == Value(Vertical(Cells(), previousCol)) + 100 * Value(Horizontal(Cells(), previousRow))
      ensures !smudge ==> Cells() == old(Cells())
    {
      ghost var g := Cells();
      var previous := data[y, x];
      assert previous == g[y][x];
      SetCell(y, x, if previous == '#' then '.' else '#');
      assert Cells() == Flip(g, y, x);
      added := 0;
      smudge := false;
      var cols := FindVertical(previousCol);
      if cols.Some? {
        added := added + cols.value;
        smudge := true;
      }
      var rows := FindHorizontal(previousRow);
      if rows.Some? {
        added := added + 100 * rows.value;
        smudge := true;
      }
      if !smudge {
        FlipUndone(g, y, x);
        SetCell(y, x, previous);
      }
    }

    /** The smudge loop of `solve_part_2` for one pattern. Each flip that
        yields no new reflection is written back, so every flip starts from
        the pattern as it was; the loop stops at the first that does. */
    method Smudge(previousCol: Option<nat>, previousRow: Option<nat>) returns (score: nat)
      requires Valid()
      modifies data
      ensures Valid()
      ensures score == SmudgeScore(old(Cells()), previousCol, previousRow)
      ensures Cells() == Smudged(old(Cells()), previousCol, previousRow)
    {
      ghost var g := Cells();
      score := 0;
      var y := 0;
      while y < height
        invariant y <= height && Valid() && Cells() == g
        invariant FirstSmudge(g, previousCol, previousRow, 0, 0) == FirstSmudge(g, previousCol, previousRow, y, 0)
      {
        var added, smudge := SmudgeRow(y, previousCol, previousRow);
        if smudge {
          score := score + added;
          return;
        }
        y := y + 1;
      }
    }

    /** The inner `for x` loop of the smudge search, over row `y`. */
    method SmudgeRow(y: nat, previousCol: Option<nat>, previousRow: Option<nat>) returns (added: nat, smudge: bool)
      requires Valid() && y < height
      modifies data
      ensures Valid()
      ensures !smudge ==> Cells() == old(Cells())
      ensures !smudge ==>
        FirstSmudge(old(Cells()), previousCol, previousRow, y, 0) == FirstSmudge(old(Cells()), previousCol, previousRow, y + 1, 0)
      ensures smudge ==> FirstSmudge(old(Cells()), previousCol, previousRow, y, 0).Some?
      ensures smudge ==> FirstSmudge(old(Cells()), previousCol, previousRow, y, 0).value.0 == y
      ensures smudge ==> Cells() == Flip(old(Cells()), y, FirstSmudge(old(Cells()), previousCol, previousRow, y, 0).value.1)
      ensures smudge ==> added == Value(Vertical(Cells(), previousCol)) + 100 * Value(Horizontal(Cells(), previousRow))
    {
      ghost var g := Cells();
      added, smudge := 0, false;
      var x := 0;
      while x < width
        invariant x <= width && Valid() && Cells() == g
        invariant FirstSmudge(g, previousCol, previousRow, y, 0) == FirstSmudge(g, previousCol, previousRow, y, x)
      {
        added, smudge := TryCell(y, x, previousCol, previousRow);
        FirstSmudgeStep(g, previousCol, previousRow, y, x);
        if smudge {
          return;
        }
        x := x + 1;
      }
      FirstSmudgeStep(g, previousCol, previousRow, y, x);
    }
  }

  // ---------------------------------------------------------------------------
  // The two parts

  function Total(patterns: seq<Grid>): nat
    requires forall i :: 0 <= i < |patterns| ==> Rect(patterns[i]) && Score(patterns[i]).Some?
  {
    if patterns == [] then 0 else Total(patterns[..|patterns| - 1]) + Score(patterns[|patterns| - 1]).value
  }

  function Total2(patterns: seq<Grid>): nat
    requires forall i :: 0 <= i < |patterns| ==> Rect(patterns[i]) && Score(patterns[i]).Some?
  {
    if patterns == [] then 0
    else
      Score2Defined(patterns[|patterns| - 1]);
      Total2(patterns[..|patterns| - 1]) + Score2(patterns[|patterns| - 1]).value
  }

  /** `solve_part_1`; every pattern must have a reflection. */
  method SolvePart1(patterns: seq<Grid>) returns (score: nat)
    requires forall i :: 0 <= i < |patterns| ==> Rect(patterns[i]) && Score(patterns[i]).Some?
    ensures score == Total(patterns)
  {
    score := 0;
    for i := 0 to |patterns|
      invariant score == Total(patterns[..i])
    {
      assert patterns[..i + 1][..i] == patterns[..i];
      var pattern := new Pattern(patterns[i]);
      var cols := pattern.FindVertical(None);
      if cols.Some? {
        score := score + cols.value;
      } else {
        var rows := pattern.FindHorizontal(None);
        score := score + 100 * rows.value;
      }
    }
    assert patterns[..|patterns|] == patterns;
  }

  /** `solve_part_2`: each pattern's part-1 reflection is excluded and the
      smudge searched on a copy. */
  method SolvePart2(patterns: seq<Grid>) returns (score: nat)
    requires forall i :: 0 <= i < |patterns| ==> Rect(patterns[i]) && Score(patterns[i]).Some?
    ensures score == Total2(patterns)
  {
    score := 0;
    for i := 0 to |patterns|
      invariant score == Total2(patterns[..i])
    {
      assert patterns[..i + 1][..i] == patterns[..i];
      var pattern := new Pattern(patterns[i]);
      var previousCol: Option<nat> := None;
      var previousRow: Option<nat> := None;
      var cols := pattern.FindVertical(None);
      if cols.Some? {
        previousCol := Some(cols.value);
      } else {
        var rows := pattern.FindHorizontal(None);
        previousRow := Some(rows.value);
      }
      var added := pattern.Smudge(previousCol, previousRow);
      score := score + added;
    }
    assert patterns[..|patterns|] == patterns;
  }
}
