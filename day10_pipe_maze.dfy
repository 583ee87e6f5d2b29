/** Day 10 ("Pipe Maze"): a grid of pipe tiles holds one loop through the
    start tile `S`. Part 1 follows the loop from the start and reports half
    its length; part 2 erases every tile off the loop, replaces the start by
    the pipe it stands for and counts the cells that lie inside the loop, by
    the parity of the pipe crossings to their right. */
module PipeMaze {

  datatype Tile = None | NS | EW | NE | NW | SW | SE | Start | Erased

  /** Coordinates are (row, column) and may leave the grid. */
  type Pos = (int, int)

  /** The two cells a tile connects to, when it has them. */
  datatype Connections = NoConnections | Connections(first: Pos, second: Pos)

  /** A step that the source could take, or a panic (unwrap of nothing,
      index out of range, `panic!`). */
  datatype Result<T> = Ok(value: T) | Panic

  // ---------------------------------------------------------------------------
  // Tiles

  function FromChar(c: char): (t: Tile)
    ensures t != Erased
    ensures t == Start <==> c == 'S'
    ensures t == None <==> c !in "|-LJ7FS"
  {
    match c
    case '|' => NS
    case '-' => EW
    case 'L' => NE
    case 'J' => NW
    case '7' => SW
    case 'F' => SE
    case 'S' => Start
    case _ => None
  }

  /** The character a tile is read from (ground as '.'). */
  function ToChar(t: Tile): char
    requires t != Erased
  {
    match t
    case None => '.'
    case NS => '|'
    case EW => '-'
    case NE => 'L'
    case NW => 'J'
    case SW => '7'
    case SE => 'F'
    case Start => 'S'
  }

  /** Reading back the character of any tile gives the tile. */
  lemma FromCharToChar(t: Tile)
    requires t != Erased
    ensures FromChar(ToChar(t)) == t
  {
  }

  predicate Adjacent(p: Pos, q: Pos) {
    (p.0 == q.0 && (p.1 == q.1 - 1 || p.1 == q.1 + 1)) || (p.1 == q.1 && (p.0 == q.0 - 1 || p.0 == q.0 + 1))
  }

  /** `find_next_cells` for the tiles other than the start: each pipe
      connects to the two orthogonal neighbours its letters name. */
  function PipeEnds(t: Tile, y: int, x: int): (c: Connections)
    ensures c.NoConnections? <==> t == None || t == Erased || t == Start
    ensures c.Connections? ==> c.first != c.second
  {
    match t
    case NS => Connections((y - 1, x), (y + 1, x))
    case EW => Connections((y, x - 1), (y, x + 1))
    case NE => Connections((y - 1, x), (y, x + 1))
    case NW => Connections((y - 1, x), (y, x - 1))
    case SW => Connections((y + 1, x), (y, x - 1))
    case SE => Connections((y + 1, x), (y, x + 1))
    case _ => NoConnections
  }

  predicate PointsTo(c: Connections, q: Pos) {
    c.Connections? && (c.first == q || c.second == q)
  }

  /** The ends of a pipe are orthogonal neighbours at distance 1, named by
      its letters: N is the row above, S below, W the column left, E right. */
  lemma PipeEndsMeaning(t: Tile, y: int, x: int)
    ensures var c := PipeEnds(t, y, x);
      (c.Connections? ==> Adjacent(c.first, (y, x)) && Adjacent(c.second, (y, x))) &&
      (PointsTo(c, (y - 1, x)) <==> t == NS || t == NE || t == NW) &&
      (PointsTo(c, (y + 1, x)) <==> t == NS || t == SW || t == SE) &&
      (PointsTo(c, (y, x - 1)) <==> t == EW || t == NW || t == SW) &&
      (PointsTo(c, (y, x + 1)) <==> t == EW || t == NE || t == SE)
  {
  }

  // ---------------------------------------------------------------------------
  // The grid

  function Width(tiles: seq<seq<Tile>>): nat {
    if |tiles| == 0 then 0 else |tiles[0]|
  }

  /** Every row as long as the first one. */
  predicate Rect(tiles: seq<seq<Tile>>) {
    forall y :: 0 <= y < |tiles| ==> |tiles[y]| == Width(tiles)
  }

  predicate InBounds(tiles: seq<seq<Tile>>, y: int, x: int) {
    0 <= y < |tiles| && 0 <= x < Width(tiles)
  }

  ghost predicate HasStart(tiles: seq<seq<Tile>>) {
    exists y, x :: 0 <= y < |tiles| && 0 <= x < |tiles[y]| && tiles[y][x] == Start
  }

  /** No two start tiles (a start next to another start would make the
      source recurse without end). */
  ghost predicate UniqueStart(tiles: seq<seq<Tile>>)
    requires Rect(tiles)
  {
    forall y1, x1, y2, x2 ::
      InBounds(tiles, y1, x1) && InBounds(tiles, y2, x2) && tiles[y1][x1] == Start && tiles[y2][x2] == Start ==> y1 == y2 && x1 == x2
  }

  /** What the source needs of its grid: rectangular rows, one start, and at
      most two neighbours connecting to the start. */
  ghost predicate Valid(tiles: seq<seq<Tile>>) {
    Rect(tiles) && UniqueStart(tiles) &&
    forall y, x :: InBounds(tiles, y, x) && tiles[y][x] == Start ==> StartFits(tiles, y, x)
  }

  // ---------------------------------------------------------------------------
  // The start tile's connections

  /** A tile `(dy, dx)` away from the start has an end pointing back at it:
      a tile below needs a north end, one above a south end, one to the
      right a west end, one to the left an east end. */
  predicate PointsBack(t: Tile, dy: int, dx: int) {
    (dy == 1 && dx == 0 && (t == NS || t == NE || t == NW)) ||
    (dy == -1 && dx == 0 && (t == NS || t == SW || t == SE)) ||
    (dy == 0 && dx == 1 && (t == EW || t == NW || t == SW)) ||
    (dy == 0 && dx == -1 && (t == EW || t == NE || t == SE))
  }

  /** `PointsBack` is the test on the pipe's ends that the source makes. */
  lemma PointsBackMeaning(t: Tile, y: int, x: int, cy: int, cx: int)
    ensures PointsTo(PipeEnds(t, y, x), (cy, cx)) <==> PointsBack(t, y - cy, x - cx)
  {
  }

  /** Neighbour p of the start (cy, cx) lies on the grid and connects back
      to the start. */
  predicate Connects(tiles: seq<seq<Tile>>, cy: int, cx: int, p: Pos)
    requires Rect(tiles)
  {
    InBounds(tiles, p.0, p.1) && PointsBack(tiles[p.0][p.1], p.0 - cy, p.1 - cx)
  }

  /** What the neighbour (y, x) adds to the start's slots: itself when one
      of its ends points back at the start (the source tests both ends, and
      the two ends of a pipe differ, so at most one does). */
  function Backs(tiles: seq<seq<Tile>>, cy: int, cx: int, y: int, x: int): seq<Pos>
    requires Rect(tiles)
  {
    if Connects(tiles, cy, cx, (y, x)) then [(y, x)] else []
  }

  /** The cells recorded while `dx` runs from -1 up to (excluding) `d` in row `cy + dy`. */
  function ScanRow(tiles: seq<seq<Tile>>, cy: int, cx: int, dy: int, d: int): seq<Pos>
    requires Rect(tiles) && -1 <= d <= 2
    decreases d + 1
  {
    if d == -1 then [] else ScanRow(tiles, cy, cx, dy, d - 1) + Backs(tiles, cy, cx, cy + dy, cx + d - 1)
  }

  /** The cells recorded while `dy` runs from -1 up to (excluding) `d`. */
  function ScanRows(tiles: seq<seq<Tile>>, cy: int, cx: int, d: int): seq<Pos>
    requires Rect(tiles) && -1 <= d <= 2
    decreases d + 1
  {
    if d == -1 then [] else ScanRows(tiles, cy, cx, d - 1) + ScanRow(tiles, cy, cx, d - 1, 2)
  }

  /** Every neighbour that points back at (cy, cx), in the source's scan order. */
  function Connecting(tiles: seq<seq<Tile>>, cy: int, cx: int): seq<Pos>
    requires Rect(tiles)
  {
    ScanRows(tiles, cy, cx, 2)
  }

  /** The start's connections: the first two recorded cells, with the
      source's (0, 0) filler for a slot nothing was written to. */
  function StartConnections(tiles: seq<seq<Tile>>, cy: int, cx: int): Connections
    requires Rect(tiles)
  {
    var s := RowsSlots(tiles, cy, cx, 2);
    Connections(s.first, s.second)
  }

  /** At most two neighbours connect back to the start (a third one would
      overflow the two `coords` slots). */
  predicate StartFits(tiles: seq<seq<Tile>>, cy: int, cx: int)
    requires Rect(tiles)
  {
    RowsSlots(tiles, cy, cx, 2).count <= 2
  }

  /** The start's connections are the first two neighbours that connect
      back, in the scan order, and (0, 0) for each one missing; the slots
      suffice exactly when at most two neighbours connect. */
  lemma StartConnectionsMeaning(tiles: seq<seq<Tile>>, cy: int, cx: int)
    requires Rect(tiles)
    ensures StartFits(tiles, cy, cx) <==> |Connecting(tiles, cy, cx)| <= 2
    ensures var f := Connecting(tiles, cy, cx);
      StartConnections(tiles, cy, cx) == Connections(if |f| > 0 then f[0] else (0, 0), if |f| > 1 then f[1] else (0, 0))
  {
    RowsSlotsCollect(tiles, cy, cx, 2);
  }

  lemma BacksMeaning(tiles: seq<seq<Tile>>, cy: int, cx: int, y: int, x: int, p: Pos)
    requires Rect(tiles)
    ensures p in Backs(tiles, cy, cx, y, x) <==> p == (y, x) && Connects(tiles, cy, cx, p)
  {
  }

  lemma {:induction false} ScanRowMeaning(tiles: seq<seq<Tile>>, cy: int, cx: int, dy: int, d: int, p: Pos)
    requires Rect(tiles) && -1 <= d <= 2
    ensures p in ScanRow(tiles, cy, cx, dy, d) <==> p.0 == cy + dy && -1 <= p.1 - cx < d && Connects(tiles, cy, cx, p)
    decreases d + 1
  {
    if d > -1 {
      ScanRowMeaning(tiles, cy, cx, dy, d - 1, p);
      BacksMeaning(tiles, cy, cx, cy + dy, cx + d - 1, p);
      var a, b := ScanRow(tiles, cy, cx, dy, d - 1), Backs(tiles, cy, cx, cy + dy, cx + d - 1);
      assert ScanRow(tiles, cy, cx, dy, d) == a + b;
      assert p in a + b <==> p in a || p in b;
    }
  }

  lemma {:induction false} ScanRowsMeaning(tiles: seq<seq<Tile>>, cy: int, cx: int, d: int, p: Pos)
    requires Rect(tiles) && -1 <= d <= 2
    ensures p in ScanRows(tiles, cy, cx, d) <==> -1 <= p.0 - cy < d && -1 <= p.1 - cx <= 1 && Connects(tiles, cy, cx, p)
    decreases d + 1
  {
    if d > -1 {
      ScanRowsMeaning(tiles, cy, cx, d - 1, p);
      ScanRowMeaning(tiles, cy, cx, d - 1, 2, p);
      var a, b := ScanRows(tiles, cy, cx, d - 1), ScanRow(tiles, cy, cx, d - 1, 2);
      assert ScanRows(tiles, cy, cx, d) == a + b;
      assert p in a + b <==> p in a || p in b;
    }
  }

  /** The start records exactly the neighbours whose own connections point
      back to it; diagonal neighbours never do. */
  lemma ConnectingMeaning(tiles: seq<seq<Tile>>, cy: int, cx: int, p: Pos)
    requires Rect(tiles)
    ensures p in Connecting(tiles, cy, cx) <==>
      InBounds(tiles, p.0, p.1) && PointsTo(PipeEnds(tiles[p.0][p.1], p.0, p.1), (cy, cx))
    ensures p in Connecting(tiles, cy, cx) ==> Adjacent(p, (cy, cx))
  {
    ScanRowsMeaning(tiles, cy, cx, 2, p);
    if InBounds(tiles, p.0, p.1) {
      PointsBackMeaning(tiles[p.0][p.1], p.0, p.1, cy, cx);
    }
  }

  /** The state of the two `coords` slots and of the counter `i` writing
      into them. */
  datatype Slots = Slots(count: nat, first: Pos, second: Pos)

  const NoSlots := Slots(0, (0, 0), (0, 0))

  /** Writing p into the next free slot. */
  function Put(s: Slots, p: Pos): Slots {
    if s.count == 0 then Slots(1, p, s.second)
    else if s.count == 1 then Slots(2, s.first, p)
    else Slots(s.count + 1, s.first, s.second)
  }

  /** The slots after the given cells were written into them, in order. */
  function Collect(found: seq<Pos>): Slots {
    Slots(|found|, if |found| > 0 then found[0] else (0, 0), if |found| > 1 then found[1] else (0, 0))
  }

  /** The body of the inner offset loop on the slots: a neighbour that
      connects back is written down. */
  function Visit(tiles: seq<seq<Tile>>, cy: int, cx: int, s: Slots, p: Pos): Slots
    requires Rect(tiles)
  {
    if Connects(tiles, cy, cx, p) then Put(s, p) else s
  }

  /** The slots after `dx` ran from -1 up to (excluding) `d` in row `cy + dy`, from `s`. */
  function RowSlots(tiles: seq<seq<Tile>>, cy: int, cx: int, s: Slots, dy: int, d: int): Slots
    requires Rect(tiles) && -1 <= d <= 2
    decreases d + 1
  {
    if d == -1 then s else Visit(tiles, cy, cx, RowSlots(tiles, cy, cx, s, dy, d - 1), (cy + dy, cx + d - 1))
  }

  /** The slots after `dy` ran from -1 up to (excluding) `d`. */
  function RowsSlots(tiles: seq<seq<Tile>>, cy: int, cx: int, d: int): Slots
    requires Rect(tiles) && -1 <= d <= 2
    decreases d + 1
  {
    if d == -1 then NoSlots else RowSlots(tiles, cy, cx, RowsSlots(tiles, cy, cx, d - 1), d - 1, 2)
  }

  lemma PutCollect(found: seq<Pos>, p: Pos)
    ensures Put(Collect(found), p) == Collect(found + [p])
  {
  }

  lemma {:induction false} RowSlotsCollect(tiles: seq<seq<Tile>>, cy: int, cx: int, found: seq<Pos>, dy: int, d: int)
    requires Rect(tiles) && -1 <= d <= 2
    ensures RowSlots(tiles, cy, cx, Collect(found), dy, d) == Collect(found + ScanRow(tiles, cy, cx, dy, d))
    decreases d + 1
  {
    if d == -1 {
      assert found + [] == found;
    } else {
      RowSlotsCollect(tiles, cy, cx, found, dy, d - 1);
      var a, b := ScanRow(tiles, cy, cx, dy, d - 1), Backs(tiles, cy, cx, cy + dy, cx + d - 1);
      assert ScanRow(tiles, cy, cx, dy, d) == a + b;
      assert found + (a + b) == (found + a) + b;
      if b == [] {
        assert (found + a) + b == found + a;
      } else {
        PutCollect(found + a, (cy + dy, cx + d - 1));
      }
    }
  }

  /** The slot state the scan reaches is the one of the recorded cells. */
  lemma {:induction false} RowsSlotsCollect(tiles: seq<seq<Tile>>, cy: int, cx: int, d: int)
    requires Rect(tiles) && -1 <= d <= 2
    ensures RowsSlots(tiles, cy, cx, d) == Collect(ScanRows(tiles, cy, cx, d))
    decreases d + 1
  {
    if d > -1 {
      RowsSlotsCollect(tiles, cy, cx, d - 1);
      RowSlotsCollect(tiles, cy, cx, ScanRows(tiles, cy, cx, d - 1), d - 1, 2);
    }
  }

  /** The counter never goes down along a row. */
  lemma {:induction false} RowSlotsCount(tiles: seq<seq<Tile>>, cy: int, cx: int, s: Slots, dy: int, d: int, e: int)
    requires Rect(tiles) && -1 <= d <= e <= 2
    ensures s.count <= RowSlots(tiles, cy, cx, s, dy, d).count <= RowSlots(tiles, cy, cx, s, dy, e).count
    decreases e + 1
  {
    if d < e {
      RowSlotsCount(tiles, cy, cx, s, dy, d, e - 1);
    } else if d > -1 {
      RowSlotsCount(tiles, cy, cx, s, dy, d - 1, d - 1);
    }
  }

  /** ... nor from row to row. */
  lemma {:induction false} RowsSlotsCount(tiles: seq<seq<Tile>>, cy: int, cx: int, d: int, e: int)
    requires Rect(tiles) && -1 <= d <= e <= 2
    ensures RowsSlots(tiles, cy, cx, d).count <= RowsSlots(tiles, cy, cx, e).count
    decreases e - d
  {
    if d < e {
      RowsSlotsCount(tiles, cy, cx, d, e - 1);
      RowSlotsCount(tiles, cy, cx, RowsSlots(tiles, cy, cx, e - 1), e - 1, 2, 2);
    }
  }

  /** The `Tile::Start` arm of `find_next_cells`: the two nested offset
      loops, writing each connecting neighbour into the next free slot.
      The start must be the only one: a start among its neighbours would
      call this arm back on it without end. */
  method StartNext(tiles: seq<seq<Tile>>, cy: int, cx: int) returns (c: Connections)
    requires Rect(tiles) && UniqueStart(tiles) && InBounds(tiles, cy, cx) && tiles[cy][cx] == Start
    requires StartFits(tiles, cy, cx)
    ensures c == StartConnections(tiles, cy, cx)
  {
    var coords := new Pos[2];
    coords[0], coords[1] := (0, 0), (0, 0);
    var i := 0;
    for dy := -1 to 2
      invariant coords.Length == 2
      invariant coords[0] == RowsSlots(tiles, cy, cx, dy).first && coords[1] == RowsSlots(tiles, cy, cx, dy).second
      invariant i == RowsSlots(tiles, cy, cx, dy).count
    {
      RowsSlotsCount(tiles, cy, cx, dy + 1, 2);
      i := RecordRow(tiles, cy, cx, dy, coords, i, RowsSlots(tiles, cy, cx, dy));
    }
    c := Connections(coords[0], coords[1]);
  }

  /** The inner offset loop, over the row `cy + dy`. */
  method RecordRow(tiles: seq<seq<Tile>>, cy: int, cx: int, dy: int, coords: array<Pos>, i: int, ghost s: Slots)
    returns (j: int)
    requires Rect(tiles) && RowSlots(tiles, cy, cx, s, dy, 2).count <= 2
    requires coords.Length == 2 && coords[0] == s.first && coords[1] == s.second && i == s.count
    modifies coords
    ensures coords[0] == RowSlots(tiles, cy, cx, s, dy, 2).first && coords[1] == RowSlots(tiles, cy, cx, s, dy, 2).second
    ensures j == RowSlots(tiles, cy, cx, s, dy, 2).count
  {
    j := i;
    for dx := -1 to 2
      invariant coords[0] == RowSlots(tiles, cy, cx, s, dy, dx).first && coords[1] == RowSlots(tiles, cy, cx, s, dy, dx).second
      invariant j == RowSlots(tiles, cy, cx, s, dy, dx).count
    {
      RowSlotsCount(tiles, cy, cx, s, dy, dx + 1, 2);
      j := Record(tiles, cy, cx, cy + dy, cx + dx, coords, j, RowSlots(tiles, cy, cx, s, dy, dx));
    }
  }

  /** The body of the inner offset loop for the neighbour (y, x): each end
      of its pipe that points back at the start fills the next slot. */
  method Record(tiles: seq<seq<Tile>>, cy: int, cx: int, y: int, x: int, coords: array<Pos>, i: int, ghost s: Slots)
    returns (j: int)
    requires Rect(tiles) && Visit(tiles, cy, cx, s, (y, x)).count <= 2
    requires coords.Length == 2 && coords[0] == s.first && coords[1] == s.second && i == s.count
    modifies coords
    ensures coords[0] == Visit(tiles, cy, cx, s, (y, x)).first && coords[1] == Visit(tiles, cy, cx, s, (y, x)).second
    ensures j == Visit(tiles, cy, cx, s, (y, x)).count
  {
    j := i;
    if 0 <= y < |tiles| && 0 <= x < |tiles[0]| && (y, x) != (cy, cx) {
      PointsBackMeaning(tiles[y][x], y, x, cy, cx);
      match PipeEnds(tiles[y][x], y, x)
      case NoConnections =>
      case Connections(a, b) =>
        if a == (cy, cx) {
          coords[j] := (y, x);
          j := j + 1;
        }
        if b == (cy, cx) {
          coords[j] := (y, x);
          j := j + 1;
        }
    }
  }

  /** `find_next_cells` on the tile at (y, x). */
  function TileNext(tiles: seq<seq<Tile>>, y: int, x: int): Connections
    requires Rect(tiles) && InBounds(tiles, y, x)
  {
    if tiles[y][x] == Start then StartConnections(tiles, y, x) else PipeEnds(tiles[y][x], y, x)
  }

  // ---------------------------------------------------------------------------
  // Finding the start

  /** The column of the first start tile in `row`, or -1 (`position`). */
  function StartIn(row: seq<Tile>): (x: int)
    ensures -1 <= x < |row|
    ensures x >= 0 ==> row[x] == Start && forall k :: 0 <= k < x ==> row[k] != Start
    ensures x == -1 ==> forall k :: 0 <= k < |row| ==> row[k] != Start
  {
    if row == [] then -1
    else if StartIn(row[..|row| - 1]) >= 0 then StartIn(row[..|row| - 1])
    else if row[|row| - 1] == Start then |row| - 1
    else -1
  }

  /** The first start tile in row-major order, searching rows from `y`. */
  function FirstStartFrom(tiles: seq<seq<Tile>>, y: nat): (s: Pos)
    requires Rect(tiles) && exists y', x :: y <= y' && InBounds(tiles, y', x) && tiles[y'][x] == Start
    ensures y <= s.0 && InBounds(tiles, s.0, s.1) && tiles[s.0][s.1] == Start
    ensures forall k :: 0 <= k < s.1 ==> tiles[s.0][k] != Start
    ensures forall y', k :: y <= y' < s.0 && 0 <= k < Width(tiles) ==> tiles[y'][k] != Start
    decreases |tiles| - y
  {
    if StartIn(tiles[y]) >= 0 then (y, StartIn(tiles[y])) else FirstStartFrom(tiles, y + 1)
  }

  function FirstStart(tiles: seq<seq<Tile>>): (s: Pos)
    requires Rect(tiles) && HasStart(tiles)
    ensures InBounds(tiles, s.0, s.1) && tiles[s.0][s.1] == Start
    ensures forall y, x :: InBounds(tiles, y, x) && (y < s.0 || (y == s.0 && x < s.1)) ==> tiles[y][x] != Start
  {
    FirstStartFrom(tiles, 0)
  }

  /** With a unique start, the first start is the start. */
  lemma FirstStartIsTheStart(tiles: seq<seq<Tile>>, y: int, x: int)
    requires Rect(tiles) && UniqueStart(tiles) && InBounds(tiles, y, x) && tiles[y][x] == Start
    ensures FirstStart(tiles) == (y, x)
  {
  }

  /** `find_start`: the first row holding a start, and its position there. */
  method FindStart(tiles: seq<seq<Tile>>) returns (y: int, x: int)
    requires Rect(tiles) && HasStart(tiles)
    ensures (y, x) == FirstStart(tiles)
  {
    var s := FirstStart(tiles);
    y := 0;
    while y < |tiles|
      invariant 0 <= y <= s.0
      invariant forall y', k :: 0 <= y' < y && 0 <= k < Width(tiles) ==> tiles[y'][k] != Start
      decreases |tiles| - y
    {
      x := Position(tiles[y]);
      if x >= 0 {
        return;
      }
      y := y + 1;
    }
  }

  /** `iter().position(|t| *t == Tile::Start)`. */
  method Position(row: seq<Tile>) returns (x: int)
    ensures x == StartIn(row)
  {
    x := 0;
    while x < |row|
      invariant 0 <= x <= |row|
      invariant forall k :: 0 <= k < x ==> row[k] != Start
    {
      if row[x] == Start {
        StartInUnique(row, x);
        return;
      }
      x := x + 1;
    }
    x := -1;
  }

  lemma StartInUnique(row: seq<Tile>, x: int)
    requires 0 <= x < |row| && row[x] == Start && forall k :: 0 <= k < x ==> row[k] != Start
    ensures StartIn(row) == x
  {
  }

  // ---------------------------------------------------------------------------
  // Part 1: following the loop

  /** One step of the `loop`: take the connection that is not the previous
      cell. */
  function Step(tiles: seq<seq<Tile>>, prev: Pos, cur: Pos): Result<Pos>
    requires Rect(tiles)
  {
    if !InBounds(tiles, cur.0, cur.1) then Panic
    else match TileNext(tiles, cur.0, cur.1)
      case NoConnections => Panic
      case Connections(a, b) => if a != prev then Ok(a) else if b != prev then Ok(b) else Panic
  }

  /** A step never goes back to the previous cell and always goes to one of
      the current tile's two connections. */
  lemma StepMeaning(tiles: seq<seq<Tile>>, prev: Pos, cur: Pos)
    requires Rect(tiles) && Step(tiles, prev, cur).Ok?
    ensures Step(tiles, prev, cur).value != prev
    ensures InBounds(tiles, cur.0, cur.1) && PointsTo(TileNext(tiles, cur.0, cur.1), Step(tiles, prev, cur).value)
    ensures tiles[cur.0][cur.1] != Start ==> Adjacent(Step(tiles, prev, cur).value, cur)
  {
  }

  datatype Outcome = Loop(pipe: seq<Pos>) | Stuck | OutOfFuel

  function Prepend(p: seq<Pos>, o: Outcome): Outcome {
    match o
    case Loop(rest) => Loop(p + rest)
    case _ => o
  }

  lemma PrependPrepend(p: seq<Pos>, q: seq<Pos>, o: Outcome)
    ensures Prepend(p, Prepend(q, o)) == Prepend(p + q, o)
  {
    if o.Loop? {
      assert p + (q + o.pipe) == (p + q) + o.pipe;
    }
  }

  /** The cells the loop visits after `cur` until it comes back to `start`,
      within `fuel` steps. */
  function Trace(tiles: seq<seq<Tile>>, start: Pos, prev: Pos, cur: Pos, fuel: nat): Outcome
    requires Rect(tiles)
    decreases fuel
  {
    if fuel == 0 then OutOfFuel
    else match Step(tiles, prev, cur)
      case Panic => Stuck
      case Ok(next) => if next == start then Loop([]) else Prepend([next], Trace(tiles, start, cur, next, fuel - 1))
  }

  /** The `pipe` of `solve_part_1`. */
  function Follow(tiles: seq<seq<Tile>>, fuel: nat): Outcome
    requires Rect(tiles) && HasStart(tiles)
  {
    var s := FirstStart(tiles);
    Prepend([s], Trace(tiles, s, s, s, fuel))
  }

  /** `p`, entered from `prev`, follows the pipe: each cell steps to the next,
      and the last one steps onto `start`. */
  predicate StepsAlong(tiles: seq<seq<Tile>>, start: Pos, prev: Pos, p: seq<Pos>)
    requires Rect(tiles)
    decreases |p|
  {
    && |p| >= 1
    && Step(tiles, prev, p[0]) == Ok(if |p| == 1 then start else p[1])
    && (|p| > 1 ==> StepsAlong(tiles, start, p[0], p[1..]))
  }

  /** One step of a traced loop: it closes at once, or it is the next cell
      followed by the loop traced from there. */
  lemma TraceUnfold(tiles: seq<seq<Tile>>, start: Pos, prev: Pos, cur: Pos, fuel: nat, next: Pos)
    requires Rect(tiles) && Trace(tiles, start, prev, cur, fuel).Loop?
    requires next == Step(tiles, prev, cur).value
    ensures fuel > 0 && Step(tiles, prev, cur) == Ok(next)
    ensures next == start ==> Trace(tiles, start, prev, cur, fuel).pipe == []
    ensures next != start ==> Trace(tiles, start, cur, next, fuel - 1).Loop?
    ensures next != start ==> Trace(tiles, start, prev, cur, fuel).pipe == [next] + Trace(tiles, start, cur, next, fuel - 1).pipe
  { }

  /** The first step of a trace with fuel left, by the outcome of `Step`. */
  lemma TraceStep(tiles: seq<seq<Tile>>, start: Pos, prev: Pos, cur: Pos, fuel: nat, r: Result<Pos>)
    requires Rect(tiles) && fuel > 0 && r == Step(tiles, prev, cur)
    ensures r.Panic? ==> Trace(tiles, start, prev, cur, fuel) == Stuck
    ensures r.Ok? && r.value == start ==> Trace(tiles, start, prev, cur, fuel) == Loop([])
    ensures r.Ok? && r.value != start ==>
      Trace(tiles, start, prev, cur, fuel) == Prepend([r.value], Trace(tiles, start, cur, r.value, fuel - 1))
  { }

  lemma ConsSteps(tiles: seq<seq<Tile>>, start: Pos, prev: Pos, cur: Pos, q: seq<Pos>)
    requires Rect(tiles) && |q| >= 1 && Step(tiles, prev, cur) == Ok(q[0]) && StepsAlong(tiles, start, cur, q)
    ensures StepsAlong(tiles, start, prev, [cur] + q)
  {
    assert ([cur] + q)[1..] == q;
  }

  /** Each cell of a traced loop steps to the next, and the last one back
      onto the start. */
  lemma {:induction false} TraceIsPipe(tiles: seq<seq<Tile>>, start: Pos, prev: Pos, cur: Pos, fuel: nat, p: seq<Pos>)
    requires Rect(tiles) && Trace(tiles, start, prev, cur, fuel).Loop?
    requires p == [cur] + Trace(tiles, start, prev, cur, fuel).pipe
    ensures StepsAlong(tiles, start, prev, p)
    decreases fuel
  {
    var next := Step(tiles, prev, cur).value;
    TraceUnfold(tiles, start, prev, cur, fuel, next);
    if next != start {
      var q := [next] + Trace(tiles, start, cur, next, fuel - 1).pipe;
      TraceIsPipe(tiles, start, cur, next, fuel - 1, q);
      ConsSteps(tiles, start, prev, cur, q);
    }
  }

  /** A traced loop does not pass the start before closing, and it is no
      longer than the fuel. */
  lemma {:induction false} TraceAvoidsStart(tiles: seq<seq<Tile>>, start: Pos, prev: Pos, cur: Pos, fuel: nat, p: seq<Pos>)
    requires Rect(tiles) && Trace(tiles, start, prev, cur, fuel).Loop?
    requires p == [cur] + Trace(tiles, start, prev, cur, fuel).pipe
    ensures start !in p[1..] && |p| <= fuel
    decreases fuel
  {
    var next := Step(tiles, prev, cur).value;
    TraceUnfold(tiles, start, prev, cur, fuel, next);
    if next != start {
      var q := [next] + Trace(tiles, start, cur, next, fuel - 1).pipe;
      TraceAvoidsStart(tiles, start, cur, next, fuel - 1, q);
      assert p[1..] == q && q == [next] + q[1..];
    }
  }

  /** The loop starts at the start, every step goes to a connection of the
      current cell other than the previous one, no later cell is the start,
      and the last cell steps back onto the start. */
  lemma FollowIsPipe(tiles: seq<seq<Tile>>, fuel: nat, pipe: seq<Pos>)
    requires Rect(tiles) && HasStart(tiles) && Follow(tiles, fuel).Loop?
    requires pipe == Follow(tiles, fuel).pipe
    ensures |pipe| >= 1 && pipe[0] == FirstStart(tiles)
    ensures StepsAlong(tiles, pipe[0], pipe[0], pipe)
    ensures pipe[0] !in pipe[1..] && |pipe| <= fuel
  {
    var s := FirstStart(tiles);
    TraceIsPipe(tiles, s, s, s, fuel, pipe);
    TraceAvoidsStart(tiles, s, s, s, fuel, pipe);
  }

  /** `find_next_cells` at `cur` followed by the choice of the next cell. */
  method StepAt(tiles: seq<seq<Tile>>, prev: Pos, cur: Pos) returns (r: Result<Pos>)
    requires Valid(tiles)
    ensures r == Step(tiles, prev, cur)
  {
    if !(0 <= cur.0 < |tiles| && 0 <= cur.1 < |tiles[cur.0]|) {
      return Panic;
    }
    var c: Connections;
    if tiles[cur.0][cur.1] == Start {
      c := StartNext(tiles, cur.0, cur.1);
    } else {
      c := PipeEnds(tiles[cur.0][cur.1], cur.0, cur.1);
    }
    match c
    case NoConnections => r := Panic;
    case Connections(a, b) =>
      if a != prev {
        r := Ok(a);
      } else if b != prev {
        r := Ok(b);
      } else {
        r := Panic;
      }
  }

  /** `solve_part_1`, with the unbounded `loop` cut off after `fuel` steps;
      the answer printed is half the loop's length. */
  method SolvePart1(tiles: seq<seq<Tile>>, fuel: nat) returns (outcome: Outcome, farthest: nat)
    requires Valid(tiles) && HasStart(tiles)
    ensures outcome == Follow(tiles, fuel)
    ensures outcome.Loop? ==> farthest == |outcome.pipe| / 2
  {
    var sy, sx := FindStart(tiles);
    var start := (sy, sx);
    var pipe := [start];
    var prev, cur := start, start;
    var left := fuel;
    while left > 0
      invariant Prepend(pipe, Trace(tiles, start, prev, cur, left)) == Follow(tiles, fuel)
      decreases left
    {
      var next := StepAt(tiles, prev, cur);
      TraceStep(tiles, start, prev, cur, left, next);
      if next.Panic? {
        return Stuck, 0;
      }
      if next.value == start {
        assert pipe + [] == pipe;
        return Loop(pipe), |pipe| / 2;
      }
      PrependPrepend(pipe, [next.value], Trace(tiles, start, cur, next.value, left - 1));
      pipe := pipe + [next.value];
      prev, cur := cur, next.value;
      left := left - 1;
    }
    return OutOfFuel, 0;
  }

  // ---------------------------------------------------------------------------
  // Part 2: erasing, replacing the start, counting crossings

  /** A tile off the pipe becomes `Erased` unless it is ground. */
  function ErasedTile(t: Tile, onPipe: bool): (r: Tile)
    ensures onPipe ==> r == t
    ensures t == None ==> r == None
    ensures !onPipe && t != None ==> r == Erased
  {
    if t != None && !onPipe then Erased else t
  }

  /** The pipe the start stands for, from the offsets of its two connections
      (`dx`, `dy` set by the four tests in the source's order). */
  function StartTile(s: Pos, a: Pos, b: Pos): Result<Tile> {
    var dx := if s.1 - a.1 == -1 || s.1 - b.1 == -1 then -1 else if s.1 - a.1 == 1 || s.1 - b.1 == 1 then 1 else 0;
    var dy := if s.0 - a.0 == -1 || s.0 - b.0 == -1 then -1 else if s.0 - a.0 == 1 || s.0 - b.0 == 1 then 1 else 0;
    match (dy, dx)
    case (0, -1) => Ok(EW)
    case (-1, 0) => Ok(NS)
    case (1, -1) => Ok(NE)
    case (1, 1) => Ok(NW)
    case (-1, -1) => Ok(SE)
    case (-1, 1) => Ok(SW)
    case _ => Panic
  }

  /** For two distinct orthogonal neighbours of the start, the replacement
      tile connects the start to exactly those two cells. */
  lemma StartTileConnects(s: Pos, a: Pos, b: Pos)
    requires Adjacent(a, s) && Adjacent(b, s) && a != b
    ensures StartTile(s, a, b).Ok?
    ensures var c := PipeEnds(StartTile(s, a, b).value, s.0, s.1);
      c.Connections? && ((c.first == a && c.second == b) || (c.first == b && c.second == a))
  {
  }

  /** The grid `solve_part_2` counts in: tiles off `pipe` erased, the start
      replaced by `t`. */
  function FinalMap(tiles: seq<seq<Tile>>, pipe: seq<Pos>, s: Pos, t: Tile): (m: seq<seq<Tile>>)
    requires Rect(tiles)
    ensures |m| == |tiles| && Rect(m) && Width(m) == Width(tiles)
    ensures forall y, x :: InBounds(tiles, y, x) ==> m[y][x] == if (y, x) == s then t else ErasedTile(tiles[y][x], (y, x) in pipe)
  {
    seq(|tiles|, y requires 0 <= y < |tiles| => seq(Width(tiles), x requires 0 <= x < Width(tiles) =>
      if (y, x) == s then t else ErasedTile(tiles[y][x], (y, x) in pipe)))
  }

  /** The state of the crossing scan: crossings so far, whether a horizontal
      run along the pipe is open and whether that run came from above. */
  datatype Scan = Scan(count: nat, onBorder: bool, fromTop: bool)

  function Cross(s: Scan, t: Tile): Scan {
    match t
    case NS => s.(count := s.count + 1)
    case NE => s.(onBorder := true, fromTop := true)
    case NW => if s.onBorder && !s.fromTop then s.(count := s.count + 1, onBorder := false) else s
    case SW => if s.onBorder && s.fromTop then s.(count := s.count + 1, onBorder := false) else s
    case SE => s.(onBorder := true, fromTop := false)
    case _ => s
  }

  function ScanTiles(s: Scan, ts: seq<Tile>): Scan {
    if ts == [] then s else Cross(ScanTiles(s, ts[..|ts| - 1]), ts[|ts| - 1])
  }

  /** The number of pipe crossings the scan counts along `ts`. */
  function Crossings(ts: seq<Tile>): nat {
    ScanTiles(Scan(0, false, false), ts).count
  }

  lemma {:induction false} ScanAppend(s: Scan, a: seq<Tile>, b: seq<Tile>)
    ensures ScanTiles(s, a + b) == ScanTiles(ScanTiles(s, a), b)
  {
    if b != [] {
      assert (a + b)[..|a + b| - 1] == a + b[..|b| - 1];
      assert (a + b)[|a + b| - 1] == b[|b| - 1];
      ScanAppend(s, a, b[..|b| - 1]);
    } else {
      assert a + b == a;
    }
  }

  lemma ScanStep(s: Scan, row: seq<Tile>, from: int, x: int)
    requires 0 <= from <= x < |row|
    ensures ScanTiles(s, row[from..x + 1]) == Cross(ScanTiles(s, row[from..x]), row[x])
  {
    assert row[from..x + 1][..x - from] == row[from..x];
  }

  function Flat(k: nat): seq<Tile> {
    seq(k, _ => EW)
  }

  lemma {:induction false} ScanFlat(s: Scan, k: nat)
    ensures ScanTiles(s, Flat(k)) == s
  {
    if k > 0 {
      assert Flat(k)[..k - 1] == Flat(k - 1);
      ScanFlat(s, k - 1);
    }
  }

  /** A corner followed by a horizontal run and a second corner: the pairs
      turning the other way (NE..SW, SE..NW) cross the pipe once, the pairs
      turning back (NE..NW, SE..SW) do not; a vertical pipe crosses once. */
  lemma CornerPairs(s: Scan, k: nat)
    ensures ScanTiles(s, [NS]).count == s.count + 1
    ensures ScanTiles(s, [NE] + Flat(k) + [SW]).count == s.count + 1
    ensures ScanTiles(s, [SE] + Flat(k) + [NW]).count == s.count + 1
    ensures ScanTiles(s, [NE] + Flat(k) + [NW]).count == s.count
    ensures ScanTiles(s, [SE] + Flat(k) + [SW]).count == s.count
  {
    assert ScanTiles(s, [NS]) == Cross(ScanTiles(s, []), NS);
    forall first | first == NE || first == SE
      ensures ScanTiles(s, [first] + Flat(k) + [SW]) == Cross(Cross(s, first), SW)
      ensures ScanTiles(s, [first] + Flat(k) + [NW]) == Cross(Cross(s, first), NW)
    {
      assert ScanTiles(s, [first]) == Cross(ScanTiles(s, []), first);
      ScanAppend(s, [first], Flat(k));
      ScanFlat(Cross(s, first), k);
      ScanAppend(s, [first] + Flat(k), [SW]);
      ScanAppend(s, [first] + Flat(k), [NW]);
      assert ScanTiles(Cross(s, first), [SW]) == Cross(ScanTiles(Cross(s, first), []), SW);
      assert ScanTiles(Cross(s, first), [NW]) == Cross(ScanTiles(Cross(s, first), []), NW);
    }
  }

  /** Cell x of `row` is counted: it is ground or erased and the crossings to
      its right are odd. */
  predicate Inside(row: seq<Tile>, x: int)
    requires 0 <= x < |row|
  {
    (row[x] == None || row[x] == Erased) && Crossings(row[x + 1..]) % 2 == 1
  }

  /** The number of counted cells among the first `n` of `row`. */
  function RowInside(row: seq<Tile>, n: nat): (c: nat)
    requires n <= |row|
    ensures c <= n
  {
    if n == 0 then 0 else RowInside(row, n - 1) + if Inside(row, n - 1) then 1 else 0
  }

  /** The number of counted cells in the first `n` rows. */
  function InsideCount(m: seq<seq<Tile>>, n: nat): (c: nat)
    requires n <= |m|
  {
    if n == 0 then 0 else InsideCount(m, n - 1) + RowInside(m[n - 1], |m[n - 1]|)
  }

  /** A cell on the pipe is never counted. */
  lemma PipeCellsNotInside(tiles: seq<seq<Tile>>, pipe: seq<Pos>, s: Pos, t: Tile, y: int, x: int)
    requires Rect(tiles) && InBounds(tiles, y, x) && (y, x) in pipe && tiles[y][x] != None && t != None && t != Erased
    requires s == (y, x) || tiles[y][x] != Erased
    ensures !Inside(FinalMap(tiles, pipe, s, t)[y], x)
  {
  }

  /** The answer of part 2, or a panic when the start's two connections do
      not name a pipe. */
  function Part2(tiles: seq<seq<Tile>>, pipe: seq<Pos>): Result<nat>
    requires Rect(tiles) && HasStart(tiles)
  {
    var s := FirstStart(tiles);
    var c := StartConnections(tiles, s.0, s.1);
    match StartTile(s, c.first, c.second)
    case Panic => Panic
    case Ok(t) => Ok(InsideCount(FinalMap(tiles, pipe, s, t), |tiles|))
  }

  /** `solve_part_2` on a copy of the grid held in a two-dimensional array;
      it needs no more of the grid than a single start that fits its two
      slots. */
  method SolvePart2(tiles: seq<seq<Tile>>, pipe: seq<Pos>) returns (r: Result<nat>)
    requires Rect(tiles) && UniqueStart(tiles) && HasStart(tiles)
    requires StartFits(tiles, FirstStart(tiles).0, FirstStart(tiles).1)
    ensures r == Part2(tiles, pipe)
  {
    var h, w := |tiles|, Width(tiles);
    var m := new Tile[h, w]((y, x) requires 0 <= y < h && 0 <= x < w => tiles[y][x]);
    EraseOffPipe(m, tiles, pipe);
    var sy, sx := FindStart(tiles);
    var c := StartNext(tiles, sy, sx);
    var t := StartTile((sy, sx), c.first, c.second);
    if t.Panic? {
      return Panic;
    }
    PlaceStart(m, tiles, pipe, (sy, sx), t.value);
    var insideCount := CountInside(m, FinalMap(tiles, pipe, (sy, sx), t.value));
    r := Ok(insideCount);
  }

  /** Writing the pipe the start stands for into the array. */
  method PlaceStart(m: array2<Tile>, tiles: seq<seq<Tile>>, pipe: seq<Pos>, s: Pos, t: Tile)
    requires Rect(tiles) && m.Length0 == |tiles| && m.Length1 == Width(tiles) && InBounds(tiles, s.0, s.1)
    requires forall y, x :: 0 <= y < m.Length0 && 0 <= x < m.Length1 ==> m[y, x] == ErasedTile(tiles[y][x], (y, x) in pipe)
    modifies m
    ensures forall y, x :: 0 <= y < m.Length0 && 0 <= x < m.Length1 ==> m[y, x] == FinalMap(tiles, pipe, s, t)[y][x]
  {
    m[s.0, s.1] := t;
  }

  /** The first pair of loops of `solve_part_2`: every tile that is neither
      ground nor on `pipe` is erased. */
  method EraseOffPipe(m: array2<Tile>, tiles: seq<seq<Tile>>, pipe: seq<Pos>)
    requires Rect(tiles) && m.Length0 == |tiles| && m.Length1 == Width(tiles)
    requires forall y, x :: 0 <= y < m.Length0 && 0 <= x < m.Length1 ==> m[y, x] == tiles[y][x]
    modifies m
    ensures forall y, x :: 0 <= y < m.Length0 && 0 <= x < m.Length1 ==> m[y, x] == ErasedTile(tiles[y][x], (y, x) in pipe)
  {
    for y := 0 to m.Length0
      invariant forall y', x' :: 0 <= y' < m.Length0 && 0 <= x' < m.Length1 ==>
        m[y', x'] == if y' < y then ErasedTile(tiles[y'][x'], (y', x') in pipe) else tiles[y'][x']
    {
      EraseRow(m, y, tiles, pipe);
    }
  }

  method EraseRow(m: array2<Tile>, y: int, tiles: seq<seq<Tile>>, pipe: seq<Pos>)
    requires Rect(tiles) && m.Length0 == |tiles| && m.Length1 == Width(tiles) && 0 <= y < m.Length0
    modifies m
    ensures forall y', x' :: 0 <= y' < m.Length0 && 0 <= x' < m.Length1 ==>
      m[y', x'] == if y' == y then ErasedTile(old(m[y', x']), (y', x') in pipe) else old(m[y', x'])
  {
    for x := 0 to m.Length1
      invariant forall y', x' :: 0 <= y' < m.Length0 && 0 <= x' < m.Length1 ==>
        m[y', x'] == if y' == y && x' < x then ErasedTile(old(m[y', x']), (y', x') in pipe) else old(m[y', x'])
    {
      if m[y, x] != None && (y, x) !in pipe {
        m[y, x] := Erased;
      }
    }
  }

  /** The counting pair of loops of `solve_part_2` over the array, whose
      contents are `grid`. */
  method CountInside(m: array2<Tile>, ghost grid: seq<seq<Tile>>) returns (insideCount: nat)
    requires |grid| == m.Length0 && forall y :: 0 <= y < m.Length0 ==> |grid[y]| == m.Length1
    requires forall y, x :: 0 <= y < m.Length0 && 0 <= x < m.Length1 ==> m[y, x] == grid[y][x]
    ensures insideCount == InsideCount(grid, |grid|)
  {
    insideCount := 0;
    for y := 0 to m.Length0
      invariant insideCount == InsideCount(grid, y)
    {
      var n := CountRow(m, y, grid[y]);
      insideCount := insideCount + n;
    }
  }

  /** The counted cells of row `y` of the array, whose contents are `row`. */
  method CountRow(m: array2<Tile>, y: int, ghost row: seq<Tile>) returns (n: nat)
    requires 0 <= y < m.Length0 && |row| == m.Length1
    requires forall x :: 0 <= x < m.Length1 ==> m[y, x] == row[x]
    ensures n == RowInside(row, |row|)
  {
    n := 0;
    for x := 0 to m.Length1
      invariant n == RowInside(row, x)
    {
      if m[y, x] == None || m[y, x] == Erased {
        var pipeCount := CountCrossings(m, y, x + 1, row);
        if pipeCount % 2 == 1 {
          n := n + 1;
        }
      }
    }
  }

  /** The inner `for x in x + 1..` scan. */
  method CountCrossings(m: array2<Tile>, y: int, from: int, ghost row: seq<Tile>) returns (pipeCount: nat)
    requires 0 <= y < m.Length0 && 0 <= from <= m.Length1 && |row| == m.Length1
    requires forall x :: 0 <= x < m.Length1 ==> m[y, x] == row[x]
    ensures pipeCount == Crossings(row[from..])
  {
    pipeCount := 0;
    var onBorder, arrivedFromTop := false, false;
    for x := from to m.Length1
      invariant ScanTiles(Scan(0, false, false), row[from..x]) == Scan(pipeCount, onBorder, arrivedFromTop)
    {
      ScanStep(Scan(0, false, false), row, from, x);
      match m[y, x]
      case NS => pipeCount := pipeCount + 1;
      case NE =>
        onBorder := true;
        arrivedFromTop := true;
      case NW =>
        if onBorder && !arrivedFromTop {
          pipeCount := pipeCount + 1;
          onBorder := false;
        }
      case SW =>
        if onBorder && arrivedFromTop {
          pipeCount := pipeCount + 1;
          onBorder := false;
        }
      case SE =>
        onBorder := true;
        arrivedFromTop := false;
      case _ =>
    }
    assert row[from..m.Length1] == row[from..];
  }
}
