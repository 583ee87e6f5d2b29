/** Day 18 ("Lavaduct Lagoon"): a digger follows a list of instructions and
    digs the border of a lagoon; the lagoon's size is the number of lattice
    cells on or inside the border. The current solution sums the shoelace
    terms of the corners and applies Pick's theorem; the first edition draws
    the border into a map and flood-fills it from the frame. */
module LavaductLagoon {

  import opened Common

  datatype Direction = Up | Down | Left | Right

  /** One dig-plan line: a direction, a distance and the colour code. */
  datatype Instruction = Instruction(direction: Direction, distance: int, color: nat)

  /** A lattice position; y grows downwards. */
  datatype Spot = Spot(x: int, y: int)

  /** The position n steps away in direction d. */
  function Shift(p: Spot, d: Direction, n: int): (q: Spot)
    ensures (d == Up || d == Down) ==> q.x == p.x
    ensures (d == Left || d == Right) ==> q.y == p.y
    ensures d == Up ==> q.y == p.y - n
    ensures d == Down ==> q.y == p.y + n
    ensures d == Left ==> q.x == p.x - n
    ensures d == Right ==> q.x == p.x + n
  {
    match d
    case Up => Spot(p.x, p.y - n)
    case Down => Spot(p.x, p.y + n)
    case Left => Spot(p.x - n, p.y)
    case Right => Spot(p.x + n, p.y)
  }

  function Abs(a: int): nat {
    if a < 0 then -a else a
  }

  /** Moving n steps and then m steps is moving n + m steps; a move covers
      |n| lattice steps of Manhattan distance. */
  lemma ShiftAdds(p: Spot, d: Direction, n: int, m: int)
    ensures Shift(Shift(p, d, n), d, m) == Shift(p, d, n + m)
    ensures Abs(Shift(p, d, n).x - p.x) + Abs(Shift(p, d, n).y - p.y) == Abs(n)
  {
  }

  // ---------------------------------------------------------------------------
  // compute_area

  /** The digger's position after the instructions. */
  function End(ins: seq<Instruction>): Spot {
    if ins == [] then Spot(0, 0)
    else Shift(End(ins[..|ins| - 1]), ins[|ins| - 1].direction, ins[|ins| - 1].distance)
  }

  /** The total distance dug. */
  function Border(ins: seq<Instruction>): int {
    if ins == [] then 0 else Border(ins[..|ins| - 1]) + ins[|ins| - 1].distance
  }

  /** The shoelace term of two consecutive corners. */
  function Cross(p: Spot, q: Spot): int {
    p.x * q.y - p.y * q.x
  }

  /** Twice the signed area enclosed by the corners (the shoelace sum). */
  function Shoelace(ins: seq<Instruction>): int {
    if ins == [] then 0
    else Shoelace(ins[..|ins| - 1]) + Cross(End(ins[..|ins| - 1]), End(ins))
  }

  /** Integer division by two rounding toward zero, as `isize` division
      does. */
  function Half(a: int): (q: int)
    ensures a >= 0 ==> 0 <= a - 2 * q <= 1
    ensures a < 0 ==> -1 <= a - 2 * q <= 0
  {
    if a >= 0 then a / 2 else -((-a) / 2)
  }

  /** Pick's theorem on the dug cells: interior points A - b/2 + 1 plus the
      b border points. The source halves the signed shoelace sum
      (`asWritten`); the orientation-free area halves its absolute value. */
  function Lagoon(ins: seq<Instruction>, asWritten: bool): int {
    var area := Shoelace(ins);
    (if asWritten then Half(area) else Half(Abs(area))) + Half(Border(ins)) + 1
  }

  /** `compute_area`: follows the instructions, summing the distances and the
      shoelace terms of consecutive corners. */
  method ComputeArea(instructions: seq<Instruction>, asWritten: bool) returns (result: int)
    ensures result == Lagoon(instructions, asWritten)
  {
    var current := Spot(0, 0);
    var previous := Spot(0, 0);
    var area := 0;
    var borderLength := 0;
    for i := 0 to |instructions|
      invariant previous == current == End(instructions[..i])
      invariant area == Shoelace(instructions[..i])
      invariant borderLength == Border(instructions[..i])
    {
      var instruction := instructions[i];
      assert instructions[..i + 1][..i] == instructions[..i];
      match instruction.direction {
        case Up => current := current.(y := current.y - instruction.distance);
        case Down => current := current.(y := current.y + instruction.distance);
        case Left => current := current.(x := current.x - instruction.distance);
        case Right => current := current.(x := current.x + instruction.distance);
      }
      borderLength := borderLength + instruction.distance;
      area := area + (previous.x * current.y - previous.y * current.x);
      previous := current;
    }
    assert instructions[..|instructions|] == instructions;
    if asWritten {
      result := Half(area) + Half(borderLength) + 1;
    } else {
      result := Half(Abs(area)) + Half(borderLength) + 1;
    }
  }

  /** `solve_part_1`: the area of the plan as given. */
  method SolvePart1(instructions: seq<Instruction>, asWritten: bool) returns (result: int)
    ensures result == Lagoon(instructions, asWritten)
  {
    result := ComputeArea(instructions, asWritten);
  }

  // ---------------------------------------------------------------------------
  // The decode of part 2

  /** The low hexadecimal digit of the colour names the direction. */
  function DecodeDirection(color: nat): (d: Direction)
    ensures d == Right <==> color % 16 == 0
    ensures d == Down <==> color % 16 == 1
    ensures d == Left <==> color % 16 == 2
    ensures d == Up <==> color % 16 >= 3
  {
    match color % 16
    case 0 => Right
    case 1 => Down
    case 2 => Left
    case _ => Up
  }

  /** The instruction hidden in the colour: the low digit is the direction
      and the other five digits (`color >> 4`) the distance. */
  function Decoded(ins: Instruction): Instruction {
    ins.(direction := DecodeDirection(ins.color), distance := ins.color / 16)
  }

  /** The digit the puzzle uses for a direction. */
  function Code(d: Direction): nat {
    match d case Right => 0 case Down => 1 case Left => 2 case Up => 3
  }

  /** A colour written from a direction and a distance decodes back to
      them. */
  lemma DecodeEncode(ins: Instruction, d: Direction, n: nat)
    requires ins.color == n * 16 + Code(d)
    ensures Decoded(ins) == Instruction(d, n, ins.color)
  {
    assert ins.color / 16 == n && ins.color % 16 == Code(d);
  }

  /** Decoding keeps the colour, so it is idempotent, and the distance is
      never negative. */
  lemma DecodedIdempotent(ins: Instruction)
    ensures Decoded(Decoded(ins)) == Decoded(ins)
    ensures Decoded(ins).distance >= 0 && Decoded(ins).color == ins.color
  {
  }

  function DecodeAll(ins: seq<Instruction>): (r: seq<Instruction>)
    ensures |r| == |ins|
  {
    seq(|ins|, i requires 0 <= i < |ins| => Decoded(ins[i]))
  }

  /** `solve_part_2`: rewrites a copy of the plan in place with the decoded
      instructions, then measures it. */
  method SolvePart2(instructions: seq<Instruction>, asWritten: bool) returns (result: int)
    ensures result == Lagoon(DecodeAll(instructions), asWritten)
  {
    var instructionsNew := new Instruction[|instructions|](i requires 0 <= i < |instructions| => instructions[i]);
    for i := 0 to instructionsNew.Length
      invariant forall k :: 0 <= k < i ==> instructionsNew[k] == Decoded(instructions[k])
      invariant forall k :: i <= k < instructionsNew.Length ==> instructionsNew[k] == instructions[k]
    {
      var instruction := instructionsNew[i];
      var direction;
      match instruction.color % 16 {
        case 0 => direction := Right;
        case 1 => direction := Down;
        case 2 => direction := Left;
        case _ => direction := Up;
      }
      instructionsNew[i] := instruction.(direction := direction, distance := instruction.color / 16);
    }
    assert instructionsNew[..] == DecodeAll(instructions);
    result := ComputeArea(instructionsNew[..], asWritten);
  }

  // ---------------------------------------------------------------------------
  // Properties of the area

  /** The plan of a w by h rectangle, drawn clockwise or anticlockwise on
      the screen. */
  function Rectangle(w: nat, h: nat, clockwise: bool): seq<Instruction> {
    var v := if clockwise then Down else Up;
    var u := if clockwise then Up else Down;
    [Instruction(Right, w, 0), Instruction(v, h, 0), Instruction(Left, w, 0), Instruction(u, h, 0)]
  }

  /** One more corner of the plan: where it ends and how far it has dug. */
  lemma PrefixEnd(ins: seq<Instruction>, k: nat)
    requires 0 < k <= |ins|
    ensures End(ins[..k]) == Shift(End(ins[..k - 1]), ins[k - 1].direction, ins[k - 1].distance)
    ensures Border(ins[..k]) == Border(ins[..k - 1]) + ins[k - 1].distance
  {
    assert ins[..k][..k - 1] == ins[..k - 1];
  }

  /** The shoelace term the corner adds, as a cross of the corners a, b. */
  lemma PrefixShoelace(ins: seq<Instruction>, k: nat, a: Spot, b: Spot)
    requires 0 < k <= |ins| && End(ins[..k - 1]) == a && End(ins[..k]) == b
    ensures Shoelace(ins[..k]) == Shoelace(ins[..k - 1]) + Cross(a, b)
  {
    assert ins[..k][..k - 1] == ins[..k - 1];
  }

  /** The height of the rectangle on the screen, signed by orientation. */
  function Side(h: nat, clockwise: bool): int {
    if clockwise then h else -(h as int)
  }

  /** The corners the rectangle's plan visits, and its border length. */
  lemma RectangleCorners(w: nat, h: nat, clockwise: bool)
    ensures var r, y := Rectangle(w, h, clockwise), Side(h, clockwise);
      End(r[..1]) == Spot(w, 0) && End(r[..2]) == Spot(w, y) && End(r[..3]) == Spot(0, y) && End(r[..4]) == Spot(0, 0)
    ensures Border(Rectangle(w, h, clockwise)) == 2 * w + 2 * h
  {
    var r := Rectangle(w, h, clockwise);
    assert r[..0] == [] && r[..4] == r;
    PrefixEnd(r, 1);
    PrefixEnd(r, 2);
    PrefixEnd(r, 3);
    PrefixEnd(r, 4);
  }

  /** The shoelace sum of a rectangle is twice its area, with the sign of
      its orientation. */
  lemma RectangleShoelace(w: nat, h: nat, clockwise: bool)
    ensures Shoelace(Rectangle(w, h, clockwise)) == if clockwise then 2 * (w * h) else -2 * (w * h)
    ensures Border(Rectangle(w, h, clockwise)) == 2 * w + 2 * h
  {
    var r := Rectangle(w, h, clockwise);
    var y := Side(h, clockwise);
    RectangleCorners(w, h, clockwise);
    assert r[..0] == [] && r[..4] == r;
    PrefixShoelace(r, 1, Spot(0, 0), Spot(w, 0));
    PrefixShoelace(r, 2, Spot(w, 0), Spot(w, y));
    PrefixShoelace(r, 3, Spot(w, y), Spot(0, y));
    PrefixShoelace(r, 4, Spot(0, y), Spot(0, 0));
    CornerCross(w, y);
    assert Shoelace(r) == 2 * (w * y);
    if !clockwise {
      NegateProduct(w, h);
    }
  }

  lemma CornerCross(w: int, y: int)
    ensures Cross(Spot(0, 0), Spot(w, 0)) == 0
    ensures Cross(Spot(w, 0), Spot(w, y)) == w * y
    ensures Cross(Spot(w, y), Spot(0, y)) == w * y
    ensures Cross(Spot(0, y), Spot(0, 0)) == 0
  {
  }

  lemma NegateProduct(w: int, h: int)
    ensures w * -h == -(w * h)
  {
  }

  /** A rectangle dug w by h covers (w + 1) * (h + 1) cells in either
      orientation. */
  lemma RectangleLagoon(w: nat, h: nat, clockwise: bool)
    ensures Lagoon(Rectangle(w, h, clockwise), false) == (w + 1) * (h + 1)
  {
    RectangleShoelace(w, h, clockwise);
    var a := w * h;
    assert Half(Abs(Shoelace(Rectangle(w, h, clockwise)))) == a;
    assert (w + 1) * (h + 1) == a + w + h + 1;
  }

  /** The source's answer is right for a clockwise rectangle and shrinks to
      w + h + 1 - w * h for an anticlockwise one. */
  lemma RectangleAsWritten(w: nat, h: nat)
    ensures Lagoon(Rectangle(w, h, true), true) == (w + 1) * (h + 1)
    ensures Lagoon(Rectangle(w, h, false), true) == w + h + 1 - w * h
  {
    RectangleShoelace(w, h, true);
    RectangleShoelace(w, h, false);
    var a := w * h;
    assert Half(-2 * a) == -a;
    assert (w + 1) * (h + 1) == a + w + h + 1;
  }

  /** R 2, U 2, L 2, D 2 digs a 3 by 3 square, yet the source reports 1. */
  lemma AnticlockwiseSquare()
    ensures Lagoon(Rectangle(2, 2, false), true) == 1
    ensures Lagoon(Rectangle(2, 2, false), false) == 9
  {
    RectangleAsWritten(2, 2);
    RectangleLagoon(2, 2, false);
  }

  /** The plan reflected top to bottom. */
  function Mirror(ins: seq<Instruction>): (r: seq<Instruction>)
    ensures |r| == |ins|
  {
    seq(|ins|, i requires 0 <= i < |ins| =>
      ins[i].(direction := match ins[i].direction case Up => Down case Down => Up case d => d))
  }

  lemma {:induction false} MirrorEnd(ins: seq<Instruction>)
    ensures End(Mirror(ins)) == Spot(End(ins).x, -End(ins).y)
    ensures Shoelace(Mirror(ins)) == -Shoelace(ins)
    ensures Border(Mirror(ins)) == Border(ins)
  {
    if ins != [] {
      var pre := ins[..|ins| - 1];
      assert Mirror(ins)[..|ins| - 1] == Mirror(pre);
      MirrorEnd(pre);
      CrossMirror(End(pre), End(ins));
    }
  }

  lemma CrossMirror(p: Spot, q: Spot)
    ensures Cross(Spot(p.x, -p.y), Spot(q.x, -q.y)) == -Cross(p, q)
  {
    assert p.x * -q.y == -(p.x * q.y);
    assert -p.y * q.x == -(p.y * q.x);
  }

  /** Reflecting the plan reverses its orientation; the orientation-free
      area does not change, the source's answer does. */
  lemma MirrorLagoon(ins: seq<Instruction>)
    ensures Lagoon(Mirror(ins), false) == Lagoon(ins, false)
    ensures Shoelace(ins) > 1 ==> Lagoon(Mirror(ins), true) < Lagoon(ins, true)
  {
    MirrorEnd(ins);
  }

  /** The border length counts the lattice steps from corner to corner. */
  lemma {:induction false} BorderIsWalk(ins: seq<Instruction>)
    requires forall i :: 0 <= i < |ins| ==> ins[i].distance >= 0
    ensures Border(ins) == Walked(ins)
  {
    if ins != [] {
      BorderIsWalk(ins[..|ins| - 1]);
      ShiftAdds(End(ins[..|ins| - 1]), ins[|ins| - 1].direction, ins[|ins| - 1].distance, 0);
    }
  }

  /** The Manhattan distances between consecutive corners, summed. */
  function Walked(ins: seq<Instruction>): nat {
    if ins == [] then 0
    else
      var p, q := End(ins[..|ins| - 1]), End(ins);
      Walked(ins[..|ins| - 1]) + Abs(q.x - p.x) + Abs(q.y - p.y)
  }

  // ---------------------------------------------------------------------------
  // The first edition: the border, cell by cell

  function Clamp(n: int): nat {
    if n < 0 then 0 else n
  }

  /** The cells dug by n unit steps from p, p itself left out; a negative
      count digs nothing, as `for d in 0..distance` does. */
  function Segment(p: Spot, d: Direction, n: int): (s: seq<Spot>)
    ensures |s| == Clamp(n)
    decreases n
  {
    if n <= 0 then [] else Segment(p, d, n - 1) + [Shift(p, d, n)]
  }

  lemma {:induction false} SegmentCells(p: Spot, d: Direction, n: int)
    ensures forall k :: 0 <= k < Clamp(n) ==> Segment(p, d, n)[k] == Shift(p, d, k + 1)
    decreases n
  {
    if n > 0 {
      SegmentCells(p, d, n - 1);
    }
  }

  /** The digger's position in the first edition. */
  function Here(ins: seq<Instruction>): Spot {
    if ins == [] then Spot(0, 0)
    else Shift(Here(ins[..|ins| - 1]), ins[|ins| - 1].direction, Clamp(ins[|ins| - 1].distance))
  }

  /** Every cell dug, in order, from the origin on (`border`). */
  function Trace(ins: seq<Instruction>): (t: seq<Spot>)
    ensures |t| >= 1
  {
    if ins == [] then [Spot(0, 0)]
    else
      var pre, last := ins[..|ins| - 1], ins[|ins| - 1];
      Trace(pre) + Segment(Here(pre), last.direction, last.distance)
  }

  predicate Adjacent(p: Spot, q: Spot) {
    Abs(p.x - q.x) + Abs(p.y - q.y) == 1
  }

  lemma ShiftAdjacent(p: Spot, d: Direction, k: int)
    ensures Adjacent(Shift(p, d, k), Shift(p, d, k + 1))
    ensures Shift(p, d, 0) == p
  {
  }

  /** The dug cells are a walk of unit steps from the origin to the
      digger's position. */
  lemma {:induction false} TraceWalk(ins: seq<Instruction>)
    ensures Trace(ins)[0] == Spot(0, 0)
    ensures Trace(ins)[|Trace(ins)| - 1] == Here(ins)
    ensures forall k :: 0 < k < |Trace(ins)| ==> Adjacent(Trace(ins)[k - 1], Trace(ins)[k])
  {
    if ins != [] {
      var pre, last := ins[..|ins| - 1], ins[|ins| - 1];
      TraceWalk(pre);
      var p := Here(pre);
      SegmentCells(p, last.direction, last.distance);
      ShiftAdjacent(p, last.direction, 0);
      var t, g := Trace(pre), Segment(p, last.direction, last.distance);
      assert Trace(ins) == t + g;
      forall k | 0 < k < |t + g|
        ensures Adjacent((t + g)[k - 1], (t + g)[k])
      {
        if k == |t| {
          ShiftAdjacent(p, last.direction, 0);
        } else if k > |t| {
          ShiftAdjacent(p, last.direction, k - |t|);
        }
      }
    }
  }

  /** Without negative distances both editions end where the other does,
      and the first digs one cell per unit of border length besides the
      origin. */
  lemma {:induction false} EditionsAgree(ins: seq<Instruction>)
    requires forall i :: 0 <= i < |ins| ==> ins[i].distance >= 0
    ensures Here(ins) == End(ins)
    ensures |Trace(ins)| == Border(ins) + 1
  {
    if ins != [] {
      EditionsAgree(ins[..|ins| - 1]);
    }
  }

  /** The bounding box (`bounding_box`: least x, greatest x, least y,
      greatest y). */
  datatype Box = Box(minX: int, maxX: int, minY: int, maxY: int)

  predicate Holds(b: Box, p: Spot) {
    b.minX <= p.x <= b.maxX && b.minY <= p.y <= b.maxY
  }

  function Min(a: int, b: int): int {
    if a < b then a else b
  }

  function Max(a: int, b: int): int {
    if a > b then a else b
  }

  /** The box stretched to hold p. */
  function Widen(b: Box, p: Spot): Box {
    Box(Min(b.minX, p.x), Max(b.maxX, p.x), Min(b.minY, p.y), Max(b.maxY, p.y))
  }

  /** The box the source has after digging the cells s, starting from the
      origin's box. */
  function BoxOf(s: seq<Spot>): (b: Box)
    ensures Holds(b, Spot(0, 0))
  {
    if s == [] then Box(0, 0, 0, 0) else Widen(BoxOf(s[..|s| - 1]), s[|s| - 1])
  }

  /** The box holds every dug cell, and every box holding them and the
      origin holds it: it is the least one. */
  lemma {:induction false} BoxHolds(s: seq<Spot>)
    ensures forall k :: 0 <= k < |s| ==> Holds(BoxOf(s), s[k])
  {
    if s != [] {
      BoxHolds(s[..|s| - 1]);
    }
  }

  lemma {:induction false} BoxLeast(s: seq<Spot>, b: Box)
    requires Holds(b, Spot(0, 0)) && forall k :: 0 <= k < |s| ==> Holds(b, s[k])
    ensures b.minX <= BoxOf(s).minX && BoxOf(s).maxX <= b.maxX
    ensures b.minY <= BoxOf(s).minY && BoxOf(s).maxY <= b.maxY
  {
    if s != [] {
      BoxLeast(s[..|s| - 1], b);
    }
  }

  /** The first loop of `solve_part_1_first_edition`: digs the border cell
      by cell and keeps the bounding box. */
  method DigBorder(instructions: seq<Instruction>) returns (border: seq<Spot>, box: Box)
    ensures border == Trace(instructions) && box == BoxOf(border)
  {
    border := [];
    var current := Spot(0, 0);
    box := Box(0, 0, 0, 0);
    border := border + [Spot(0, 0)];
    assert border[..0] == [];
    for i := 0 to |instructions|
      invariant border == Trace(instructions[..i]) && current == Here(instructions[..i])
      invariant box == BoxOf(border)
    {
      assert instructions[..i + 1][..i] == instructions[..i];
      border, box, current := DigLine(instructions[i], border, box, current);
    }
    assert instructions[..|instructions|] == instructions;
  }

  /** One unit step of the inner loop extends the segment and widens the box. */
  lemma DigStep(border: seq<Spot>, dug: seq<Spot>, start: Spot, d: Direction, n: nat, current: Spot)
    requires dug == border + Segment(start, d, n) && current == Shift(start, d, n + 1)
    ensures dug + [current] == border + Segment(start, d, n + 1)
    ensures BoxOf(dug + [current]) == Widen(BoxOf(dug), current)
  {
    assert (dug + [current])[..|dug|] == dug;
  }

  /** The inner loop: one instruction's cells, one unit step at a time. */
  method DigLine(instruction: Instruction, border: seq<Spot>, box: Box, start: Spot)
    returns (border': seq<Spot>, box': Box, current: Spot)
    requires box == BoxOf(border)
    ensures border' == border + Segment(start, instruction.direction, instruction.distance)
    ensures current == Shift(start, instruction.direction, Clamp(instruction.distance))
    ensures box' == BoxOf(border')
  {
    border', box', current := border, box, start;
    var d := 0;
    while d < instruction.distance
      invariant 0 <= d <= Clamp(instruction.distance)
      invariant border' == border + Segment(start, instruction.direction, d)
      invariant current == Shift(start, instruction.direction, d)
      invariant box' == BoxOf(border')
    {
      match instruction.direction {
        case Up => current := current.(y := current.y - 1);
        case Down => current := current.(y := current.y + 1);
        case Left => current := current.(x := current.x - 1);
        case Right => current := current.(x := current.x + 1);
      }
      DigStep(border, border', start, instruction.direction, d, current);
      border' := border' + [current];
      box' := Box(Min(box'.minX, current.x), Max(box'.maxX, current.x), Min(box'.minY, current.y), Max(box'.maxY, current.y));
      d := d + 1;
    }
  }

  // ---------------------------------------------------------------------------
  // The map

  /** The map leaves a frame of one empty cell around the box. */
  function Width(b: Box): int {
    b.maxX - b.minX + 3
  }

  function Height(b: Box): int {
    b.maxY - b.minY + 3
  }

  predicate InGrid(w: int, h: int, c: Spot) {
    0 <= c.x < w && 0 <= c.y < h
  }

  lemma IndexBelow(w: int, h: int, c: Spot)
    requires InGrid(w, h, c)
    ensures 0 <= c.y * w + c.x < w * h
  {
    MulLess(c.y, h, w);
  }

  /** Where row y starts, `y * w`, written as repeated addition so that
      the index below stays linear for the solver. */
  function RowStart(w: int, y: nat): int {
    if y == 0 then 0 else RowStart(w, y - 1) + w
  }

  lemma {:induction false} RowStartIs(w: int, y: nat)
    ensures RowStart(w, y) == y * w
  {
    if y > 0 {
      RowStartIs(w, y - 1);
    }
  }

  /** The row-major index `y * width + x` of a cell. */
  function Idx(w: int, h: int, c: Spot): (i: nat)
    requires InGrid(w, h, c)
    ensures i < w * h
  {
    IndexBelow(w, h, c);
    RowStartIs(w, c.y);
    RowStart(w, c.y) + c.x
  }

  /** The cell at a row-major index. */
  function CellAt(w: int, i: int): Spot
    requires w > 0
  {
    Spot(i % w, i / w)
  }

  /** Indices and cells correspond one to one. */
  lemma CellIndex(w: int, h: int, c: Spot)
    requires InGrid(w, h, c)
    ensures CellAt(w, Idx(w, h, c)) == c
  {
    var k := Idx(w, h, c);
    RowStartIs(w, c.y);
    var q, r := k / w, k % w;
    assert k == q * w + r;
    if q < c.y {
      MulLess(q, c.y, w);
    } else if q > c.y {
      MulLess(c.y, q, w);
    }
  }

  lemma IndexCell(w: int, h: int, i: int)
    requires w > 0 && 0 <= i < w * h
    ensures InGrid(w, h, CellAt(w, i)) && Idx(w, h, CellAt(w, i)) == i
  {
    var q := i / w;
    RowStartIs(w, q);
    assert q * w <= i;
    assert (h - q) * w == h * w - q * w;
    PositiveFactor(h - q, w);
  }

  /** Where a dug cell lands in the map, and back. */
  function Place(b: Box, p: Spot): Spot {
    Spot(p.x - b.minX + 1, p.y - b.minY + 1)
  }

  function Unplace(b: Box, c: Spot): Spot {
    Spot(c.x + b.minX - 1, c.y + b.minY - 1)
  }

  /** The map with the border drawn: 1 on dug cells, 0 elsewhere. */
  function DrawnMap(b: Box, t: seq<Spot>): (m: seq<int>)
    requires b.minX <= b.maxX && b.minY <= b.maxY
    ensures |m| == Width(b) * Height(b)
  {
    var w, h := Width(b), Height(b);
    seq(w * h, i requires 0 <= i < w * h => if Unplace(b, CellAt(w, i)) in t then 1 else 0)
  }

  /** Drawing the dug cell p marks its map index and no other. */
  lemma DrawStep(b: Box, p: Spot)
    requires Holds(b, p)
    ensures InGrid(Width(b), Height(b), Place(b, p))
    ensures (p.y - b.minY + 1) * Width(b) + (p.x - b.minX + 1) == Idx(Width(b), Height(b), Place(b, p))
    ensures forall i :: 0 <= i < Width(b) * Height(b) ==>
      (Unplace(b, CellAt(Width(b), i)) == p <==> i == Idx(Width(b), Height(b), Place(b, p)))
  {
    var w, h := Width(b), Height(b);
    var c := Place(b, p);
    RowStartIs(w, c.y);
    CellIndex(w, h, c);
    forall i | 0 <= i < w * h
      ensures Unplace(b, CellAt(w, i)) == p <==> i == Idx(w, h, c)
    {
      IndexCell(w, h, i);
    }
  }

  /** The border-drawing loop: every dug cell becomes 1. */
  method DrawBorder(grid: array<int>, border: seq<Spot>, box: Box)
    requires forall k :: 0 <= k < |border| ==> Holds(box, border[k])
    requires box.minX <= box.maxX && box.minY <= box.maxY
    requires grid.Length == Width(box) * Height(box)
    requires forall i :: 0 <= i < grid.Length ==> grid[i] == 0
    modifies grid
    ensures grid[..] == DrawnMap(box, border)
  {
    var width := box.maxX - box.minX + 3;
    for j := 0 to |border|
      invariant forall i :: 0 <= i < grid.Length ==>
        grid[i] == if Unplace(box, CellAt(width, i)) in border[..j] then 1 else 0
    {
      var p := border[j];
      DrawStep(box, p);
      assert border[..j + 1] == border[..j] + [p];
      grid[(p.y - box.minY + 1) * width + (p.x - box.minX + 1)] := 1;
    }
    assert border[..|border|] == border;
  }

  // ---------------------------------------------------------------------------
  // The flood fill

  /** The outermost ring of the map, from which the fill starts. */
  predicate Frame(w: int, h: int, c: Spot) {
    InGrid(w, h, c) && (c.x == 0 || c.x == w - 1 || c.y == 0 || c.y == h - 1)
  }

  /** The cells the fill pushes from c, in the source's order; it does not
      step down into the last row nor right into the last column. */
  function Moves(w: int, h: int, c: Spot): seq<Spot> {
    var up := PushIf([], c.y > 0, Spot(c.x, c.y - 1));
    var down := PushIf(up, c.y < h - 2, Spot(c.x, c.y + 1));
    var left := PushIf(down, c.x > 0, Spot(c.x - 1, c.y));
    PushIf(left, c.x < w - 2, Spot(c.x + 1, c.y))
  }

  function PushIf(s: seq<Spot>, b: bool, t: Spot): seq<Spot> {
    if b then s + [t] else s
  }

  lemma MovesInGrid(w: int, h: int, c: Spot)
    requires InGrid(w, h, c)
    ensures forall t :: t in Moves(w, h, c) ==> InGrid(w, h, t) && Adjacent(c, t)
  {
  }

  lemma MoveInGrid(w: int, h: int, c: Spot, t: Spot)
    requires InGrid(w, h, c) && t in Moves(w, h, c)
    ensures InGrid(w, h, t)
  {
    MovesInGrid(w, h, c);
  }

  /** A cell still 0 in the map m. */
  predicate Open(w: int, h: int, m: seq<int>, c: Spot) {
    InGrid(w, h, c) && |m| == w * h && m[Idx(w, h, c)] == 0
  }

  /** Step k of a fill path: cell k - 1 is open and pushes cell k. */
  ghost predicate Link(w: int, h: int, m: seq<int>, p: seq<Spot>, k: int)
    requires 0 < k < |p|
  {
    Open(w, h, m, p[k - 1]) && p[k] in Moves(w, h, p[k - 1])
  }

  /** A sequence of cells from the frame, each pushed from the one before,
      all open but maybe the last. */
  ghost predicate IsFill(w: int, h: int, m: seq<int>, p: seq<Spot>) {
    |p| >= 1 && Frame(w, h, p[0]) && forall k :: 0 < k < |p| ==> Link(w, h, m, p, k)
  }

  /** The cells the fill pushes at some time. */
  ghost predicate Touched(w: int, h: int, m: seq<int>, t: Spot) {
    exists p :: IsFill(w, h, m, p) && p[|p| - 1] == t
  }

  /** The cells the fill marks 2: open and pushed. */
  ghost predicate Flooded(w: int, h: int, m: seq<int>, c: Spot) {
    Open(w, h, m, c) && Touched(w, h, m, c)
  }

  lemma TouchFrame(w: int, h: int, m: seq<int>, c: Spot)
    requires Frame(w, h, c)
    ensures Touched(w, h, m, c)
  {
    assert IsFill(w, h, m, [c]);
  }

  /** A path followed by a cell its open last cell pushes. */
  function Prolong(w: int, h: int, m: seq<int>, p: seq<Spot>, t: Spot): (q: seq<Spot>)
    requires IsFill(w, h, m, p) && Open(w, h, m, p[|p| - 1]) && t in Moves(w, h, p[|p| - 1])
    ensures IsFill(w, h, m, q) && q[|q| - 1] == t
  {
    Extend(w, h, m, p, p[|p| - 1], t);
    p + [t]
  }

  lemma Extend(w: int, h: int, m: seq<int>, p: seq<Spot>, c: Spot, t: Spot)
    requires IsFill(w, h, m, p) && c == p[|p| - 1] && Open(w, h, m, c) && t in Moves(w, h, c)
    ensures IsFill(w, h, m, p + [t])
  {
    var q := p + [t];
    forall k | 0 < k < |q|
      ensures Link(w, h, m, q, k)
    {
      if k < |p| {
        assert Link(w, h, m, p, k);
        assert q[k - 1] == p[k - 1] && q[k] == p[k];
      } else {
        assert q[k - 1] == c && q[k] == t;
      }
    }
    assert q[0] == p[0];
  }

  lemma TouchStep(w: int, h: int, m: seq<int>, c: Spot)
    requires Touched(w, h, m, c) && Open(w, h, m, c)
    ensures forall t :: t in Moves(w, h, c) ==> Touched(w, h, m, t)
  {
    var p :| IsFill(w, h, m, p) && p[|p| - 1] == c;
    forall t | t in Moves(w, h, c)
      ensures Touched(w, h, m, t)
    {
      var q := Prolong(w, h, m, p, t);
    }
  }

  /** The map values the drawing leaves: border 1, the rest 0. */
  predicate Binary(m: seq<int>) {
    forall i :: 0 <= i < |m| ==> m[i] == 0 || m[i] == 1
  }

  /** The fill changes 0 cells to 2 and nothing else. */
  predicate Agrees(m0: seq<int>, cur: seq<int>) {
    |cur| == |m0| && forall i :: 0 <= i < |m0| ==> cur[i] == m0[i] || (m0[i] == 0 && cur[i] == 2)
  }

  /** Every stacked and every marked cell is touched. */
  ghost predicate Sound(w: int, h: int, m0: seq<int>, cur: seq<int>, heap: seq<Spot>) {
    |cur| == w * h &&
    (forall c :: c in heap ==> InGrid(w, h, c) && Touched(w, h, m0, c)) &&
    (forall c {:trigger cur[Idx(w, h, c)]} :: InGrid(w, h, c) && cur[Idx(w, h, c)] == 2 ==> Touched(w, h, m0, c))
  }

  /** An on-grid cell no longer 0 or still stacked. */
  predicate Settled(w: int, h: int, cur: seq<int>, heap: seq<Spot>, t: Spot)
    requires |cur| == w * h
  {
    InGrid(w, h, t) ==> cur[Idx(w, h, t)] != 0 || t in heap
  }

  /** Every frame cell, and every cell a marked cell pushes, is settled. */
  ghost predicate Pending(w: int, h: int, cur: seq<int>, heap: seq<Spot>) {
    |cur| == w * h &&
    (forall c {:trigger Frame(w, h, c)} :: Frame(w, h, c) ==> Settled(w, h, cur, heap, c)) &&
    forall c {:trigger Moves(w, h, c)} :: InGrid(w, h, c) && cur[Idx(w, h, c)] == 2 ==>
      forall k :: 0 <= k < |Moves(w, h, c)| ==> Settled(w, h, cur, heap, Moves(w, h, c)[k])
  }

  function Zeros(s: seq<int>): nat {
    if s == [] then 0 else Zeros(s[..|s| - 1]) + if s[|s| - 1] == 0 then 1 else 0
  }

  lemma {:induction false} ZerosFill(s: seq<int>, i: nat)
    requires i < |s| && s[i] == 0
    ensures Zeros(s[i := 2]) == Zeros(s) - 1
    decreases |s|
  {
    var t := s[i := 2];
    assert t[..|t| - 1] == if i == |s| - 1 then s[..|s| - 1] else s[..|s| - 1][i := 2];
    if i < |s| - 1 {
      ZerosFill(s[..|s| - 1], i);
    }
  }

  lemma Unpush(heap: seq<Spot>)
    requires heap != []
    ensures heap == heap[..|heap| - 1] + [heap[|heap| - 1]]
  {
  }

  /** Marking an open stacked cell and pushing its moves keeps the fill's
      invariants. */
  lemma FillSound(w: int, h: int, m0: seq<int>, cur: seq<int>, rest: seq<Spot>, c: Spot, i: int)
    requires Agrees(m0, cur) && Sound(w, h, m0, cur, rest + [c])
    requires InGrid(w, h, c) && i == Idx(w, h, c) && cur[i] == 0
    ensures Agrees(m0, cur[i := 2])
    ensures Sound(w, h, m0, cur[i := 2], rest + Moves(w, h, c))
  {
    var cur' := cur[i := 2];
    assert c in rest + [c];
    assert Open(w, h, m0, c);
    TouchStep(w, h, m0, c);
    MovesInGrid(w, h, c);
    forall d | InGrid(w, h, d) && cur'[Idx(w, h, d)] == 2
      ensures Touched(w, h, m0, d)
    {
      if d != c {
        CellIndex(w, h, d);
        CellIndex(w, h, c);
        assert cur[Idx(w, h, d)] == 2;
      }
    }
  }

  lemma FillPending(w: int, h: int, cur: seq<int>, rest: seq<Spot>, c: Spot, i: int)
    requires Pending(w, h, cur, rest + [c])
    requires InGrid(w, h, c) && i == Idx(w, h, c) && cur[i] == 0
    ensures Pending(w, h, cur[i := 2], rest + Moves(w, h, c))
  {
    var cur' := cur[i := 2];
    var heap' := rest + Moves(w, h, c);
    forall t | InGrid(w, h, t) && Settled(w, h, cur, rest + [c], t)
      ensures Settled(w, h, cur', heap', t)
    {
      if t != c {
        CellIndex(w, h, t);
        CellIndex(w, h, c);
      }
    }
    forall d | InGrid(w, h, d) && cur'[Idx(w, h, d)] == 2
      ensures forall k :: 0 <= k < |Moves(w, h, d)| ==> Settled(w, h, cur', heap', Moves(w, h, d)[k])
    {
      if d != c {
        CellIndex(w, h, d);
        CellIndex(w, h, c);
        assert cur[Idx(w, h, d)] == 2;
        assert forall k :: 0 <= k < |Moves(w, h, d)| ==> Settled(w, h, cur, rest + [c], Moves(w, h, d)[k]);
      }
    }
  }

  /** Popping a cell that is not 0 keeps the invariants. */
  lemma PopKept(w: int, h: int, m0: seq<int>, cur: seq<int>, rest: seq<Spot>, c: Spot, i: int)
    requires Sound(w, h, m0, cur, rest + [c]) && Pending(w, h, cur, rest + [c])
    requires InGrid(w, h, c) && i == Idx(w, h, c) && cur[i] != 0
    ensures Sound(w, h, m0, cur, rest) && Pending(w, h, cur, rest)
  {
    forall t | InGrid(w, h, t) && Settled(w, h, cur, rest + [c], t)
      ensures Settled(w, h, cur, rest, t)
    {
    }
  }

  /** Once the stack is empty, no cell of a fill path is still 0. */
  lemma {:induction false} FillInside(w: int, h: int, m0: seq<int>, cur: seq<int>, p: seq<Spot>, k: nat)
    requires Agrees(m0, cur) && Pending(w, h, cur, []) && IsFill(w, h, m0, p) && k < |p|
    ensures InGrid(w, h, p[k]) && cur[Idx(w, h, p[k])] != 0
    decreases k
  {
    if k > 0 {
      FillInside(w, h, m0, cur, p, k - 1);
      var b := p[k - 1];
      assert Link(w, h, m0, p, k);
      MoveInGrid(w, h, b, p[k]);
      assert cur[Idx(w, h, b)] == 2;
      var ms := Moves(w, h, b);
      var j :| 0 <= j < |ms| && ms[j] == p[k];
      assert Settled(w, h, cur, [], ms[j]);
    } else {
      assert Settled(w, h, cur, [], p[0]);
    }
  }

  /** When the stack is empty, the marked cells are exactly the flooded
      ones. */
  lemma FloodComplete(w: int, h: int, m0: seq<int>, cur: seq<int>)
    requires w > 0 && Binary(m0) && Agrees(m0, cur) && Sound(w, h, m0, cur, []) && Pending(w, h, cur, [])
    ensures forall i :: 0 <= i < |cur| ==> (cur[i] == 2 <==> Flooded(w, h, m0, CellAt(w, i)))
  {
    forall i | 0 <= i < |cur|
      ensures cur[i] == 2 <==> Flooded(w, h, m0, CellAt(w, i))
    {
      IndexCell(w, h, i);
      if cur[i] == 2 {
        MarkedFlooded(w, h, m0, cur, CellAt(w, i));
      } else if Flooded(w, h, m0, CellAt(w, i)) {
        FloodedMarked(w, h, m0, cur, CellAt(w, i));
      }
    }
  }

  lemma MarkedFlooded(w: int, h: int, m0: seq<int>, cur: seq<int>, c: Spot)
    requires Binary(m0) && Agrees(m0, cur) && Sound(w, h, m0, cur, []) && InGrid(w, h, c)
    requires cur[Idx(w, h, c)] == 2
    ensures Flooded(w, h, m0, c)
  {
    assert m0[Idx(w, h, c)] == 0;
  }

  lemma FloodedMarked(w: int, h: int, m0: seq<int>, cur: seq<int>, c: Spot)
    requires Agrees(m0, cur) && Pending(w, h, cur, []) && InGrid(w, h, c)
    requires Flooded(w, h, m0, c)
    ensures cur[Idx(w, h, c)] == 2
  {
    var p :| IsFill(w, h, m0, p) && p[|p| - 1] == c;
    FillInside(w, h, m0, cur, p, |p| - 1);
  }

  lemma Push(rest: seq<Spot>, ms: seq<Spot>, t: Spot)
    ensures (rest + ms) + [t] == rest + (ms + [t])
  {
  }

  /** `heap.pop()` followed by the marking of a 0 cell and its pushes. */
  method Fill(grid: array<int>, rest: seq<Spot>, c: Spot, width: int, height: int) returns (heap: seq<Spot>)
    requires grid.Length == width * height && InGrid(width, height, c)
    modifies grid
    ensures grid[..] == old(grid[..])[Idx(width, height, c) := 2]
    ensures heap == rest + Moves(width, height, c)
  {
    grid[Idx(width, height, c)] := 2;
    heap := PushMoves(rest, c, width, height);
  }

  /** The four guarded pushes of the fill, in the source's order. */
  method PushMoves(rest: seq<Spot>, c: Spot, width: int, height: int) returns (heap: seq<Spot>)
    ensures heap == rest + Moves(width, height, c)
  {
    var x, y := c.x, c.y;
    heap := rest;
    ghost var ms: seq<Spot> := [];
    if y > 0 {
      Push(rest, ms, Spot(x, y - 1));
      heap, ms := heap + [Spot(x, y - 1)], ms + [Spot(x, y - 1)];
    }
    assert heap == rest + ms && ms == PushIf([], y > 0, Spot(x, y - 1));
    if y < height - 2 {
      Push(rest, ms, Spot(x, y + 1));
      heap, ms := heap + [Spot(x, y + 1)], ms + [Spot(x, y + 1)];
    }
    assert heap == rest + ms && ms == PushIf(PushIf([], y > 0, Spot(x, y - 1)), y < height - 2, Spot(x, y + 1));
    ghost var down := ms;
    if x > 0 {
      Push(rest, ms, Spot(x - 1, y));
      heap, ms := heap + [Spot(x - 1, y)], ms + [Spot(x - 1, y)];
    }
    assert heap == rest + ms && ms == PushIf(down, x > 0, Spot(x - 1, y));
    ghost var left := ms;
    if x < width - 2 {
      Push(rest, ms, Spot(x + 1, y));
      heap, ms := heap + [Spot(x + 1, y)], ms + [Spot(x + 1, y)];
    }
    assert heap == rest + ms && ms == PushIf(left, x < width - 2, Spot(x + 1, y));
  }

  /** The filling branch of a flood turn, with the invariants it keeps. */
  method FillAt(grid: array<int>, rest: seq<Spot>, c: Spot, width: int, height: int, ghost m0: seq<int>, ghost i: int)
    returns (next: seq<Spot>)
    requires grid.Length == width * height && InGrid(width, height, c) && i == Idx(width, height, c) && grid[i] == 0
    requires Agrees(m0, grid[..]) && Sound(width, height, m0, grid[..], rest + [c]) && Pending(width, height, grid[..], rest + [c])
    modifies grid
    ensures Agrees(m0, grid[..]) && Sound(width, height, m0, grid[..], next) && Pending(width, height, grid[..], next)
    ensures Zeros(grid[..]) < Zeros(old(grid[..]))
  {
    ghost var cur := grid[..];
    next := Fill(grid, rest, c, width, height);
    FillSound(width, height, m0, cur, rest, c, i);
    FillPending(width, height, cur, rest, c, i);
    ZerosFill(cur, i);
  }

  /** One turn of the flood loop: pop a cell and fill it when it is still 0. */
  method Visit(grid: array<int>, stack: seq<Spot>, width: int, height: int, ghost m0: seq<int>) returns (next: seq<Spot>)
    requires width >= 1 && height >= 1 && grid.Length == width * height && stack != []
    requires Agrees(m0, grid[..]) && Sound(width, height, m0, grid[..], stack) && Pending(width, height, grid[..], stack)
    modifies grid
    ensures Agrees(m0, grid[..]) && Sound(width, height, m0, grid[..], next) && Pending(width, height, grid[..], next)
    ensures Zeros(grid[..]) < Zeros(old(grid[..])) || (grid[..] == old(grid[..]) && |next| < |stack|)
  {
    ghost var cur := grid[..];
    var c := stack[|stack| - 1];
    ghost var rest := stack[..|stack| - 1];
    Unpush(stack);
    assert stack == rest + [c];
    assert InGrid(width, height, c);
    var i := Idx(width, height, c);
    next := stack[..|stack| - 1];
    if grid[i] == 0 {
      next := FillAt(grid, next, c, width, height, m0, i);
    } else {
      PopKept(width, height, m0, cur, rest, c, i);
    }
  }

  /** The fill loop: starting from the stacked frame cells, marks 2 every
      cell it reaches that is still 0; it writes only cells that are 0, so
      the border keeps its 1s. */
  method Flood(grid: array<int>, heap: seq<Spot>, width: int, height: int, ghost m0: seq<int>)
    requires width >= 1 && height >= 1 && grid.Length == width * height && grid[..] == m0 && Binary(m0)
    requires forall c :: c in heap <==> Frame(width, height, c)
    modifies grid
    ensures forall i :: 0 <= i < grid.Length ==> (grid[i] == 2 <==> Flooded(width, height, m0, CellAt(width, i)))
    ensures forall i :: 0 <= i < grid.Length ==> grid[i] == m0[i] || (m0[i] == 0 && grid[i] == 2)
  {
    var stack := heap;
    forall c | c in stack
      ensures Touched(width, height, m0, c)
    {
      TouchFrame(width, height, m0, c);
    }
    while stack != []
      invariant Agrees(m0, grid[..]) && Sound(width, height, m0, grid[..], stack) && Pending(width, height, grid[..], stack)
      decreases Zeros(grid[..]), |stack|
    {
      stack := Visit(grid, stack, width, height, m0);
    }
    FloodComplete(width, height, m0, grid[..]);
  }

  /** The frame, stacked row by row and then column by column. */
  method FrameSeeds(width: int, height: int) returns (heap: seq<Spot>)
    requires width >= 1 && height >= 1
    ensures forall c :: c in heap <==> Frame(width, height, c)
  {
    heap := [];
    for y := 0 to height
      invariant forall c :: c in heap <==> (c.x == 0 || c.x == width - 1) && 0 <= c.y < y
    {
      heap := heap + [Spot(0, y)];
      heap := heap + [Spot(width - 1, y)];
    }
    for x := 0 to width
      invariant forall c :: c in heap <==>
        ((c.x == 0 || c.x == width - 1) && 0 <= c.y < height) || ((c.y == 0 || c.y == height - 1) && 0 <= c.x < x)
    {
      heap := heap + [Spot(x, 0)];
      heap := heap + [Spot(x, height - 1)];
    }
  }

  // ---------------------------------------------------------------------------
  // The count

  /** The number of cells below index n the fill does not flood. */
  ghost function Unflooded(w: int, h: int, m: seq<int>, n: nat): (r: nat)
    requires w > 0 && n <= w * h
    ensures r <= n
  {
    if n == 0 then 0 else Unflooded(w, h, m, n - 1) + if Flooded(w, h, m, CellAt(w, n - 1)) then 0 else 1
  }

  /** The first edition's answer: the cells of the map the fill does not
      reach from the frame. */
  ghost function FirstEditionArea(ins: seq<Instruction>): nat {
    var t := Trace(ins);
    var b := BoxOf(t);
    Unflooded(Width(b), Height(b), DrawnMap(b, t), Width(b) * Height(b))
  }

  /** The number of 1s (`filter(|&v| *v == 1).count()`). */
  function Ones(s: seq<int>): (n: nat)
    ensures n <= |s|
  {
    if s == [] then 0 else Ones(s[..|s| - 1]) + if s[|s| - 1] == 1 then 1 else 0
  }

  lemma {:induction false} CountOnes(w: int, h: int, m: seq<int>, e: seq<int>, n: nat)
    requires w > 0 && n <= |e| == w * h
    requires forall i :: 0 <= i < |e| ==> (e[i] == 1 <==> !Flooded(w, h, m, CellAt(w, i)))
    ensures Ones(e[..n]) == Unflooded(w, h, m, n)
  {
    if n > 0 {
      CountOnes(w, h, m, e, n - 1);
      assert e[..n][..n - 1] == e[..n - 1];
      assert e[..n][n - 1] == e[n - 1];
    }
  }

  lemma DrawnBinary(b: Box, t: seq<Spot>)
    requires b.minX <= b.maxX && b.minY <= b.maxY
    ensures Binary(DrawnMap(b, t))
  {
  }

  /** `solve_part_1_first_edition`: digs and draws the border, floods the
      map from the frame, turns what is left to 1 and counts the 1s. */
  method SolvePart1FirstEdition(instructions: seq<Instruction>) returns (count: nat)
    ensures count == FirstEditionArea(instructions)
  {
    var border, box := DigBorder(instructions);
    BoxHolds(border);
    var width := box.maxX - box.minX + 3;
    var height := box.maxY - box.minY + 3;
    var grid := new int[width * height](_ => 0);
    DrawBorder(grid, border, box);
    ghost var m0 := grid[..];
    DrawnBinary(box, border);
    var heap := FrameSeeds(width, height);
    Flood(grid, heap, width, height, m0);
    ghost var filled := grid[..];
    for i := 0 to grid.Length
      invariant forall k :: 0 <= k < i ==> grid[k] == if filled[k] == 0 then 1 else filled[k]
      invariant forall k :: i <= k < grid.Length ==> grid[k] == filled[k]
    {
      if grid[i] == 0 {
        grid[i] := 1;
      }
    }
    count := Ones(grid[..]);
    CountOnes(width, height, m0, grid[..], grid.Length);
    assert grid[..][..grid.Length] == grid[..];
  }
}
