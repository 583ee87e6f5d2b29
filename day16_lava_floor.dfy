/** Day 16 ("The Floor Will Be Lava"): a beam enters a grid of mirrors and
    splitters; every cell it passes through is energized. The solver follows
    the beam with a stack of beam states and a set of states already
    expanded. */
module LavaFloor {

  import opened Common

  datatype Dir = Up | Right | Down | Left

  datatype Cell = Empty | MirrorUp | MirrorDown | SplitterHorizontal | SplitterVertical

  /** A beam at a cell, travelling in a direction (`BeamState`). */
  datatype Beam = Beam(x: int, y: int, direction: Dir)

  datatype Statement = Statement(mirrorMap: seq<seq<Cell>>, width: nat, height: nat)

  /** The cell kinds of the input: '/' and '\' are mirrors, '-' and '|'
      splitters, anything else empty floor. */
  function FromChar(c: char): (k: Cell)
    ensures k == Empty <==> c !in "/\\-|"
  {
    match c
    case '/' => MirrorUp
    case '\\' => MirrorDown
    case '-' => SplitterHorizontal
    case '|' => SplitterVertical
    case _ => Empty
  }

  /** Rows of equal length. */
  predicate Valid(st: Statement) {
    |st.mirrorMap| == st.height && forall y :: 0 <= y < st.height ==> |st.mirrorMap[y]| == st.width
  }

  predicate InBounds(st: Statement, x: int, y: int) {
    0 <= x < st.width && 0 <= y < st.height
  }

  // ---------------------------------------------------------------------------
  // One move of a beam

  function Opposite(d: Dir): Dir {
    match d
    case Up => Down
    case Right => Left
    case Down => Up
    case Left => Right
  }

  predicate Horizontal(d: Dir) {
    d == Left || d == Right
  }

  /** The directions a beam leaves a cell in (`move_beam`), in the order the
      source pushes them. */
  function Deflect(c: Cell, d: Dir): (ds: seq<Dir>)
    ensures 1 <= |ds| <= 2
  {
    match c
    case Empty => [d]
    case MirrorUp =>
      (match d case Up => [Right] case Right => [Up] case Down => [Left] case Left => [Down])
    case MirrorDown =>
      (match d case Up => [Left] case Right => [Down] case Down => [Right] case Left => [Up])
    case SplitterHorizontal =>
      if Horizontal(d) then [d] else [Left, Right]
    case SplitterVertical =>
      if !Horizontal(d) then [d] else [Down, Up]
  }

  /** The beam one cell further in direction d. */
  function Ahead(x: int, y: int, d: Dir): Beam {
    match d
    case Up => Beam(x, y - 1, d)
    case Right => Beam(x + 1, y, d)
    case Down => Beam(x, y + 1, d)
    case Left => Beam(x - 1, y, d)
  }

  /** The beam, if it is still on the grid (`add_to_heap`). */
  function Pass(st: Statement, b: Beam): seq<Beam> {
    if InBounds(st, b.x, b.y) then [b] else []
  }

  /** The beams a beam at an on-grid cell pushes, in order. */
  function Next(st: Statement, b: Beam): seq<Beam>
    requires Valid(st) && InBounds(st, b.x, b.y)
  {
    var ds := Deflect(st.mirrorMap[b.y][b.x], b.direction);
    Pass(st, Ahead(b.x, b.y, ds[0])) + if |ds| == 2 then Pass(st, Ahead(b.x, b.y, ds[1])) else []
  }

  /** A beam keeps its direction exactly on empty floor and on a splitter
      parallel to it; it never turns back. */
  lemma DeflectMeaning(c: Cell, d: Dir)
    ensures Deflect(c, d) == [d] <==>
      c == Empty || (c == SplitterHorizontal && Horizontal(d)) || (c == SplitterVertical && !Horizontal(d))
    ensures Opposite(d) !in Deflect(c, d)
  {
  }

  /** A mirror turns the beam a quarter turn, and a beam sent back the way
      it left comes out the way the first one came in. */
  lemma MirrorReversible(c: Cell, d: Dir)
    requires c == MirrorUp || c == MirrorDown
    ensures |Deflect(c, d)| == 1
    ensures Horizontal(Deflect(c, d)[0]) != Horizontal(d)
    ensures Deflect(c, Opposite(Deflect(c, d)[0])) == [Opposite(d)]
  {
  }

  /** A splitter passes a parallel beam and splits a perpendicular one into
      both directions along it. */
  lemma SplitterMeaning(c: Cell, d: Dir)
    requires c == SplitterHorizontal || c == SplitterVertical
    ensures forall e :: e in Deflect(c, d) ==> Horizontal(e) == (c == SplitterHorizontal)
    ensures Horizontal(d) != (c == SplitterHorizontal) ==> |Deflect(c, d)| == 2 && Deflect(c, d)[0] == Opposite(Deflect(c, d)[1])
  {
  }

  // ---------------------------------------------------------------------------
  // Reachability

  /** A sequence of on-grid beam states, each pushed by the one before. */
  ghost predicate IsPath(st: Statement, p: seq<Beam>)
    requires Valid(st)
    decreases |p|
  {
    |p| >= 1 && InBounds(st, p[|p| - 1].x, p[|p| - 1].y) &&
    (|p| > 1 ==> IsPath(st, p[..|p| - 1]) && p[|p| - 1] in Next(st, p[|p| - 2]))
  }

  /** The beam states the beam entering at s0 passes through. */
  ghost predicate Reachable(st: Statement, s0: Beam, t: Beam)
    requires Valid(st)
  {
    exists p :: IsPath(st, p) && p[0] == s0 && p[|p| - 1] == t
  }

  lemma ReachStart(st: Statement, s0: Beam)
    requires Valid(st) && InBounds(st, s0.x, s0.y)
    ensures Reachable(st, s0, s0)
  {
    assert IsPath(st, [s0]);
  }

  lemma ReachStep(st: Statement, s0: Beam, b: Beam, t: Beam)
    requires Valid(st) && InBounds(st, b.x, b.y)
    requires Reachable(st, s0, b) && t in Next(st, b)
    ensures Reachable(st, s0, t)
  {
    var p :| IsPath(st, p) && p[0] == s0 && p[|p| - 1] == b;
    var q := Extend(st, p, t);
    assert IsPath(st, q) && q[0] == s0 && q[|q| - 1] == t;
  }

  /** A path followed by a beam its last state pushes. */
  function Extend(st: Statement, p: seq<Beam>, t: Beam): (q: seq<Beam>)
    requires Valid(st) && IsPath(st, p) && t in Next(st, p[|p| - 1])
    ensures IsPath(st, q) && q[0] == p[0] && q[|q| - 1] == t
  {
    assert (p + [t])[..|p|] == p;
    p + [t]
  }

  /** A set that holds s0 and every beam its members push. */
  ghost predicate ClosedFrom(st: Statement, s0: Beam, s: set<Beam>)
    requires Valid(st)
  {
    s0 in s &&
    (forall b :: b in s ==> InBounds(st, b.x, b.y)) &&
    forall b {:trigger Next(st, b)} :: b in s && InBounds(st, b.x, b.y) ==>
      forall i :: 0 <= i < |Next(st, b)| ==> Next(st, b)[i] in s
  }

  lemma {:induction false} PathInside(st: Statement, s0: Beam, s: set<Beam>, p: seq<Beam>)
    requires Valid(st) && ClosedFrom(st, s0, s) && IsPath(st, p) && p[0] == s0
    ensures p[|p| - 1] in s
    decreases |p|
  {
    if |p| > 1 {
      var q := p[..|p| - 1];
      PathInside(st, s0, s, q);
      assert q[|q| - 1] == p[|p| - 2];
      var next := Next(st, p[|p| - 2]);
      var i :| 0 <= i < |next| && next[i] == p[|p| - 1];
    }
  }

  /** Such a set holds every reachable beam state. */
  lemma ClosedHoldsReachable(st: Statement, s0: Beam, s: set<Beam>, t: Beam)
    requires Valid(st) && ClosedFrom(st, s0, s) && Reachable(st, s0, t)
    ensures t in s
  {
    var p :| IsPath(st, p) && p[0] == s0 && p[|p| - 1] == t;
    PathInside(st, s0, s, p);
  }

  // ---------------------------------------------------------------------------
  // Counting beam states and cells

  function DirCode(d: Dir): int {
    match d case Up => 0 case Right => 1 case Down => 2 case Left => 3
  }

  /** The position of a beam state among the w * h * 4 of them. */
  function Code(st: Statement, b: Beam): int {
    (b.y * st.width + b.x) * 4 + DirCode(b.direction)
  }

  /** The cell index `y * width + x` of an on-grid cell is below width * height
      and tells its coordinates apart. */
  lemma CellIndex(st: Statement, x: int, y: int)
    requires InBounds(st, x, y)
    ensures 0 <= y * st.width + x < st.width * st.height
    ensures (y * st.width + x) % st.width == x && (y * st.width + x) / st.width == y
  {
    var w := st.width;
    var k := y * w + x;
    MulLess(y, st.height, w);
    assert y * w + w <= st.height * w;
    var q, r := k / w, k % w;
    assert k == q * w + r;
    if q < y {
      MulLess(q, y, w);
    } else if q > y {
      MulLess(y, q, w);
    }
  }

  lemma CellOf(st: Statement, i: int)
    requires 0 <= i < st.width * st.height
    ensures InBounds(st, i % st.width, i / st.width)
    ensures i == (i / st.width) * st.width + i % st.width
  {
    var w, h := st.width, st.height;
    var q := i / w;
    assert q * w <= i;
    assert (h - q) * w == h * w - q * w;
    PositiveFactor(h - q, w);
  }

  lemma CodeInjective(st: Statement, a: Beam, b: Beam)
    requires InBounds(st, a.x, a.y) && InBounds(st, b.x, b.y) && Code(st, a) == Code(st, b)
    ensures a == b
  {
    var ka, kb := a.y * st.width + a.x, b.y * st.width + b.x;
    assert ka == kb;
    CellIndex(st, a.x, a.y);
    CellIndex(st, b.x, b.y);
  }

  /** The number of beam states on the grid. */
  function States(st: Statement): nat {
    4 * st.width * st.height
  }

  lemma CodeRange(st: Statement, b: Beam)
    requires InBounds(st, b.x, b.y)
    ensures 0 <= Code(st, b) < 4 * st.width * st.height
  {
    CellIndex(st, b.x, b.y);
  }

  function Codes(st: Statement, s: set<Beam>): set<int> {
    set b | b in s :: Code(st, b)
  }

  lemma {:induction false} CodesCard(st: Statement, s: set<Beam>)
    requires forall b :: b in s ==> InBounds(st, b.x, b.y)
    ensures |Codes(st, s)| == |s|
  {
    if s != {} {
      var b :| b in s;
      var rest := s - {b};
      CodesCard(st, rest);
      forall a | a in rest
        ensures Code(st, a) != Code(st, b)
      {
        if Code(st, a) == Code(st, b) {
          CodeInjective(st, a, b);
        }
      }
      assert Codes(st, s) == Codes(st, rest) + {Code(st, b)};
    }
  }

  lemma {:induction false} RangeCard(t: set<int>, n: nat)
    requires forall i :: i in t ==> 0 <= i < n
    ensures |t| <= n
  {
    if n > 0 {
      RangeCard(t - {n - 1}, n - 1);
    } else {
      assert forall i :: i !in t;
    }
  }

  /** At most width * height * 4 distinct on-grid beam states exist. */
  lemma StatesBound(st: Statement, s: set<Beam>)
    requires forall b :: b in s ==> InBounds(st, b.x, b.y)
    ensures |s| <= States(st)
  {
    CodesCard(st, s);
    forall i | i in Codes(st, s)
      ensures 0 <= i < 4 * st.width * st.height
    {
      var b :| b in s && Code(st, b) == i;
      CodeRange(st, b);
    }
    RangeCard(Codes(st, s), 4 * st.width * st.height);
  }

  function CountTrue(e: seq<bool>): (n: nat)
    ensures n <= |e|
  {
    if e == [] then 0 else CountTrue(e[..|e| - 1]) + (if e[|e| - 1] then 1 else 0)
  }

  /** Cell i (row i / width, column i % width) is energized: some beam
      state on it is reachable from s0. */
  ghost predicate Energized(st: Statement, s0: Beam, i: int)
    requires Valid(st) && st.width > 0
  {
    Reached(st, s0, i % st.width, i / st.width)
  }

  lemma ReachedOf(st: Statement, s0: Beam, b: Beam)
    requires Valid(st) && Reachable(st, s0, b)
    ensures Reached(st, s0, b.x, b.y)
  {
    match b.direction
    case Up => assert b == Beam(b.x, b.y, Up);
    case Right => assert b == Beam(b.x, b.y, Right);
    case Down => assert b == Beam(b.x, b.y, Down);
    case Left => assert b == Beam(b.x, b.y, Left);
  }

  /** Some beam state on cell (x, y) is reachable from s0. */
  ghost predicate Reached(st: Statement, s0: Beam, x: int, y: int)
    requires Valid(st)
  {
    Reachable(st, s0, Beam(x, y, Up)) || Reachable(st, s0, Beam(x, y, Right)) ||
    Reachable(st, s0, Beam(x, y, Down)) || Reachable(st, s0, Beam(x, y, Left))
  }

  /** The number of energized cells among the first n. */
  ghost function EnergyUpTo(st: Statement, s0: Beam, n: nat): (r: nat)
    requires Valid(st) && st.width > 0
    ensures r <= n
  {
    if n == 0 then 0 else EnergyUpTo(st, s0, n - 1) + if Energized(st, s0, n - 1) then 1 else 0
  }

  /** The number of energized cells. */
  ghost function Energy(st: Statement, s0: Beam): nat
    requires Valid(st)
  {
    if st.width == 0 then 0 else EnergyUpTo(st, s0, st.width * st.height)
  }

  lemma {:induction false} EnergyUpToPositive(st: Statement, s0: Beam, n: nat, i: nat)
    requires Valid(st) && st.width > 0 && i < n && Energized(st, s0, i)
    ensures EnergyUpTo(st, s0, n) >= 1
  {
    if i < n - 1 {
      EnergyUpToPositive(st, s0, n - 1, i);
    }
  }

  /** The entry cell is energized and no more cells than the grid has. */
  lemma EnergyBounds(st: Statement, s0: Beam)
    requires Valid(st) && InBounds(st, s0.x, s0.y)
    ensures 1 <= Energy(st, s0) <= st.width * st.height
  {
    ReachStart(st, s0);
    var i := s0.y * st.width + s0.x;
    CellIndex(st, s0.x, s0.y);
    ReachedOf(st, s0, s0);
    EnergyUpToPositive(st, s0, st.width * st.height, i);
  }

  /** Counting the flags counts the energized cells they stand for. */
  lemma {:induction false} CountFlags(st: Statement, s0: Beam, e: seq<bool>, n: nat)
    requires Valid(st) && st.width > 0 && n <= |e|
    requires forall i :: 0 <= i < |e| ==> e[i] == Energized(st, s0, i)
    ensures CountTrue(e[..n]) == EnergyUpTo(st, s0, n)
  {
    if n > 0 {
      CountFlags(st, s0, e, n - 1);
      assert e[..n][..n - 1] == e[..n - 1];
      assert e[..n][n - 1] == Energized(st, s0, n - 1);
    }
  }

  // ---------------------------------------------------------------------------
  // The state of `send_beam`

  /** Every cell flag says whether a state on that cell was expanded. */
  ghost predicate Lights(st: Statement, e: seq<bool>, visited: set<Beam>) {
    st.width > 0 && |e| == st.width * st.height &&
    forall i :: 0 <= i < |e| ==> (e[i] <==> Seen(visited, i % st.width, i / st.width))
  }

  lemma SeenOf(visited: set<Beam>, b: Beam)
    requires b in visited
    ensures Seen(visited, b.x, b.y)
  {
    match b.direction
    case Up => assert b == Beam(b.x, b.y, Up);
    case Right => assert b == Beam(b.x, b.y, Right);
    case Down => assert b == Beam(b.x, b.y, Down);
    case Left => assert b == Beam(b.x, b.y, Left);
  }

  /** A state on cell (x, y), in any direction, is in the set. */
  predicate Seen(visited: set<Beam>, x: int, y: int) {
    Beam(x, y, Up) in visited || Beam(x, y, Right) in visited || Beam(x, y, Down) in visited || Beam(x, y, Left) in visited
  }

  lemma LightsAdd(st: Statement, e: seq<bool>, visited: set<Beam>, b: Beam, k: int)
    requires Lights(st, e, visited) && InBounds(st, b.x, b.y) && k == b.y * st.width + b.x
    ensures 0 <= k < |e|
    ensures Lights(st, e[k := true], visited + {b})
  {
    var w := st.width;
    CellIndex(st, b.x, b.y);
    var e' := e[k := true];
    forall i | 0 <= i < |e|
      ensures e'[i] <==> Seen(visited + {b}, i % w, i / w)
    {
      var x, y := i % w, i / w;
      if i != k {
        CellOf(st, i);
        assert (x, y) != (b.x, b.y);
        assert Seen(visited + {b}, x, y) == Seen(visited, x, y);
      } else {
        SeenOf(visited + {b}, b);
      }
    }
  }

  /** The stack and the expanded set hold only on-grid states reachable
      from s0, and s0 is in one of them. */
  ghost predicate Sound(st: Statement, s0: Beam, visited: set<Beam>, heap: seq<Beam>)
    requires Valid(st)
  {
    (s0 in visited || s0 in heap) &&
    (forall b :: b in visited ==> InBounds(st, b.x, b.y) && Reachable(st, s0, b)) &&
    (forall b :: b in heap ==> InBounds(st, b.x, b.y) && Reachable(st, s0, b))
  }

  /** Every beam an expanded state pushes is expanded or still stacked. */
  ghost predicate Pending(st: Statement, visited: set<Beam>, heap: seq<Beam>)
    requires Valid(st)
  {
    forall b {:trigger Next(st, b)} :: b in visited && InBounds(st, b.x, b.y) ==>
      forall i :: 0 <= i < |Next(st, b)| ==> Next(st, b)[i] in visited || Next(st, b)[i] in heap
  }

  /** Popping a state that was already expanded. */
  lemma PopSeen(st: Statement, s0: Beam, visited: set<Beam>, heap: seq<Beam>)
    requires Valid(st) && heap != [] && heap[|heap| - 1] in visited
    requires Sound(st, s0, visited, heap) && Pending(st, visited, heap)
    ensures Sound(st, s0, visited, heap[..|heap| - 1]) && Pending(st, visited, heap[..|heap| - 1])
  {
    PopMembers(heap);
  }

  lemma Unpush(heap: seq<Beam>)
    requires heap != []
    ensures heap == heap[..|heap| - 1] + [heap[|heap| - 1]]
  {
  }

  lemma AddNew(visited: set<Beam>, b: Beam)
    requires b !in visited
    ensures |visited + {b}| == |visited| + 1
  {
  }

  /** A stack's members are those below its top and the top itself. */
  lemma PopMembers(heap: seq<Beam>)
    requires heap != []
    ensures forall t :: t in heap <==> t in heap[..|heap| - 1] || t == heap[|heap| - 1]
  {
    assert heap == heap[..|heap| - 1] + [heap[|heap| - 1]];
  }

  /** Popping a new state and pushing its beams keeps only reachable states
      around. */
  lemma PopNewSound(st: Statement, s0: Beam, visited: set<Beam>, rest: seq<Beam>, s: Beam)
    requires Valid(st) && Sound(st, s0, visited, rest + [s])
    ensures InBounds(st, s.x, s.y)
    ensures Sound(st, s0, visited + {s}, rest + Next(st, s))
  {
    assert s in rest + [s];
    PushedReachable(st, s0, s);
  }

  /** The beams a reachable on-grid state pushes are on the grid and
      reachable. */
  lemma PushedReachable(st: Statement, s0: Beam, s: Beam)
    requires Valid(st) && InBounds(st, s.x, s.y) && Reachable(st, s0, s)
    ensures forall b :: b in Next(st, s) ==> InBounds(st, b.x, b.y) && Reachable(st, s0, b)
  {
    forall b | b in Next(st, s)
      ensures InBounds(st, b.x, b.y) && Reachable(st, s0, b)
    {
      ReachStep(st, s0, s, b);
    }
  }

  /** Popping a new state and pushing its beams leaves every beam pushed by
      an expanded state expanded or stacked. */
  lemma PopNewPending(st: Statement, visited: set<Beam>, rest: seq<Beam>, s: Beam)
    requires Valid(st) && InBounds(st, s.x, s.y) && Pending(st, visited, rest + [s])
    ensures Pending(st, visited + {s}, rest + Next(st, s))
  {
    forall b | b in visited + {s} && InBounds(st, b.x, b.y)
      ensures forall i :: 0 <= i < |Next(st, b)| ==> Next(st, b)[i] in visited + {s} || Next(st, b)[i] in rest + Next(st, s)
    {
      if b != s {
        assert forall i :: 0 <= i < |Next(st, b)| ==> Next(st, b)[i] in visited || Next(st, b)[i] in rest + [s];
      }
    }
  }

  // ---------------------------------------------------------------------------
  // The solver

  class Solver {
    const statement: Statement
    var heap: seq<Beam>

    constructor(st: Statement)
      requires Valid(st)
      ensures statement == st && heap == []
    {
      statement := st;
      heap := [];
    }

    /** `add_to_heap`: push the beam if it is on the grid. */
    method AddToHeap(x: int, y: int, direction: Dir)
      modifies this
      ensures heap == old(heap) + Pass(statement, Beam(x, y, direction))
    {
      if x >= 0 && x < statement.width && y >= 0 && y < statement.height {
        heap := heap + [Beam(x, y, direction)];
      }
    }

    /** `move_beam`: push the beams a beam at (x, y) goes on as. */
    method MoveBeam(x: int, y: int, direction: Dir)
      requires Valid(statement) && InBounds(statement, x, y)
      modifies this
      ensures heap == old(heap) + Next(statement, Beam(x, y, direction))
    {
      var st := statement;
      var c := st.mirrorMap[y][x];
      match c {
        case Empty =>
          match direction {
            case Up => AddToHeap(x, y - 1, direction);
            case Right => AddToHeap(x + 1, y, direction);
            case Down => AddToHeap(x, y + 1, direction);
            case Left => AddToHeap(x - 1, y, direction);
          }
        case MirrorUp =>
          match direction {
            case Up => AddToHeap(x + 1, y, Right);
            case Right => AddToHeap(x, y - 1, Up);
            case Down => AddToHeap(x - 1, y, Left);
            case Left => AddToHeap(x, y + 1, Down);
          }
        case MirrorDown =>
          match direction {
            case Up => AddToHeap(x - 1, y, Left);
            case Right => AddToHeap(x, y + 1, Down);
            case Down => AddToHeap(x + 1, y, Right);
            case Left => AddToHeap(x, y - 1, Up);
          }
        case SplitterHorizontal =>
          match direction {
            case Right => AddToHeap(x + 1, y, Right);
            case Left => AddToHeap(x - 1, y, Left);
            case _ =>
              AddToHeap(x - 1, y, Left);
              AddToHeap(x + 1, y, Right);
          }
        case SplitterVertical =>
          match direction {
            case Up => AddToHeap(x, y - 1, Up);
            case Down => AddToHeap(x, y + 1, Down);
            case _ =>
              AddToHeap(x, y + 1, Down);
              AddToHeap(x, y - 1, Up);
          }
      }
    }

    /** `send_beam`: the number of cells energized by a beam entering at
        `initial`; no beam state is expanded twice, so at most
        width * height * 4 are. */
    method SendBeam(initial: Beam) returns (count: nat, ghost expansions: nat)
      requires Valid(statement) && InBounds(statement, initial.x, initial.y)
      modifies this
      ensures count == Energy(statement, initial)
      ensures expansions <= States(statement)
      ensures heap == []
    {
      var st := statement;
      heap := [];
      var energized := new bool[st.width * st.height](_ => false);
      heap := heap + [initial];
      var alreadyVisited: set<Beam> := {};
      ReachStart(st, initial);
      expansions := 0;
      while heap != []
        invariant energized.Length == st.width * st.height
        invariant Sound(st, initial, alreadyVisited, heap) && Pending(st, alreadyVisited, heap)
        invariant Lights(st, energized[..], alreadyVisited)
        invariant expansions <= |alreadyVisited| <= States(st)
        decreases States(st) - |alreadyVisited|, |heap|
      {
        var state := heap[|heap| - 1];
        if state !in alreadyVisited {
          alreadyVisited := Expand(initial, alreadyVisited, energized);
          expansions := expansions + 1;
        } else {
          PopSeen(st, initial, alreadyVisited, heap);
          heap := heap[..|heap| - 1];
        }
      }
      count := CountTrue(energized[..]);
      Finished(st, initial, energized[..], alreadyVisited);
    }

    /** The body of `send_beam`'s loop for a state not yet expanded: pop
        it, mark it expanded, light its cell and push its beams. */
    method Expand(ghost initial: Beam, visited: set<Beam>, energized: array<bool>) returns (visited': set<Beam>)
      requires Valid(statement) && heap != [] && heap[|heap| - 1] !in visited
      requires Sound(statement, initial, visited, heap) && Pending(statement, visited, heap)
      requires Lights(statement, energized[..], visited)
      modifies this, energized
      ensures visited' == visited + {old(heap)[|old(heap)| - 1]}
      ensures Sound(statement, initial, visited', heap) && Pending(statement, visited', heap)
      ensures Lights(statement, energized[..], visited')
      ensures |visited| < |visited'| <= States(statement)
    {
      var st := statement;
      var state := heap[|heap| - 1];
      ghost var rest := heap[..|heap| - 1];
      Unpush(heap);
      PopNewSound(st, initial, visited, rest, state);
      PopNewPending(st, visited, rest, state);
      var k := state.y * st.width + state.x;
      LightsAdd(st, energized[..], visited, state, k);
      ghost var pushed := rest + Next(st, state);
      ghost var lit := energized[..][k := true];
      assert Lights(st, lit, visited + {state});
      heap := heap[..|heap| - 1];
      visited' := visited + {state};
      AddNew(visited, state);
      StatesBound(st, visited');
      energized[k] := true;
      assert energized[..] == lit;
      assert Beam(state.x, state.y, state.direction) == state;
      MoveBeam(state.x, state.y, state.direction);
      assert heap == pushed && energized[..] == lit;
      assert Lights(st, energized[..], visited');
    }

    /** `solve_part_1`: the beam enters at the top-left corner heading right. */
    method SolvePart1() returns (energized: nat)
      requires Valid(statement) && statement.width >= 1 && statement.height >= 1
      modifies this
      ensures energized == Energy(statement, Beam(0, 0, Right))
    {
      ghost var expansions;
      energized, expansions := SendBeam(Beam(0, 0, Right));
    }

    /** `solve_part_2`: the most energizing entry from any edge cell, going
        inwards; at least the part-1 count. */
    method SolvePart2() returns (energizedMax: nat)
      requires Valid(statement) && statement.width >= 1 && statement.height >= 1
      modifies this
      ensures forall b :: IsEdgeStart(statement, b) ==> Energy(statement, b) <= energizedMax
      ensures exists b :: IsEdgeStart(statement, b) && Energy(statement, b) == energizedMax
      ensures Energy(statement, Beam(0, 0, Right)) <= energizedMax
    {
      var st := statement;
      var w, h := st.width, st.height;
      energizedMax := 0;
      ghost var best := Beam(0, 0, Down);
      for x := 0 to w
        invariant statement == st
        invariant forall b :: ColumnStart(st, b, x) ==> Energy(st, b) <= energizedMax
        invariant IsEdgeStart(st, best) && (x > 0 ==> Energy(st, best) == energizedMax)
        invariant x == 0 ==> energizedMax == 0
      {
        energizedMax, best := Consider(Beam(x, 0, Down), energizedMax, best);
        energizedMax, best := Consider(Beam(x, h - 1, Up), energizedMax, best);
        forall b | ColumnStart(st, b, x + 1)
          ensures Energy(st, b) <= energizedMax
        {
          ColumnStep(st, b, x);
        }
      }
      for y := 0 to h
        invariant statement == st
        invariant forall b :: ColumnStart(st, b, w) ==> Energy(st, b) <= energizedMax
        invariant forall b :: RowStart(st, b, y) ==> Energy(st, b) <= energizedMax
        invariant IsEdgeStart(st, best) && Energy(st, best) == energizedMax
      {
        energizedMax, best := Consider(Beam(0, y, Right), energizedMax, best);
        energizedMax, best := Consider(Beam(w - 1, y, Left), energizedMax, best);
        forall b | RowStart(st, b, y + 1)
          ensures Energy(st, b) <= energizedMax
        {
          RowStep(st, b, y);
        }
      }
      assert RowStart(st, Beam(0, 0, Right), h);
    }

    /** One entry of `solve_part_2`: send the beam and keep the maximum. */
    method Consider(b: Beam, m: nat, ghost best: Beam) returns (m': nat, ghost best': Beam)
      requires Valid(statement) && IsEdgeStart(statement, b) && IsEdgeStart(statement, best)
      modifies this
      ensures m' == Max(m, Energy(statement, b))
      ensures IsEdgeStart(statement, best')
      ensures Energy(statement, best') == m' || (best' == best && m' == m)
      ensures m' >= 1 && m' >= m
    {
      EnergyBounds(statement, b);
      var energized;
      ghost var expansions;
      energized, expansions := SendBeam(b);
      best' := if energized > m then b else best;
      m' := Max(m, energized);
    }
  }

  function Max(a: nat, b: nat): nat {
    if a >= b then a else b
  }

  /** An entry of part 2: from an edge cell, heading into the grid. */
  predicate IsEdgeStart(st: Statement, b: Beam) {
    InBounds(st, b.x, b.y) &&
    match b.direction
    case Down => b.y == 0
    case Up => b.y == st.height - 1
    case Right => b.x == 0
    case Left => b.x == st.width - 1
  }

  /** The entries down from the top row and up from the bottom row, in the
      first n columns. */
  predicate ColumnStart(st: Statement, b: Beam, n: int) {
    IsEdgeStart(st, b) && !Horizontal(b.direction) && b.x < n
  }

  /** The entries right from the left column and left from the right column,
      in the first n rows. */
  predicate RowStart(st: Statement, b: Beam, n: int) {
    IsEdgeStart(st, b) && Horizontal(b.direction) && b.y < n
  }

  lemma ColumnStep(st: Statement, b: Beam, x: int)
    requires ColumnStart(st, b, x + 1)
    ensures ColumnStart(st, b, x) || b == Beam(x, 0, Down) || b == Beam(x, st.height - 1, Up)
  {
  }

  lemma RowStep(st: Statement, b: Beam, y: int)
    requires RowStart(st, b, y + 1)
    ensures RowStart(st, b, y) || b == Beam(0, y, Right) || b == Beam(st.width - 1, y, Left)
  {
  }

  /** When the stack is empty, the lit cells count the energy. */
  lemma Finished(st: Statement, s0: Beam, e: seq<bool>, visited: set<Beam>)
    requires Valid(st) && Sound(st, s0, visited, []) && Pending(st, visited, [])
    requires Lights(st, e, visited)
    ensures CountTrue(e) == Energy(st, s0)
  {
    Expanded(st, s0, e, visited);
    CountFlags(st, s0, e, |e|);
    assert e[..|e|] == e;
  }

  /** When the stack is empty, the expanded states are exactly the reachable
      ones, so the cell flags are the energized cells. */
  lemma Expanded(st: Statement, s0: Beam, e: seq<bool>, visited: set<Beam>)
    requires Valid(st) && Sound(st, s0, visited, []) && Pending(st, visited, [])
    requires Lights(st, e, visited)
    ensures forall i :: 0 <= i < |e| ==> e[i] == Energized(st, s0, i)
  {
    assert ClosedFrom(st, s0, visited);
    forall i | 0 <= i < |e|
      ensures e[i] == Energized(st, s0, i)
    {
      SeenReachable(st, s0, visited, i % st.width, i / st.width);
    }
  }

  /** In a closed set of reachable states, a cell is seen exactly when some
      state on it is reachable. */
  lemma SeenReachable(st: Statement, s0: Beam, visited: set<Beam>, x: int, y: int)
    requires Valid(st) && ClosedFrom(st, s0, visited)
    requires forall b :: b in visited ==> Reachable(st, s0, b)
    ensures Seen(visited, x, y) == Reached(st, s0, x, y)
  {
    VisitedReachable(st, s0, visited, Beam(x, y, Up));
    VisitedReachable(st, s0, visited, Beam(x, y, Right));
    VisitedReachable(st, s0, visited, Beam(x, y, Down));
    VisitedReachable(st, s0, visited, Beam(x, y, Left));
  }

  lemma VisitedReachable(st: Statement, s0: Beam, visited: set<Beam>, b: Beam)
    requires Valid(st) && ClosedFrom(st, s0, visited)
    requires forall b :: b in visited ==> Reachable(st, s0, b)
    ensures b in visited <==> Reachable(st, s0, b)
  {
    if Reachable(st, s0, b) {
      ClosedHoldsReachable(st, s0, visited, b);
    }
  }

}
