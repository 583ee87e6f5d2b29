/** Day 17 ("Clumsy Crucible"): the least heat lost by a crucible pushed from
    the top-left to the bottom-right cell of a grid, where every move is a whole
    straight run of `minStraight <= d < maxStraight` cells followed by a turn.

    The search is a Dijkstra over keys (x, y, direction of the last run). The
    cost table is an array updated in place, the binary heap is a multiset from
    which a state of least cost is popped, and a popped entry that is dearer
    than its table slot is skipped (lazy deletion). `FindMinHeat` is proved
    against walks: a returned cost is the cost of a walk to the goal and no
    walk to the goal is cheaper. */
module Crucible {

  import opened Common

  /** usize::MAX, the initial value of every cost-table slot. */
  const UsizeMax: nat := 0xFFFF_FFFF_FFFF_FFFF

  /** Offsets (dy, dx) of the four directions: right, down, left, up. */
  const DIRECTION: seq<(int, int)> := [(0, 1), (1, 0), (0, -1), (-1, 0)]

  /** The direction of the start state. It is neither a direction nor the
      opposite of one, so every first run is allowed. */
  const StartDirection: nat := 5

  datatype Option<T> = None | Some(value: T)

  /** The parsed grid of heat-loss digits. */
  datatype Statement = Statement(width: nat, height: nat, grid: seq<seq<nat>>)

  /** A heap element: the cost reached and the key it was reached at
      (the run length the source also stores is never read). */
  datatype State = State(cost: nat, x: nat, y: nat, direction: nat)

  /** What identifies a state in the cost table: the fields it is hashed on. */
  datatype Key = Key(x: nat, y: nat, direction: nat)

  /** One edge of the search graph: a straight run of `d` cells. */
  datatype Move = Move(direction: nat, d: int)

  predicate Valid(st: Statement) {
    && st.width >= 1 && st.height >= 1 && |st.grid| == st.height
    && forall y :: 0 <= y < st.height ==> |st.grid[y]| == st.width
  }

  predicate InGrid(st: Statement, x: int, y: int) {
    0 <= x < st.width && 0 <= y < st.height
  }

  predicate ValidKey(st: Statement, k: Key) {
    InGrid(st, k.x, k.y) && k.direction < 4
  }

  predicate AtGoal(st: Statement, k: Key) {
    k.x == st.width - 1 && k.y == st.height - 1
  }

  function KeyOf(s: State): Key {
    Key(s.x, s.y, s.direction)
  }

  const StartKey: Key := Key(0, 0, StartDirection)
  const StartState: State := State(0, 0, 0, StartDirection)

  /** The number of cells in the first `y` rows of a grid `w` cells wide, `y * w`. */
  function RowStart(w: nat, y: nat): nat {
    if y == 0 then 0 else RowStart(w, y - 1) + w
  }

  lemma {:induction false} RowStartIsProduct(w: nat, y: nat)
    ensures RowStart(w, y) == y * w
  {
    if y > 0 {
      RowStartIsProduct(w, y - 1);
      assert (y - 1) * w + w == y * w;
    }
  }

  /** Every cell of a row comes before every cell of a later row. */
  lemma {:induction false} RowStartMono(w: nat, y1: nat, y2: nat)
    requires y1 < y2
    ensures RowStart(w, y1) + w <= RowStart(w, y2)
    decreases y2
  {
    if y1 < y2 - 1 {
      RowStartMono(w, y1, y2 - 1);
    }
  }

  /** The length of the cost table, `w*h*4`. */
  function TableSize(st: Statement): nat {
    RowStart(st.width, st.height) * 4
  }

  /** The cost-table slot of a key, `y*w*4 + x*4 + direction`. */
  function Index(st: Statement, k: Key): (i: nat)
    ensures ValidKey(st, k) ==> i < TableSize(st)
    ensures ValidKey(st, k) && i < 4 ==> k.x == 0 && k.y == 0
  {
    if ValidKey(st, k) then
      RowStartMono(st.width, k.y, st.height);
      if k.y > 0 then RowStartMono(st.width, 0, k.y); Slot(st, k) else Slot(st, k)
    else Slot(st, k)
  }

  function Slot(st: Statement, k: Key): nat {
    (RowStart(st.width, k.y) + k.x) * 4 + k.direction
  }

  /** The slot of (x, y, dir) as the source computes it. */
  function SlotOf(st: Statement, x: nat, y: nat, dir: nat): (i: nat)
    ensures i == Index(st, Key(x, y, dir))
  {
    RowStartIsProduct(st.width, y);
    y * st.width * 4 + x * 4 + dir
  }

  /** Two distinct valid keys use distinct cost-table slots. */
  lemma IndexInjective(st: Statement, k1: Key, k2: Key)
    requires ValidKey(st, k1) && ValidKey(st, k2) && k1 != k2
    ensures Index(st, k1) != Index(st, k2)
  {
    if k1.y < k2.y {
      RowStartMono(st.width, k1.y, k2.y);
    } else if k2.y < k1.y {
      RowStartMono(st.width, k2.y, k1.y);
    }
  }

  lemma TableIsLarge(st: Statement)
    requires Valid(st)
    ensures TableSize(st) == st.width * st.height * 4
    ensures TableSize(st) >= 4
    ensures !(st.width == 1 && st.height == 1) ==> TableSize(st) >= 8
  {
    RowStartIsProduct(st.width, st.height);
    RowStartMono(st.width, 0, st.height);
    if st.height >= 2 {
      RowStartMono(st.width, 1, st.height);
    }
  }

  // ---------------------------------------------------------------------------
  // Runs and moves

  /** The (dy, dx) offset of the far end of a run of `d` cells in direction `dirNew`. */
  function Offset(dirNew: nat, d: int): (int, int)
    requires dirNew < 4
  {
    if dirNew == 0 then (0, d)
    else if dirNew == 1 then (d, 0)
    else if dirNew == 2 then (0, -d)
    else (-d, 0)
  }

  /** A run of `d` cells in direction `dirNew` moves by `DIRECTION[dirNew]` times `d`. */
  lemma OffsetIsDirection(dirNew: nat, d: int)
    requires dirNew < 4
    ensures Offset(dirNew, d) == (DIRECTION[dirNew].0 * d, DIRECTION[dirNew].1 * d)
  {
  }

  /** Every cell of a run whose two ends lie in the grid lies in the grid. */
  lemma RunInGrid(st: Statement, x: int, y: int, dirNew: nat, d: int)
    requires dirNew < 4
    requires InGrid(st, x, y) && InGrid(st, x + Offset(dirNew, d).1, y + Offset(dirNew, d).0)
    ensures forall i :: 0 <= i <= d ==> InGrid(st, x + Offset(dirNew, i).1, y + Offset(dirNew, i).0)
  {
  }

  /** The heat lost along a run: the cells 1..d away from (x, y), not the start cell. */
  function RunCost(st: Statement, x: nat, y: nat, dirNew: nat, d: int): nat
    requires Valid(st) && InGrid(st, x, y) && dirNew < 4
    requires d <= 0 || InGrid(st, x + Offset(dirNew, d).1, y + Offset(dirNew, d).0)
    decreases if d <= 0 then 0 else d
  {
    if d <= 0 then 0
    else
      RunInGrid(st, x, y, dirNew, d);
      var o := Offset(dirNew, d);
      RunCost(st, x, y, dirNew, d - 1) + st.grid[y + o.0][x + o.1]
  }

  /** The turn rule: a run may neither continue the last direction nor reverse it. */
  predicate MayTurn(direction: nat, dirNew: nat) {
    !(direction == dirNew || direction == (dirNew + 2) % 4)
  }

  /** The turn rule allows every first run, and after a run it allows exactly
      the two perpendicular directions. */
  lemma TurnRule(direction: nat, dirNew: nat)
    requires dirNew < 4
    ensures direction == StartDirection ==> MayTurn(direction, dirNew)
    ensures direction < 4 ==> (MayTurn(direction, dirNew) <==> dirNew % 2 != direction % 2)
  {
  }

  /** A move is legal from a key when it turns, has an allowed length and ends in the grid. */
  predicate Legal(st: Statement, minStraight: int, maxStraight: int, k: Key, m: Move) {
    && m.direction < 4
    && MayTurn(k.direction, m.direction)
    && minStraight <= m.d < maxStraight
    && InGrid(st, k.x + Offset(m.direction, m.d).1, k.y + Offset(m.direction, m.d).0)
  }

  function After(st: Statement, minStraight: int, maxStraight: int, k: Key, m: Move): (r: Key)
    requires Legal(st, minStraight, maxStraight, k, m)
    ensures ValidKey(st, r) && r.direction == m.direction
  {
    Key(k.x + Offset(m.direction, m.d).1, k.y + Offset(m.direction, m.d).0, m.direction)
  }

  function Weight(st: Statement, minStraight: int, maxStraight: int, k: Key, m: Move): nat
    requires Valid(st) && InGrid(st, k.x, k.y) && Legal(st, minStraight, maxStraight, k, m)
  {
    RunCost(st, k.x, k.y, m.direction, m.d)
  }

  /** The key reached and the heat lost by following `ms` from the start key,
      or None if some move is illegal. */
  ghost function Walk(st: Statement, minStraight: int, maxStraight: int, ms: seq<Move>): (r: Option<(Key, nat)>)
    requires Valid(st)
    ensures r.Some? ==> InGrid(st, r.value.0.x, r.value.0.y)
    ensures r.Some? && |ms| > 0 ==> ValidKey(st, r.value.0)
    ensures |ms| == 0 ==> r == Some((StartKey, 0))
    decreases |ms|
  {
    if |ms| == 0 then Some((StartKey, 0))
    else
      match Walk(st, minStraight, maxStraight, ms[..|ms| - 1])
      case None => None
      case Some(p) =>
        var m := ms[|ms| - 1];
        if Legal(st, minStraight, maxStraight, p.0, m) then
          Some((After(st, minStraight, maxStraight, p.0, m), p.1 + Weight(st, minStraight, maxStraight, p.0, m)))
        else None
  }

  /** Extending a walk by a legal move. */
  lemma WalkSnoc(st: Statement, minStraight: int, maxStraight: int, ms: seq<Move>, k: Key, c: nat, m: Move,
                  k': Key, c': nat)
    requires Valid(st) && Walk(st, minStraight, maxStraight, ms) == Some((k, c))
    requires Legal(st, minStraight, maxStraight, k, m)
    requires k' == After(st, minStraight, maxStraight, k, m) && c' == c + Weight(st, minStraight, maxStraight, k, m)
    ensures Walk(st, minStraight, maxStraight, ms + [m]) == Some((k', c'))
  {
    assert (ms + [m])[..|ms + [m]| - 1] == ms;
  }

  /** `ms` is a walk from the start to the bottom-right cell losing `c` heat. */
  ghost predicate ReachesGoal(st: Statement, minStraight: int, maxStraight: int, ms: seq<Move>, c: nat)
    requires Valid(st)
  {
    var r := Walk(st, minStraight, maxStraight, ms);
    r.Some? && AtGoal(st, r.value.0) && r.value.1 == c
  }

  /** On a one-cell grid the empty walk already reaches the goal. */
  lemma OneCell(st: Statement, minStraight: int, maxStraight: int)
    requires Valid(st)
    ensures ReachesGoal(st, minStraight, maxStraight, [], 0) <==> st.width == 1 && st.height == 1
  {
  }

  // ---------------------------------------------------------------------------
  // The search invariant

  /** The four keys (0, 0, dir) whose table slots are set to 0 at the start.
      They are never pushed; every move from them is also a move from the start key. */
  predicate IsFake(k: Key) {
    k.x == 0 && k.y == 0 && k.direction < 4
  }

  /** The best known cost of a key; the start key has no slot of its own. */
  ghost function Dv(st: Statement, D: seq<nat>, k: Key): nat
    requires k == StartKey || (ValidKey(st, k) && |D| == TableSize(st))
  {
    if k == StartKey then 0 else D[Index(st, k)]
  }

  ghost predicate TableOk(st: Statement, D: seq<nat>) {
    && |D| == TableSize(st)
    && (forall i :: 0 <= i < |D| ==> D[i] <= UsizeMax)
    && (forall i :: 0 <= i < 4 && i < |D| ==> D[i] == 0)
  }

  /** A move comes before the progress point (dn, dd) of an expansion. */
  predicate Before(m: Move, dn: int, dd: int) {
    m.direction < dn || (m.direction == dn && m.d < dd)
  }

  /** Every legal move from `k` before (dn, dd) has been relaxed with cost `c`. */
  ghost predicate RelaxedUpTo(st: Statement, minStraight: int, maxStraight: int, D: seq<nat>, k: Key, c: nat, dn: int, dd: int)
    requires Valid(st) && InGrid(st, k.x, k.y) && |D| == TableSize(st)
  {
    forall m :: Legal(st, minStraight, maxStraight, k, m) && Before(m, dn, dd) ==>
      D[Index(st, After(st, minStraight, maxStraight, k, m))] <= c + Weight(st, minStraight, maxStraight, k, m)
  }

  /** A heap entry is the end of a recorded walk of its cost and is no cheaper than its slot. */
  ghost predicate EntryOk(st: Statement, minStraight: int, maxStraight: int, D: seq<nat>,
                          wit: map<State, seq<Move>>, e: State)
    requires Valid(st) && |D| == TableSize(st)
  {
    && e in wit
    && Walk(st, minStraight, maxStraight, wit[e]) == Some((KeyOf(e), e.cost))
    && e.cost < UsizeMax
    && (if e.direction == StartDirection then e == StartState
        else ValidKey(st, KeyOf(e)) && D[Index(st, KeyOf(e))] <= e.cost)
  }

  ghost predicate HeapOk(st: Statement, minStraight: int, maxStraight: int, D: seq<nat>,
                         heap: multiset<State>, wit: map<State, seq<Move>>)
    requires Valid(st) && |D| == TableSize(st)
  {
    forall e :: e in heap ==> EntryOk(st, minStraight, maxStraight, D, wit, e)
  }

  /** The start state is pushed first and alone; it is expanded before anything else. */
  ghost predicate StartOk(heap: multiset<State>, done: set<Key>) {
    && (StartState in heap ==> heap == multiset{StartState} && done == {})
    && (StartKey in done || StartState in heap)
  }

  /** `s` is an entry of least cost, one that the binary heap may pop. */
  predicate IsMin(heap: multiset<State>, s: State) {
    s in heap && forall e {:trigger heap[e]} :: e in heap ==> s.cost <= e.cost
  }

  ghost predicate AboveLast(heap: multiset<State>, last: nat) {
    forall e {:trigger heap[e]} :: e in heap ==> last <= e.cost
  }

  /** Every reached key that is not expanded yet has its best cost in the heap. */
  ghost predicate Tracked(st: Statement, D: seq<nat>, heap: multiset<State>, done: set<Key>)
    requires |D| == TableSize(st)
  {
    forall k {:trigger Index(st, k)} :: ValidKey(st, k) && !IsFake(k) && k !in done && D[Index(st, k)] < UsizeMax ==>
      State(D[Index(st, k)], k.x, k.y, k.direction) in heap
  }

  ghost predicate DoneOk(st: Statement, minStraight: int, maxStraight: int, D: seq<nat>, last: nat,
                         k: Key, dn: int, dd: int)
    requires Valid(st) && |D| == TableSize(st)
  {
    && (k == StartKey || ValidKey(st, k))
    && !AtGoal(st, k)
    && Dv(st, D, k) <= last
    && RelaxedUpTo(st, minStraight, maxStraight, D, k, Dv(st, D, k), dn, dd)
  }

  /** Expanded keys: `cur` is being expanded up to (dn, dd), every other one fully. */
  ghost predicate DoneAll(st: Statement, minStraight: int, maxStraight: int, D: seq<nat>, done: set<Key>,
                          last: nat, cur: Key, dn: int, dd: int)
    requires Valid(st) && |D| == TableSize(st)
  {
    forall k :: k in done ==>
      if k == cur then DoneOk(st, minStraight, maxStraight, D, last, k, dn, dd)
      else DoneOk(st, minStraight, maxStraight, D, last, k, 4, 0)
  }

  ghost predicate Inv(st: Statement, minStraight: int, maxStraight: int, D: seq<nat>, heap: multiset<State>,
                      done: set<Key>, wit: map<State, seq<Move>>, last: nat, cur: Key, dn: int, dd: int)
    requires Valid(st)
  {
    && TableOk(st, D)
    && HeapOk(st, minStraight, maxStraight, D, heap, wit)
    && StartOk(heap, done)
    && AboveLast(heap, last)
    && Tracked(st, D, heap, done)
    && DoneAll(st, minStraight, maxStraight, D, done, last, cur, dn, dd)
  }

  /** The state of an expansion of `state`, with progress (dn, dd). */
  ghost predicate Expanding(st: Statement, minStraight: int, maxStraight: int, D: seq<nat>, heap: multiset<State>,
                            done: set<Key>, wit: map<State, seq<Move>>, last: nat, state: State, dn: int, dd: int)
    requires Valid(st)
  {
    && Inv(st, minStraight, maxStraight, D, heap, done, wit, last, KeyOf(state), dn, dd)
    && KeyOf(state) in done
    && (KeyOf(state) == StartKey || ValidKey(st, KeyOf(state)))
    && state.cost == Dv(st, D, KeyOf(state)) && state.cost == last
    && state in wit && Walk(st, minStraight, maxStraight, wit[state]) == Some((KeyOf(state), state.cost))
  }

  ghost predicate Settled(done: set<Key>, k: Key) {
    k in done || (IsFake(k) && StartKey in done)
  }

  // ---------------------------------------------------------------------------
  // Why the invariant gives the answer

  /** One step of the Dijkstra argument: a move from a settled key ends at a
      settled key no dearer than the move, at a key with a heap entry no
      dearer, or costs at least usize::MAX. */
  lemma StepBound(st: Statement, minStraight: int, maxStraight: int, D: seq<nat>, heap: multiset<State>,
                  done: set<Key>, last: nat, q: Key, qc: nat, m: Move)
    requires Valid(st) && |D| == TableSize(st)
    requires Tracked(st, D, heap, done) && DoneAll(st, minStraight, maxStraight, D, done, last, StartKey, 4, 0)
    requires StartKey in done
    requires (q == StartKey || ValidKey(st, q)) && Settled(done, q) && Dv(st, D, q) <= qc
    requires Legal(st, minStraight, maxStraight, q, m)
    ensures var k := After(st, minStraight, maxStraight, q, m);
            var c := qc + Weight(st, minStraight, maxStraight, q, m);
            || (Settled(done, k) && Dv(st, D, k) <= c)
            || (exists e :: e in heap && e.cost <= c)
            || UsizeMax <= c
  {
    var k := After(st, minStraight, maxStraight, q, m);
    var w := Weight(st, minStraight, maxStraight, q, m);
    assert Before(m, 4, 0);
    if q in done {
      assert DoneOk(st, minStraight, maxStraight, D, last, q, 4, 0);
      assert D[Index(st, k)] <= Dv(st, D, q) + w;
    } else {
      assert DoneOk(st, minStraight, maxStraight, D, last, StartKey, 4, 0);
      assert Legal(st, minStraight, maxStraight, StartKey, m);
      assert After(st, minStraight, maxStraight, StartKey, m) == k;
      assert Weight(st, minStraight, maxStraight, StartKey, m) == w;
      assert D[Index(st, k)] <= w;
    }
    if !Settled(done, k) && D[Index(st, k)] < UsizeMax {
      assert State(D[Index(st, k)], k.x, k.y, k.direction) in heap;
    }
  }

  /** Along any walk, the key reached is settled no dearer than the walk, or
      some heap entry is no dearer than the walk, or the walk costs at least
      usize::MAX. */
  lemma {:induction false} FrontierBound(st: Statement, minStraight: int, maxStraight: int, D: seq<nat>,
                                         heap: multiset<State>, done: set<Key>, last: nat, ms: seq<Move>)
    requires Valid(st) && |D| == TableSize(st)
    requires Tracked(st, D, heap, done) && DoneAll(st, minStraight, maxStraight, D, done, last, StartKey, 4, 0)
    requires StartKey in done
    requires Walk(st, minStraight, maxStraight, ms).Some?
    ensures var p := Walk(st, minStraight, maxStraight, ms).value;
            || ((p.0 == StartKey || ValidKey(st, p.0)) && Settled(done, p.0) && Dv(st, D, p.0) <= p.1)
            || (exists e :: e in heap && e.cost <= p.1)
            || UsizeMax <= p.1
    decreases |ms|
  {
    if |ms| > 0 {
      var pre := ms[..|ms| - 1];
      var m := ms[|ms| - 1];
      FrontierBound(st, minStraight, maxStraight, D, heap, done, last, pre);
      var q := Walk(st, minStraight, maxStraight, pre).value;
      if (q.0 == StartKey || ValidKey(st, q.0)) && Settled(done, q.0) && Dv(st, D, q.0) <= q.1 {
        StepBound(st, minStraight, maxStraight, D, heap, done, last, q.0, q.1, m);
      }
    }
  }

  /** A least-cost heap entry costs no more than any walk to the goal. */
  lemma GoalBound(st: Statement, minStraight: int, maxStraight: int, D: seq<nat>, heap: multiset<State>,
                  done: set<Key>, wit: map<State, seq<Move>>, last: nat, s: State, ms: seq<Move>, c: nat)
    requires Valid(st) && Inv(st, minStraight, maxStraight, D, heap, done, wit, last, StartKey, 4, 0)
    requires IsMin(heap, s)
    requires ReachesGoal(st, minStraight, maxStraight, ms, c)
    ensures s.cost <= c
  {
    assert EntryOk(st, minStraight, maxStraight, D, wit, s);
    if StartKey in done {
      FrontierBound(st, minStraight, maxStraight, D, heap, done, last, ms);
      assert forall k :: k in done ==> !AtGoal(st, k) by {
        forall k | k in done ensures !AtGoal(st, k) {
          assert DoneOk(st, minStraight, maxStraight, D, last, k, 4, 0);
        }
      }
    } else {
      assert heap == multiset{StartState};
    }
  }

  /** A least-cost heap entry at the goal: its walk reaches the goal, and no walk there costs less. */
  lemma GoalPopped(st: Statement, minStraight: int, maxStraight: int, D: seq<nat>, heap: multiset<State>,
                   done: set<Key>, wit: map<State, seq<Move>>, last: nat, s: State)
    requires Valid(st) && Inv(st, minStraight, maxStraight, D, heap, done, wit, last, StartKey, 4, 0)
    requires IsMin(heap, s) && s.x == st.width - 1 && s.y == st.height - 1
    ensures s in wit && ReachesGoal(st, minStraight, maxStraight, wit[s], s.cost)
    ensures forall ms, c :: ReachesGoal(st, minStraight, maxStraight, ms, c) ==> s.cost <= c
  {
    assert EntryOk(st, minStraight, maxStraight, D, wit, s);
    forall ms, c | ReachesGoal(st, minStraight, maxStraight, ms, c) ensures s.cost <= c {
      GoalBound(st, minStraight, maxStraight, D, heap, done, wit, last, s, ms, c);
    }
  }

  /** With the heap empty, every walk to the goal costs at least usize::MAX. */
  lemma EmptyBound(st: Statement, minStraight: int, maxStraight: int, D: seq<nat>,
                   done: set<Key>, wit: map<State, seq<Move>>, last: nat, ms: seq<Move>, c: nat)
    requires Valid(st) && Inv(st, minStraight, maxStraight, D, multiset{}, done, wit, last, StartKey, 4, 0)
    requires ReachesGoal(st, minStraight, maxStraight, ms, c)
    ensures UsizeMax <= c
  {
    FrontierBound(st, minStraight, maxStraight, D, multiset{}, done, last, ms);
    assert forall k :: k in done ==> !AtGoal(st, k) by {
      forall k | k in done ensures !AtGoal(st, k) {
        assert DoneOk(st, minStraight, maxStraight, D, last, k, 4, 0);
      }
    }
  }

  // ---------------------------------------------------------------------------
  // How the steps of the search keep the invariant

  /** The table just after the four `costs[i] = 0` writes, with the start pushed. */
  lemma InitInv(st: Statement, minStraight: int, maxStraight: int, D: seq<nat>)
    requires Valid(st) && |D| == TableSize(st)
    requires forall i :: 0 <= i < |D| ==> D[i] == if i < 4 then 0 else UsizeMax
    ensures Inv(st, minStraight, maxStraight, D, multiset{StartState}, {}, map[StartState := []], 0, StartKey, 4, 0)
  {
    assert EntryOk(st, minStraight, maxStraight, D, map[StartState := []], StartState);
    forall k {:trigger Index(st, k)} | ValidKey(st, k) && !IsFake(k) ensures D[Index(st, k)] == UsizeMax {
    }
  }

  lemma HasMin(heap: multiset<State>)
    requires heap != multiset{}
    ensures exists s :: IsMin(heap, s)
    decreases |heap|
  {
    var x :| x in heap;
    var rest := heap - multiset{x};
    assert forall e :: e in heap ==> e in rest || e == x;
    if rest != multiset{} {
      HasMin(rest);
      var s :| IsMin(rest, s);
      var least := if x.cost < s.cost then x else s;
      assert IsMin(heap, least);
    } else {
      assert IsMin(heap, x);
    }
  }

  lemma {:induction false} SumUpdate(s: seq<nat>, i: nat, v: nat)
    requires i < |s|
    ensures Sum(s[i := v]) + s[i] == Sum(s) + v
    decreases |s|
  {
    if i < |s| - 1 {
      assert s[i := v][..|s| - 1] == s[..|s| - 1][i := v];
      SumUpdate(s[..|s| - 1], i, v);
    } else {
      assert s[i := v][..|s| - 1] == s[..|s| - 1];
    }
  }

  /** Popping a stale entry (dearer than its slot) keeps the invariant. */
  lemma PopStale(st: Statement, minStraight: int, maxStraight: int, D: seq<nat>, heap: multiset<State>,
                 done: set<Key>, wit: map<State, seq<Move>>, last: nat, s: State)
    requires Valid(st) && Inv(st, minStraight, maxStraight, D, heap, done, wit, last, StartKey, 4, 0)
    requires s in heap && s.direction != StartDirection
    requires ValidKey(st, KeyOf(s)) && s.cost > D[Index(st, KeyOf(s))]
    ensures Inv(st, minStraight, maxStraight, D, heap - multiset{s}, done, wit, last, StartKey, 4, 0)
  {
    var heap' := heap - multiset{s};
    assert forall e :: e in heap' ==> e in heap;
    forall k {:trigger Index(st, k)} | ValidKey(st, k) && !IsFake(k) && k !in done && D[Index(st, k)] < UsizeMax
      ensures State(D[Index(st, k)], k.x, k.y, k.direction) in heap'
    {
      assert State(D[Index(st, k)], k.x, k.y, k.direction) in heap;
    }
    assert StartState != s;
  }

  /** Popping a least-cost entry that is neither at the goal nor stale starts its expansion. */
  lemma PopExpand(st: Statement, minStraight: int, maxStraight: int, D: seq<nat>, heap: multiset<State>,
                  done: set<Key>, wit: map<State, seq<Move>>, last: nat, s: State)
    requires Valid(st) && Inv(st, minStraight, maxStraight, D, heap, done, wit, last, StartKey, 4, 0)
    requires IsMin(heap, s)
    requires !AtGoal(st, KeyOf(s))
    requires s.direction == StartDirection || (ValidKey(st, KeyOf(s)) && s.cost <= D[Index(st, KeyOf(s))])
    ensures Expanding(st, minStraight, maxStraight, D, heap - multiset{s}, done + {KeyOf(s)}, wit, s.cost, s, 0, minStraight)
  {
    var k := KeyOf(s);
    var heap' := heap - multiset{s};
    var done' := done + {k};
    assert EntryOk(st, minStraight, maxStraight, D, wit, s);
    assert forall e :: e in heap' ==> e in heap;
    if StartState in heap {
      assert heap == multiset{StartState};
      assert heap' == multiset{};
    }
    forall k' {:trigger Index(st, k')} | ValidKey(st, k') && !IsFake(k') && k' !in done' && D[Index(st, k')] < UsizeMax
      ensures State(D[Index(st, k')], k'.x, k'.y, k'.direction) in heap'
    {
      assert State(D[Index(st, k')], k'.x, k'.y, k'.direction) in heap;
    }
    forall k' | k' in done'
      ensures if k' == k then DoneOk(st, minStraight, maxStraight, D, s.cost, k', 0, minStraight)
              else DoneOk(st, minStraight, maxStraight, D, s.cost, k', 4, 0)
    {
      if k' != k {
        assert DoneOk(st, minStraight, maxStraight, D, last, k', 4, 0);
      }
    }
  }

  /** A new progress point that covers no more legal moves keeps the invariant. */
  lemma Progress(st: Statement, minStraight: int, maxStraight: int, D: seq<nat>, heap: multiset<State>,
                 done: set<Key>, wit: map<State, seq<Move>>, last: nat, state: State, dn: int, dd: int, dn2: int, dd2: int)
    requires Valid(st) && Expanding(st, minStraight, maxStraight, D, heap, done, wit, last, state, dn, dd)
    requires forall m :: Legal(st, minStraight, maxStraight, KeyOf(state), m) && Before(m, dn2, dd2) ==> Before(m, dn, dd)
    ensures Expanding(st, minStraight, maxStraight, D, heap, done, wit, last, state, dn2, dd2)
  {
    var cur := KeyOf(state);
    assert DoneOk(st, minStraight, maxStraight, D, last, cur, dn, dd);
  }

  /** After all four directions, the expanded key is fully relaxed like every other. */
  lemma Finish(st: Statement, minStraight: int, maxStraight: int, D: seq<nat>, heap: multiset<State>,
               done: set<Key>, wit: map<State, seq<Move>>, last: nat, state: State)
    requires Valid(st) && Expanding(st, minStraight, maxStraight, D, heap, done, wit, last, state, 4, minStraight)
    ensures Inv(st, minStraight, maxStraight, D, heap, done, wit, last, StartKey, 4, 0)
  {
    Progress(st, minStraight, maxStraight, D, heap, done, wit, last, state, 4, minStraight, 4, 0);
    forall k | k in done ensures DoneOk(st, minStraight, maxStraight, D, last, k, 4, 0) {
    }
  }

  /** A relaxation that improves no slot moves the progress point by one run length. */
  lemma RelaxKeep(st: Statement, minStraight: int, maxStraight: int, D: seq<nat>, heap: multiset<State>,
                  done: set<Key>, wit: map<State, seq<Move>>, last: nat, state: State, dn: nat, dd: int)
    requires Valid(st) && Expanding(st, minStraight, maxStraight, D, heap, done, wit, last, state, dn, dd)
    requires dn < 4
    requires var m := Move(dn, dd);
             Legal(st, minStraight, maxStraight, KeyOf(state), m) ==>
               D[Index(st, After(st, minStraight, maxStraight, KeyOf(state), m))]
                 <= state.cost + Weight(st, minStraight, maxStraight, KeyOf(state), m)
    ensures Expanding(st, minStraight, maxStraight, D, heap, done, wit, last, state, dn, dd + 1)
  {
    var cur := KeyOf(state);
    assert DoneOk(st, minStraight, maxStraight, D, last, cur, dn, dd);
    assert forall m :: Before(m, dn, dd + 1) ==> Before(m, dn, dd) || m == Move(dn, dd);
  }

  /** Writing a strictly smaller cost into a slot leaves every other valid key's slot alone. */
  lemma SlotUpdate(st: Statement, D: seq<nat>, t: Key, c: nat)
    requires |D| == TableSize(st) && ValidKey(st, t) && c < D[Index(st, t)]
    ensures forall k {:trigger Index(st, k)} :: ValidKey(st, k) && k != t ==> D[Index(st, t) := c][Index(st, k)] == D[Index(st, k)]
    ensures forall i :: 0 <= i < |D| ==> D[Index(st, t) := c][i] <= D[i]
  {
    forall k {:trigger Index(st, k)} | ValidKey(st, k) && k != t ensures D[Index(st, t) := c][Index(st, k)] == D[Index(st, k)] {
      IndexInjective(st, k, t);
    }
  }

  lemma RelaxedMono(st: Statement, minStraight: int, maxStraight: int, D: seq<nat>, D': seq<nat>,
                    k: Key, c: nat, dn: int, dd: int)
    requires Valid(st) && InGrid(st, k.x, k.y) && |D| == TableSize(st) && |D'| == |D|
    requires forall i :: 0 <= i < |D| ==> D'[i] <= D[i]
    requires RelaxedUpTo(st, minStraight, maxStraight, D, k, c, dn, dd)
    ensures RelaxedUpTo(st, minStraight, maxStraight, D', k, c, dn, dd)
  {
  }

  lemma ImproveHeap(st: Statement, minStraight: int, maxStraight: int, D: seq<nat>, heap: multiset<State>,
                    wit: map<State, seq<Move>>, t: Key, c: nat, next: State, ms: seq<Move>)
    requires Valid(st) && |D| == TableSize(st)
    requires HeapOk(st, minStraight, maxStraight, D, heap, wit)
    requires ValidKey(st, t) && c < D[Index(st, t)] && c < UsizeMax && next == State(c, t.x, t.y, t.direction)
    requires Walk(st, minStraight, maxStraight, ms) == Some((t, c))
    ensures HeapOk(st, minStraight, maxStraight, D[Index(st, t) := c], heap + multiset{next}, wit[next := ms])
  {
    SlotUpdate(st, D, t, c);
    var D' := D[Index(st, t) := c];
    assert KeyOf(next) == t;
    forall e | e in heap + multiset{next} ensures EntryOk(st, minStraight, maxStraight, D', wit[next := ms], e) {
      if e != next {
        assert EntryOk(st, minStraight, maxStraight, D, wit, e);
      }
    }
  }

  lemma ImproveTracked(st: Statement, D: seq<nat>, heap: multiset<State>, done: set<Key>, t: Key, c: nat, next: State)
    requires |D| == TableSize(st) && ValidKey(st, t) && c < D[Index(st, t)] && next == State(c, t.x, t.y, t.direction)
    requires Tracked(st, D, heap, done)
    ensures Tracked(st, D[Index(st, t) := c], heap + multiset{next}, done)
  {
    SlotUpdate(st, D, t, c);
    var D' := D[Index(st, t) := c];
    forall k {:trigger Index(st, k)} | ValidKey(st, k) && !IsFake(k) && k !in done && D'[Index(st, k)] < UsizeMax
      ensures State(D'[Index(st, k)], k.x, k.y, k.direction) in heap + multiset{next}
    {
      if k != t {
        assert State(D[Index(st, k)], k.x, k.y, k.direction) in heap;
      }
    }
  }

  lemma ImproveDone(st: Statement, minStraight: int, maxStraight: int, D: seq<nat>, done: set<Key>,
                    last: nat, cur: Key, dn: nat, dd: int, t: Key, c: nat)
    requires Valid(st) && |D| == TableSize(st) && dn < 4
    requires DoneAll(st, minStraight, maxStraight, D, done, last, cur, dn, dd)
    requires cur in done && Legal(st, minStraight, maxStraight, cur, Move(dn, dd))
    requires (cur == StartKey || ValidKey(st, cur)) && t == After(st, minStraight, maxStraight, cur, Move(dn, dd))
    requires t !in done && c < D[Index(st, t)]
    requires c == Dv(st, D, cur) + Weight(st, minStraight, maxStraight, cur, Move(dn, dd))
    ensures DoneAll(st, minStraight, maxStraight, D[Index(st, t) := c], done, last, cur, dn, dd + 1)
  {
    var m := Move(dn, dd);
    SlotUpdate(st, D, t, c);
    var D' := D[Index(st, t) := c];
    forall k | k in done
      ensures if k == cur then DoneOk(st, minStraight, maxStraight, D', last, k, dn, dd + 1)
              else DoneOk(st, minStraight, maxStraight, D', last, k, 4, 0)
    {
      var dn', dd' := if k == cur then dn else 4, if k == cur then dd else 0;
      assert DoneOk(st, minStraight, maxStraight, D, last, k, dn', dd');
      assert Dv(st, D', k) == Dv(st, D, k);
      RelaxedMono(st, minStraight, maxStraight, D, D', k, Dv(st, D, k), dn', dd');
      if k == cur {
        assert forall m' :: Before(m', dn, dd + 1) ==> Before(m', dn, dd) || m' == m;
      }
    }
  }

  /** Recording a strictly smaller cost `c` for the end `t` of a run from the
      expanded key, and pushing that state, keeps the invariant and moves the
      progress point. */
  lemma RelaxImprove(st: Statement, minStraight: int, maxStraight: int, D: seq<nat>, heap: multiset<State>,
                     done: set<Key>, wit: map<State, seq<Move>>, last: nat, state: State, dn: nat, dd: int,
                     t: Key, c: nat, next: State)
    requires Valid(st) && Expanding(st, minStraight, maxStraight, D, heap, done, wit, last, state, dn, dd)
    requires dn < 4 && Legal(st, minStraight, maxStraight, KeyOf(state), Move(dn, dd))
    requires t == After(st, minStraight, maxStraight, KeyOf(state), Move(dn, dd))
    requires c == state.cost + Weight(st, minStraight, maxStraight, KeyOf(state), Move(dn, dd))
    requires next == State(c, t.x, t.y, t.direction) && c < D[Index(st, t)]
    ensures Index(st, t) >= 4
    ensures Expanding(st, minStraight, maxStraight, D[Index(st, t) := c], heap + multiset{next}, done,
                      wit[next := wit[state] + [Move(dn, dd)]], last, state, dn, dd + 1)
  {
    var cur := KeyOf(state);
    var m := Move(dn, dd);
    DoneBelowLast(st, minStraight, maxStraight, D, done, last, cur, dn, dd);
    WalkSnoc(st, minStraight, maxStraight, wit[state], cur, state.cost, m, t, c);
    ImproveHeap(st, minStraight, maxStraight, D, heap, wit, t, c, next, wit[state] + [m]);
    ImproveTracked(st, D, heap, done, t, c, next);
    ImproveDone(st, minStraight, maxStraight, D, done, last, cur, dn, dd, t, c);
    ImproveBounds(st, D, heap, done, last, t, c, next);
    if cur != StartKey {
      IndexInjective(st, cur, t);
    }
  }

  /** The table bounds, the start entry and the heap floor survive an improving push. */
  lemma ImproveBounds(st: Statement, D: seq<nat>, heap: multiset<State>, done: set<Key>, last: nat, t: Key, c: nat, next: State)
    requires TableOk(st, D) && StartOk(heap, done) && AboveLast(heap, last)
    requires ValidKey(st, t) && c < D[Index(st, t)] && next == State(c, t.x, t.y, t.direction)
    requires done != {} && last <= c
    ensures Index(st, t) >= 4
    ensures TableOk(st, D[Index(st, t) := c])
    ensures StartOk(heap + multiset{next}, done)
    ensures AboveLast(heap + multiset{next}, last)
  {
    assert next != StartState;
  }

  /** Every expanded key was reached no dearer than the last cost popped. */
  lemma DoneBelowLast(st: Statement, minStraight: int, maxStraight: int, D: seq<nat>, done: set<Key>,
                      last: nat, cur: Key, dn: int, dd: int)
    requires Valid(st) && |D| == TableSize(st)
    requires DoneAll(st, minStraight, maxStraight, D, done, last, cur, dn, dd)
    ensures forall k :: k in done ==> Dv(st, D, k) <= last
  {
    forall k | k in done ensures Dv(st, D, k) <= last {
      if k == cur {
        assert DoneOk(st, minStraight, maxStraight, D, last, k, dn, dd);
      } else {
        assert DoneOk(st, minStraight, maxStraight, D, last, k, 4, 0);
      }
    }
  }

  // ---------------------------------------------------------------------------
  // The search

  /** Exactly one of the two offsets of a direction is not zero. */
  lemma Axis(dirNew: nat)
    requires dirNew < 4
    ensures (DIRECTION[dirNew].0 != 0) <==> dirNew % 2 == 1
    ensures (DIRECTION[dirNew].1 != 0) <==> dirNew % 2 == 0
  {
  }

  /** The two cost loops: the heat lost on the run of `d` cells from `s` in direction `dirNew`. */
  method RunHeat(st: Statement, s: State, dirNew: nat, d: int) returns (costNew: nat)
    requires Valid(st) && InGrid(st, s.x, s.y) && dirNew < 4
    requires InGrid(st, s.x + Offset(dirNew, d).1, s.y + Offset(dirNew, d).0)
    ensures costNew == s.cost + RunCost(st, s.x, s.y, dirNew, d)
  {
    Axis(dirNew);
    costNew := s.cost;
    if DIRECTION[dirNew].0 != 0 {
      costNew := ColumnHeat(st, s.x, s.y, dirNew, d, costNew);
    }
    if DIRECTION[dirNew].1 != 0 {
      costNew := RowHeat(st, s.x, s.y, dirNew, d, costNew);
    }
  }

  /** The `dy` loop: a vertical run adds the heat of its cells to `cost`. */
  method ColumnHeat(st: Statement, x: nat, y: nat, dirNew: nat, d: int, cost: nat) returns (costNew: nat)
    requires Valid(st) && InGrid(st, x, y) && dirNew < 4 && dirNew % 2 == 1
    requires InGrid(st, x + Offset(dirNew, d).1, y + Offset(dirNew, d).0)
    ensures costNew == cost + RunCost(st, x, y, dirNew, d)
  {
    RunInGrid(st, x, y, dirNew, d);
    costNew := cost;
    var dy := 1;
    while dy <= d
      invariant 1 <= dy <= if d >= 1 then d + 1 else 1
      invariant costNew == cost + RunCost(st, x, y, dirNew, dy - 1)
    {
      OffsetIsDirection(dirNew, dy);
      costNew := costNew + st.grid[y + DIRECTION[dirNew].0 * dy][x];
      dy := dy + 1;
    }
  }

  /** The `dx` loop: a horizontal run adds the heat of its cells to `cost`. */
  method RowHeat(st: Statement, x: nat, y: nat, dirNew: nat, d: int, cost: nat) returns (costNew: nat)
    requires Valid(st) && InGrid(st, x, y) && dirNew < 4 && dirNew % 2 == 0
    requires InGrid(st, x + Offset(dirNew, d).1, y + Offset(dirNew, d).0)
    ensures costNew == cost + RunCost(st, x, y, dirNew, d)
  {
    RunInGrid(st, x, y, dirNew, d);
    costNew := cost;
    var dx := 1;
    while dx <= d
      invariant 1 <= dx <= if d >= 1 then d + 1 else 1
      invariant costNew == cost + RunCost(st, x, y, dirNew, dx - 1)
    {
      OffsetIsDirection(dirNew, dx);
      costNew := costNew + st.grid[y][x + DIRECTION[dirNew].1 * dx];
      dx := dx + 1;
    }
  }

  /** A strictly cheaper run: push its end state and record its cost. */
  method Push(st: Statement, minStraight: int, maxStraight: int, costs: array<nat>, heap: multiset<State>,
              ghost done: set<Key>, ghost wit: map<State, seq<Move>>, ghost last: nat, state: State,
              dirNew: nat, d: int, next: State, idx: nat)
    returns (heap': multiset<State>, ghost wit': map<State, seq<Move>>)
    requires Valid(st) && Expanding(st, minStraight, maxStraight, costs[..], heap, done, wit, last, state, dirNew, d)
    requires dirNew < 4 && Legal(st, minStraight, maxStraight, KeyOf(state), Move(dirNew, d))
    requires KeyOf(next) == After(st, minStraight, maxStraight, KeyOf(state), Move(dirNew, d))
    requires next.cost == state.cost + Weight(st, minStraight, maxStraight, KeyOf(state), Move(dirNew, d))
    requires idx == Index(st, KeyOf(next)) && next.cost < costs[idx]
    modifies costs
    ensures Expanding(st, minStraight, maxStraight, costs[..], heap', done, wit', last, state, dirNew, d + 1)
    ensures Sum(costs[..]) < Sum(old(costs[..]))
  {
    ghost var D := costs[..];
    RelaxImprove(st, minStraight, maxStraight, D, heap, done, wit, last, state, dirNew, d, KeyOf(next), next.cost, next);
    SumUpdate(D, idx, next.cost);
    heap' := heap + multiset{next};
    costs[idx] := next.cost;
    assert costs[..] == D[idx := next.cost];
    wit' := wit[next := wit[state] + [Move(dirNew, d)]];
  }

  /** One pass of the `d` loop: try the run of `d` cells in direction `dirNew`. */
  method Relax(st: Statement, minStraight: int, maxStraight: int, costs: array<nat>, heap: multiset<State>,
               ghost done: set<Key>, ghost wit: map<State, seq<Move>>, ghost last: nat, state: State, dirNew: nat, d: int)
    returns (heap': multiset<State>, ghost wit': map<State, seq<Move>>)
    requires Valid(st) && Expanding(st, minStraight, maxStraight, costs[..], heap, done, wit, last, state, dirNew, d)
    requires dirNew < 4 && MayTurn(state.direction, dirNew) && minStraight <= d < maxStraight
    modifies costs
    ensures Expanding(st, minStraight, maxStraight, costs[..], heap', done, wit', last, state, dirNew, d + 1)
    ensures Sum(costs[..]) < Sum(old(costs[..])) || (costs[..] == old(costs[..]) && heap' == heap)
  {
    heap', wit' := heap, wit;
    var cur := KeyOf(state);
    var m := Move(dirNew, d);
    var yNew := state.y + DIRECTION[dirNew].0 * d;
    var xNew := state.x + DIRECTION[dirNew].1 * d;
    OffsetIsDirection(dirNew, d);
    if xNew >= 0 && xNew < st.width && yNew >= 0 && yNew < st.height {
      assert Legal(st, minStraight, maxStraight, cur, m);
      var costNew := RunHeat(st, state, dirNew, d);
      var next := State(costNew, xNew, yNew, dirNew);
      var idx := SlotOf(st, xNew, yNew, dirNew);
      assert Key(xNew, yNew, dirNew) == After(st, minStraight, maxStraight, cur, m);
      if costNew < costs[idx] {
        heap', wit' := Push(st, minStraight, maxStraight, costs, heap, done, wit, last, state, dirNew, d, next, idx);
      } else {
        RelaxKeep(st, minStraight, maxStraight, costs[..], heap, done, wit, last, state, dirNew, d);
      }
    } else {
      RelaxKeep(st, minStraight, maxStraight, costs[..], heap, done, wit, last, state, dirNew, d);
    }
  }

  /** The `dir_new` and `d` loops: relax every run from the popped state. */
  method Expand(st: Statement, minStraight: int, maxStraight: int, costs: array<nat>, heap0: multiset<State>,
                ghost done: set<Key>, ghost wit0: map<State, seq<Move>>, ghost last: nat, state: State)
    returns (heap: multiset<State>, ghost wit: map<State, seq<Move>>)
    requires Valid(st) && Expanding(st, minStraight, maxStraight, costs[..], heap0, done, wit0, last, state, 0, minStraight)
    modifies costs
    ensures Expanding(st, minStraight, maxStraight, costs[..], heap, done, wit, last, state, 4, minStraight)
    ensures Sum(costs[..]) < Sum(old(costs[..])) || (costs[..] == old(costs[..]) && heap == heap0)
  {
    heap, wit := heap0, wit0;
    ghost var sum0 := Sum(costs[..]);
    for dirNew := 0 to 4
      invariant Expanding(st, minStraight, maxStraight, costs[..], heap, done, wit, last, state, dirNew, minStraight)
      invariant Sum(costs[..]) < sum0 || (costs[..] == old(costs[..]) && heap == heap0)
    {
      if state.direction == dirNew || state.direction == (dirNew + 2) % 4 {
        Progress(st, minStraight, maxStraight, costs[..], heap, done, wit, last, state, dirNew, minStraight, dirNew + 1, minStraight);
        continue;
      }
      var d := minStraight;
      while d < maxStraight
        invariant minStraight <= d
        invariant Expanding(st, minStraight, maxStraight, costs[..], heap, done, wit, last, state, dirNew, d)
        invariant Sum(costs[..]) < sum0 || (costs[..] == old(costs[..]) && heap == heap0)
      {
        heap, wit := Relax(st, minStraight, maxStraight, costs, heap, done, wit, last, state, dirNew, d);
        d := d + 1;
      }
      Progress(st, minStraight, maxStraight, costs[..], heap, done, wit, last, state, dirNew, d, dirNew + 1, minStraight);
    }
  }

  /** `find_min_heat` from the top-left cell with the sentinel direction:
      Some(c) exactly when the search reaches the bottom-right cell, and then c
      is the heat lost on some walk there and no walk there loses less. It
      returns None only when every walk to the goal loses at least usize::MAX. */
  method FindMinHeat(st: Statement, minStraight: int, maxStraight: int) returns (r: Option<nat>)
    requires Valid(st)
    ensures r.Some? ==> exists ms :: ReachesGoal(st, minStraight, maxStraight, ms, r.value)
    ensures r.Some? ==> forall ms, c :: ReachesGoal(st, minStraight, maxStraight, ms, c) ==> r.value <= c
    ensures r.None? ==> forall ms, c :: ReachesGoal(st, minStraight, maxStraight, ms, c) ==> UsizeMax <= c
  {
    TableIsLarge(st);
    var costs := new nat[st.width * st.height * 4](_ => UsizeMax);
    assert costs.Length == TableSize(st);
    var heap: multiset<State> := multiset{};

    costs[0] := 0;
    costs[1] := 0;
    costs[2] := 0;
    costs[3] := 0;
    heap := heap + multiset{StartState};
    ghost var done: set<Key> := {};
    ghost var wit: map<State, seq<Move>> := map[StartState := []];
    ghost var last: nat := 0;
    InitInv(st, minStraight, maxStraight, costs[..]);

    while heap != multiset{}
      invariant costs.Length == TableSize(st)
      invariant Inv(st, minStraight, maxStraight, costs[..], heap, done, wit, last, StartKey, 4, 0)
      decreases Sum(costs[..]), |heap|
    {
      ghost var sum0, size0 := Sum(costs[..]), |heap|;
      heap, done, wit, last, r := SearchStep(st, minStraight, maxStraight, costs, heap, done, wit, last);
      if r.Some? {
        return;
      }
      assert Sum(costs[..]) < sum0 || (Sum(costs[..]) == sum0 && |heap| < size0);
    }

    forall ms, c | ReachesGoal(st, minStraight, maxStraight, ms, c) ensures UsizeMax <= c {
      EmptyBound(st, minStraight, maxStraight, costs[..], done, wit, last, ms, c);
    }
    return None;
  }

  /** One turn of the `while let Some(state) = heap.pop()` loop: pop a least-cost
      state; at the goal return its cost, skip it when stale, otherwise expand it. */
  method SearchStep(st: Statement, minStraight: int, maxStraight: int, costs: array<nat>, heap0: multiset<State>,
                    ghost done0: set<Key>, ghost wit0: map<State, seq<Move>>, ghost last0: nat)
    returns (heap: multiset<State>, ghost done: set<Key>, ghost wit: map<State, seq<Move>>, ghost last: nat, r: Option<nat>)
    requires Valid(st) && costs.Length == TableSize(st) && heap0 != multiset{}
    requires Inv(st, minStraight, maxStraight, costs[..], heap0, done0, wit0, last0, StartKey, 4, 0)
    modifies costs
    ensures r.Some? ==> exists ms :: ReachesGoal(st, minStraight, maxStraight, ms, r.value)
    ensures r.Some? ==> forall ms, c :: ReachesGoal(st, minStraight, maxStraight, ms, c) ==> r.value <= c
    ensures r.None? ==> Inv(st, minStraight, maxStraight, costs[..], heap, done, wit, last, StartKey, 4, 0)
    ensures r.None? ==> Sum(costs[..]) < Sum(old(costs[..])) || (costs[..] == old(costs[..]) && |heap| < |heap0|)
  {
    done, wit, last := done0, wit0, last0;
    HasMin(heap0);
    var state :| IsMin(heap0, state);
    heap := heap0 - multiset{state};
    assert EntryOk(st, minStraight, maxStraight, costs[..], wit, state);

    if state.x == st.width - 1 && state.y == st.height - 1 {
      GoalPopped(st, minStraight, maxStraight, costs[..], heap0, done, wit, last, state);
      return heap, done, wit, last, Some(state.cost);
    }

    TableIsLarge(st);
    if state.cost > costs[SlotOf(st, state.x, state.y, state.direction)] {
      PopStale(st, minStraight, maxStraight, costs[..], heap0, done, wit, last, state);
      return heap, done, wit, last, None;
    }

    PopExpand(st, minStraight, maxStraight, costs[..], heap0, done, wit, last, state);
    done := done + {KeyOf(state)};
    last := state.cost;
    heap, wit := Expand(st, minStraight, maxStraight, costs, heap, done, wit, last, state);
    Finish(st, minStraight, maxStraight, costs[..], heap, done, wit, last, state);
    r := None;
  }

  /** Part 1: runs of 1 to 3 cells. */
  method SolvePart1(st: Statement) returns (r: Option<nat>)
    requires Valid(st)
    ensures r.Some? ==> exists ms :: ReachesGoal(st, 1, 4, ms, r.value)
    ensures r.Some? ==> forall ms, c :: ReachesGoal(st, 1, 4, ms, c) ==> r.value <= c
    ensures r.None? ==> forall ms, c :: ReachesGoal(st, 1, 4, ms, c) ==> UsizeMax <= c
  {
    r := FindMinHeat(st, 1, 4);
  }

  /** Part 2: runs of 4 to 10 cells. */
  method SolvePart2(st: Statement) returns (r: Option<nat>)
    requires Valid(st)
    ensures r.Some? ==> exists ms :: ReachesGoal(st, 4, 11, ms, r.value)
    ensures r.Some? ==> forall ms, c :: ReachesGoal(st, 4, 11, ms, c) ==> r.value <= c
    ensures r.None? ==> forall ms, c :: ReachesGoal(st, 4, 11, ms, c) ==> UsizeMax <= c
  {
    r := FindMinHeat(st, 4, 11);
  }
}
