/** Day 8 ("Haunted Wasteland"): a map of labelled nodes, each with a left and
    a right child, and a cyclic list of left/right instructions. Part 1 counts
    the steps from "AAA" until a label ending in 'Z' is reached; part 2 folds
    the least common multiple over the step counts from every label ending in
    'A'. */
module HauntedWasteland {

  import opened Common

  datatype Option<T> = None | Some(value: T)

  /** `Statement`: instructions are child indices, 0 for left and 1 for right;
      every node holds its two children. */
  datatype Statement = Statement(instructions: seq<nat>, nodes: map<string, (string, string)>)

  /** Every instruction indexes a child and every child is itself a node
      (the source indexes `nodes[..]` and `childs[..]`, which would panic). */
  predicate Valid(st: Statement) {
    && (forall i :: 0 <= i < |st.instructions| ==> st.instructions[i] < 2)
    && Closed(st.nodes)
  }

  /** Every node's children are nodes. This asks more than the walks need:
      the source only indexes the nodes a walk reaches, so an unreachable
      node with a missing child would not make it panic. */
  predicate Closed(nodes: map<string, (string, string)>) {
    forall l {:trigger Children(nodes, l)} :: l in nodes ==> Children(nodes, l).0 in nodes && Children(nodes, l).1 in nodes
  }

  /** `statement.nodes[&label].childs`. */
  function Children(nodes: map<string, (string, string)>, l: string): (string, string)
    requires l in nodes
  {
    nodes[l]
  }

  /** The instruction line read one character at a time: 'L' is 0, anything else 1. */
  function Encode(line: string): (r: seq<nat>)
    ensures |r| == |line|
  {
    seq(|line|, i requires 0 <= i < |line| => if line[i] == 'L' then 0 else 1)
  }

  /** Encoded instructions always index a child, and an instruction is the left
      child exactly where the line says 'L'. */
  lemma EncodeMeaning(line: string, nodes: map<string, (string, string)>)
    ensures forall i :: 0 <= i < |line| ==> Encode(line)[i] < 2
    ensures forall i :: 0 <= i < |line| ==> (Encode(line)[i] == 0 <==> line[i] == 'L')
    ensures Closed(nodes) ==> Valid(Statement(Encode(line), nodes))
  {
  }

  predicate EndsWith(name: string, c: char) {
    |name| > 0 && name[|name| - 1] == c
  }

  function Child(children: (string, string), i: nat): string {
    if i == 0 then children.0 else children.1
  }

  /** The node reached after `n` steps from `start`: step k follows instruction
      `k % len`. */
  function Walk(st: Statement, start: string, n: nat): (node: string)
    requires Valid(st) && start in st.nodes && |st.instructions| > 0
    ensures node in st.nodes
  {
    if n == 0 then start
    else
      var prev := Walk(st, start, n - 1);
      Child(Children(st.nodes, prev), st.instructions[(n - 1) % |st.instructions|])
  }

  /** `n` steps from `start` reach a Z label for the first time. */
  predicate FirstZ(st: Statement, start: string, n: nat)
    requires Valid(st) && start in st.nodes && |st.instructions| > 0
  {
    EndsWith(Walk(st, start, n), 'Z') && forall k :: 0 <= k < n ==> !EndsWith(Walk(st, start, k), 'Z')
  }

  /** Two step counts that both first reach a Z label are equal. */
  lemma FirstZUnique(st: Statement, start: string, n: nat, m: nat)
    requires Valid(st) && start in st.nodes && |st.instructions| > 0
    requires FirstZ(st, start, n) && FirstZ(st, start, m)
    ensures n == m
  {
  }

  lemma ModStep(k: nat, len: nat)
    requires len > 0
    ensures (k % len + 1) % len == (k + 1) % len
  {
    var q, r := k / len, k % len;
    if r + 1 < len {
      DivModUnique(k + 1, len, q, r + 1);
      DivModUnique(r + 1, len, 0, r + 1);
    } else {
      DivModUnique(k + 1, len, q + 1, 0);
      DivModUnique(r + 1, len, 1, 0);
    }
  }

  lemma MulDivMod(d: int, k: int)
    requires d > 0
    ensures (d * k) / d == k && (d * k) % d == 0
  {
    DivModUnique(d * k, d, k, 0);
  }

  /** `reach_z`, run for at most `fuel` steps: the source loops for as long as
      it takes, so `None` means no Z label within `fuel` steps. */
  method ReachZ(st: Statement, start: string, fuel: nat) returns (r: Option<nat>)
    requires Valid(st)
    requires EndsWith(start, 'Z') || (start in st.nodes && |st.instructions| > 0)
    ensures EndsWith(start, 'Z') ==> r == Some(0)
    ensures !EndsWith(start, 'Z') ==>
              match r
              case Some(n) => n <= fuel && FirstZ(st, start, n)
              case None => forall k :: 0 <= k <= fuel ==> !EndsWith(Walk(st, start, k), 'Z')
  {
    var current := start;
    var index := 0;
    var pathLength := 0;
    while !EndsWith(current, 'Z') && pathLength < fuel
      invariant pathLength <= fuel
      invariant EndsWith(start, 'Z') ==> pathLength == 0 && current == start
      invariant !EndsWith(start, 'Z') ==>
                  && current == Walk(st, start, pathLength)
                  && index == pathLength % |st.instructions|
                  && forall k :: 0 <= k < pathLength ==> !EndsWith(Walk(st, start, k), 'Z')
      decreases fuel - pathLength
    {
      current := Child(Children(st.nodes, current), st.instructions[index]);
      ModStep(pathLength, |st.instructions|);
      index := (index + 1) % |st.instructions|;
      pathLength := pathLength + 1;
    }
    if EndsWith(current, 'Z') {
      r := Some(pathLength);
    } else {
      r := None;
    }
  }

  /** `solve_part_1`: the walk from "AAA". */
  method SolvePart1(st: Statement, fuel: nat) returns (r: Option<nat>)
    requires Valid(st) && "AAA" in st.nodes && |st.instructions| > 0
    ensures r.Some? ==> r.value <= fuel && FirstZ(st, "AAA", r.value)
    ensures r.None? ==> forall k :: 0 <= k <= fuel ==> !EndsWith(Walk(st, "AAA", k), 'Z')
  {
    r := ReachZ(st, "AAA", fuel);
  }

  // ---------------------------------------------------------------------------
  // gcd and lcm

  predicate Divides(d: nat, n: nat) {
    d > 0 && n % d == 0
  }

  /** The greatest common divisor (the `gcd` crate computes the same number). */
  function Gcd(a: nat, b: nat): nat
    decreases b
  {
    if b == 0 then a else Gcd(b, a % b)
  }

  /** Coefficients x, y with a*x + b*y == Gcd(a, b) (Bezout). */
  function Bezout(a: nat, b: nat): (xy: (int, int))
    ensures a * xy.0 + b * xy.1 == Gcd(a, b)
    decreases b
  {
    if b == 0 then (1, 0)
    else
      var (x, y) := Bezout(b, a % b);
      var q := a / b;
      assert a % b == a - q * b;
      assert b * x + (a - q * b) * y == a * y + b * (x - q * y);
      (y, x - q * y)
  }

  lemma CommonDivisorOfMod(d: nat, a: nat, b: nat)
    requires Divides(d, a) && Divides(d, b) && b > 0
    ensures Divides(d, a % b)
  {
    var q := a / b;
    var x, y := a / d, b / d;
    assert a == x * d && b == y * d;
    assert a % b == d * (x - q * y);
    NonNegativeFactor(d, x - q * y);
    MulDivMod(d, x - q * y);
  }

  lemma NonNegativeFactor(d: int, z: int)
    requires d > 0 && d * z >= 0
    ensures z >= 0
  {
    if z < 0 {
      MulAtLeast(-z, d);
    }
  }

  /** The gcd of two numbers not both zero divides both, and every common
      divisor divides it. */
  lemma {:induction false} GcdIsGreatest(a: nat, b: nat)
    requires a > 0 || b > 0
    ensures Divides(Gcd(a, b), a) && Divides(Gcd(a, b), b)
    ensures forall d :: Divides(d, a) && Divides(d, b) ==> Divides(d, Gcd(a, b))
    decreases b
  {
    if b == 0 {
      MulDivMod(a, 1);
    } else {
      GcdIsGreatest(b, a % b);
      assert Gcd(a, b) == Gcd(b, a % b);
      DividesFromMod(Gcd(b, a % b), a, b);
      forall d | Divides(d, a) && Divides(d, b) ensures Divides(d, Gcd(a, b)) {
        CommonDivisorOfMod(d, a, b);
      }
    }
  }

  /** A common divisor of b and a % b divides a. */
  lemma DividesFromMod(g: nat, a: nat, b: nat)
    requires b > 0 && Divides(g, b) && Divides(g, a % b)
    ensures Divides(g, a)
  {
    assert a == (a / b) * b + a % b;
    DividesCombination(g, b, a % b, a / b);
  }

  lemma DividesCombination(g: nat, b: nat, r: nat, q: nat)
    requires Divides(g, b) && Divides(g, r)
    ensures Divides(g, q * b + r)
  {
    var y, z := b / g, r / g;
    assert b == y * g && r == z * g;
    assert q * b + r == g * (q * y + z);
    MulDivMod(g, q * y + z);
  }

  /** `lcm(first, second) = first * second / gcd(first, second)`. */
  function Lcm(a: nat, b: nat): nat
    requires a > 0 && b > 0
  {
    GcdIsGreatest(a, b);
    a * b / Gcd(a, b)
  }

  /** The lcm is a positive common multiple that divides every positive common
      multiple. */
  lemma LcmIsLeast(a: nat, b: nat, m: nat)
    requires a > 0 && b > 0
    ensures Lcm(a, b) > 0 && Divides(a, Lcm(a, b)) && Divides(b, Lcm(a, b))
    ensures Divides(a, m) && Divides(b, m) && m > 0 ==> Divides(Lcm(a, b), m)
  {
    GcdIsGreatest(a, b);
    var g := Gcd(a, b);
    var a1, b1 := a / g, b / g;
    assert a == a1 * g && b == b1 * g;
    NonNegativeFactor(g, a1);
    NonNegativeFactor(g, b1);
    assert a * b == g * (a1 * b);
    MulDivMod(g, a1 * b);
    assert Lcm(a, b) == a1 * b;
    assert a1 * b == a * b1;
    MulDivMod(b, a1);
    MulDivMod(a, b1);
    PositiveProduct(a1, b);
    if Divides(a, m) && Divides(b, m) && m > 0 {
      LcmDividesMultiple(a, b, m, g, a1);
    }
  }

  lemma PositiveProduct(x: int, y: int)
    requires x > 0 && y > 0
    ensures x * y > 0
  {
    MulAtLeast(x, y);
  }

  /** A common multiple m of a and b satisfies m*g == a*b*(t*x + s*y) for the
      Bezout coefficients x, y of g and m == a*s == b*t, so a*b/g divides it. */
  lemma LcmDividesMultiple(a: nat, b: nat, m: nat, g: nat, a1: nat)
    requires a > 0 && b > 0 && m > 0 && g == Gcd(a, b) && g > 0 && a == g * a1
    requires Divides(a, m) && Divides(b, m)
    ensures Divides(a1 * b, m)
  {
    var (x, y) := Bezout(a, b);
    var s, t := m / a, m / b;
    DivExact(m, a);
    DivExact(m, b);
    var k := t * x + s * y;
    var p := a * b;
    Distribute(m, a, b, x, y);
    Regroup(m, t, b, a);
    Regroup(m, s, a, b);
    Distribute(p, t, s, x, y);
    assert m * g == (m * a) * x + (m * b) * y;
    assert m * a == p * t && m * b == p * s;
    assert m * g == p * k;
    MulAssoc(g, a1, b);
    assert p == g * (a1 * b);
    assert m * g == g * ((a1 * b) * k) by {
      Regroup(p, g, a1 * b, k);
    }
    MulDivMod(g, m);
    MulDivMod(g, (a1 * b) * k);
    assert m == (a1 * b) * k;
    PositiveProduct(a1, b);
    NonNegativeFactor(a1 * b, k);
    MulDivMod(a1 * b, k);
  }

  lemma MulAssoc(x: int, y: int, z: int)
    ensures (x * y) * z == x * (y * z)
  {
  }

  lemma DivExact(m: nat, a: nat)
    requires Divides(a, m)
    ensures m == (m / a) * a
  {
  }

  lemma Distribute(m: int, u: int, v: int, x: int, y: int)
    ensures m * (u * x + v * y) == (m * u) * x + (m * v) * y
  {
  }

  lemma Regroup(m: int, t: int, b: int, a: int)
    requires m == t * b
    ensures m * a == (a * b) * t && m * a == t * (b * a)
  {
  }

  /** `all_path_length.iter().reduce(lcm)`: the lcm folded left to right. */
  function LcmFold(lengths: seq<nat>): (l: nat)
    requires |lengths| > 0 && forall i :: 0 <= i < |lengths| ==> lengths[i] > 0
    ensures l > 0
  {
    if |lengths| == 1 then lengths[0]
    else
      var init := LcmFold(lengths[..|lengths| - 1]);
      LcmIsLeast(init, lengths[|lengths| - 1], 1);
      Lcm(init, lengths[|lengths| - 1])
  }

  /** The fold is a multiple of every length, and divides every positive
      common multiple of them. */
  lemma {:induction false} LcmFoldIsLeast(lengths: seq<nat>, m: nat)
    requires |lengths| > 0 && forall i :: 0 <= i < |lengths| ==> lengths[i] > 0
    ensures forall i :: 0 <= i < |lengths| ==> Divides(lengths[i], LcmFold(lengths))
    ensures m > 0 && (forall i :: 0 <= i < |lengths| ==> Divides(lengths[i], m)) ==> Divides(LcmFold(lengths), m)
  {
    if |lengths| > 1 {
      var n := |lengths| - 1;
      var init := lengths[..n];
      LcmFoldIsLeast(init, m);
      var f := LcmFold(init);
      LcmIsLeast(f, lengths[n], m);
      forall i | 0 <= i < n ensures Divides(lengths[i], LcmFold(lengths)) {
        assert init[i] == lengths[i];
        DividesTrans(lengths[i], f, LcmFold(lengths));
      }
    }
  }

  lemma DividesTrans(a: nat, b: nat, c: nat)
    requires Divides(a, b) && Divides(b, c)
    ensures Divides(a, c)
  {
    var x, y := b / a, c / b;
    assert b == x * a && c == y * b;
    assert c == a * (x * y);
    MulDivMod(a, x * y);
  }

  // ---------------------------------------------------------------------------
  // Part 2

  /** `solve_part_2`: `starts` lists the labels ending in 'A', once each, in
      the map's iteration order (which the source leaves unspecified). The fold
      panics without such a label. `None` again means some walk exceeded `fuel`. */
  method SolvePart2(st: Statement, starts: seq<string>, fuel: nat) returns (r: Option<nat>)
    requires Valid(st) && |st.instructions| > 0
    requires forall l :: l in st.nodes && EndsWith(l, 'A') <==> l in starts
    requires |starts| > 0
    ensures r.Some? ==> exists lengths: seq<nat> ::
              && |lengths| == |starts|
              && (forall i :: 0 <= i < |starts| ==> lengths[i] > 0 && FirstZ(st, starts[i], lengths[i]))
              && r.value == LcmFold(lengths)
  {
    var lengths: seq<nat> := [];
    for i := 0 to |starts|
      invariant |lengths| == i
      invariant forall j :: 0 <= j < i ==> lengths[j] > 0 && FirstZ(st, starts[j], lengths[j])
    {
      assert starts[i] in st.nodes && EndsWith(starts[i], 'A');
      var n := ReachZ(st, starts[i], fuel);
      if n.None? {
        return None;
      }
      lengths := lengths + [n.value];
    }
    r := Some(LcmFold(lengths));
  }
}
