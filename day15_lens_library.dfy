/** Day 15 ("Lens Library"): the HASH of a string, and the initialisation
    sequence that places lenses into 256 boxes: `label=N` puts a lens of
    focal length N into box HASH(label), replacing a lens with that label,
    and `label-` takes it out. The focusing power adds up, for every lens,
    its box number times its slot number times its focal length. */
module LensLibrary {

  datatype Option<T> = None | Some(value: T)

  // ---------------------------------------------------------------------------
  // HASH

  /** HASH: for each character, add its code, multiply by 17 and keep the
      low eight bits. */
  function Hash(s: string): (v: nat)
    ensures v < 256
  {
    if s == [] then 0 else ((Hash(s[..|s| - 1]) + s[|s| - 1] as int) * 17) % 256
  }

  lemma HashEmpty()
    ensures Hash("") == 0
  {
  }

  lemma HashAppend(s: string, c: char)
    ensures Hash(s + [c]) == ((Hash(s) + c as int) * 17) % 256
  {
    assert (s + [c])[..|s|] == s;
  }

  /** `hash`. */
  method HashOf(s: string) returns (v: nat)
    ensures v == Hash(s)
  {
    v := 0;
    for i := 0 to |s|
      invariant v == Hash(s[..i])
    {
      assert s[..i + 1][..i] == s[..i];
      v := v + s[i] as int;
      v := v * 17;
      v := v % 256;
    }
    assert s[..|s|] == s;
  }

  function SumHashes(sequence: seq<string>): nat {
    if sequence == [] then 0 else SumHashes(sequence[..|sequence| - 1]) + Hash(sequence[|sequence| - 1])
  }

  /** Each step adds less than 256. */
  lemma {:induction false} SumHashesBound(sequence: seq<string>)
    ensures SumHashes(sequence) <= 255 * |sequence|
  {
    if sequence != [] {
      SumHashesBound(sequence[..|sequence| - 1]);
    }
  }

  /** `solve_part_1`: the sum of the steps' hashes. */
  method SolvePart1(sequence: seq<string>) returns (sum: nat)
    ensures sum == SumHashes(sequence)
  {
    sum := 0;
    for i := 0 to |sequence|
      invariant sum == SumHashes(sequence[..i])
    {
      assert sequence[..i + 1][..i] == sequence[..i];
      var h := HashOf(sequence[i]);
      sum := sum + h;
    }
    assert sequence[..|sequence|] == sequence;
  }

  // ---------------------------------------------------------------------------
  // Steps

  datatype Lens = Lens(name: string, focal: nat)

  type Box = seq<Lens>

  datatype Op = Assign(name: string, focal: nat) | Dash(name: string)

  /** A step the source can read: it is ASCII, so that its byte length
      (`len`) is its number of characters (`chars().nth`) and every slice
      falls on a character boundary; it has a last character; and `label=N`
      has two, with N no smaller than '0', so the `u8` subtraction does not
      underflow. */
  predicate WellFormed(op: string) {
    (forall i :: 0 <= i < |op| ==> op[i] as int < 128) &&
    |op| >= 1 &&
    (op[|op| - 1] != '-' ==> |op| >= 2 && op[|op| - 1] >= '0')
  }

  /** A step holding a character outside ASCII is refused: "\U{e9}=1" has
      four bytes but three characters, so the source's `nth(3)` finds none. */
  lemma NonAsciiRefused()
    ensures !WellFormed("\U{e9}=1")
  {
    assert "\U{e9}=1"[0] as int >= 128;
  }

  /** A step ending in '-' removes the label before it; any other names the
      label before its last two characters and the focal length its last
      digit. */
  function Parse(op: string): (o: Op)
    requires WellFormed(op)
    ensures o.Dash? <==> op[|op| - 1] == '-'
    ensures o.Dash? ==> o.name == op[..|op| - 1]
    ensures o.Assign? ==> o.name == op[..|op| - 2] && o.focal == op[|op| - 1] as int - '0' as int
  {
    if op[|op| - 1] != '-' then Assign(op[..|op| - 2], op[|op| - 1] as int - '0' as int)
    else Dash(op[..|op| - 1])
  }

  /** The slot holding `label` (`position`). */
  function Position(b: Box, name: string): (r: Option<nat>)
    ensures r.Some? ==> r.value < |b| && b[r.value].name == name && forall j :: 0 <= j < r.value ==> b[j].name != name
    ensures r.None? ==> forall j :: 0 <= j < |b| ==> b[j].name != name
  {
    if b == [] then None
    else if b[0].name == name then Some(0)
    else match Position(b[1..], name)
      case None => None
      case Some(p) => Some(p + 1)
  }

  /** `label=N` on its box: replace the lens in place, or append it. */
  function Put(b: Box, name: string, focal: nat): Box {
    match Position(b, name)
    case Some(p) => b[p := Lens(name, focal)]
    case None => b + [Lens(name, focal)]
  }

  /** `label-` on its box: remove the lens, or leave the box. */
  function Take(b: Box, name: string): Box {
    match Position(b, name)
    case Some(p) => b[..p] + b[p + 1..]
    case None => b
  }

  function Apply(boxes: seq<Box>, op: Op): (r: seq<Box>)
    requires |boxes| == 256
    ensures |r| == 256
  {
    match op
    case Assign(name, focal) => boxes[Hash(name) := Put(boxes[Hash(name)], name, focal)]
    case Dash(name) => boxes[Hash(name) := Take(boxes[Hash(name)], name)]
  }

  function Run(boxes: seq<Box>, sequence: seq<string>): (r: seq<Box>)
    requires |boxes| == 256
    requires forall i :: 0 <= i < |sequence| ==> WellFormed(sequence[i])
    ensures |r| == 256
  {
    if sequence == [] then boxes
    else Apply(Run(boxes, sequence[..|sequence| - 1]), Parse(sequence[|sequence| - 1]))
  }

  function Labels(b: Box): seq<string> {
    seq(|b|, i requires 0 <= i < |b| => b[i].name)
  }

  /** A label already in the box gets the new focal length in its slot; the
      other lenses keep their slots. A new label goes at the end. */
  lemma PutMeaning(b: Box, name: string, focal: nat)
    ensures name in Labels(b) ==>
      |Put(b, name, focal)| == |b| && Labels(Put(b, name, focal)) == Labels(b) &&
      forall i :: 0 <= i < |b| ==> Put(b, name, focal)[i] == if b[i].name == name && name !in Labels(b[..i]) then Lens(name, focal) else b[i]
    ensures name !in Labels(b) ==> Put(b, name, focal) == b + [Lens(name, focal)]
  {
    var r := Position(b, name);
    if r.Some? {
      assert b[r.value].name == name;
      assert Labels(b)[r.value] == name;
      forall i | 0 <= i < |b|
        ensures (b[i].name == name && name !in Labels(b[..i])) <==> i == r.value
      {
        if i > r.value {
          assert Labels(b[..i])[r.value] == name;
        }
        if i < r.value {
          assert forall j :: 0 <= j < i ==> Labels(b[..i])[j] == b[j].name;
        }
      }
    } else {
      assert forall j :: 0 <= j < |b| ==> Labels(b)[j] != name;
    }
  }

  /** Removing a lens keeps the others in their order; a missing label
      changes nothing. */
  lemma TakeMeaning(b: Box, name: string)
    ensures name !in Labels(b) ==> Take(b, name) == b
    ensures name in Labels(b) ==>
      exists p :: 0 <= p < |b| && b[p].name == name && name !in Labels(b[..p]) && Take(b, name) == b[..p] + b[p + 1..]
  {
    var r := Position(b, name);
    if r.None? {
      assert forall j :: 0 <= j < |b| ==> Labels(b)[j] != name;
    } else {
      assert Labels(b)[r.value] == name;
    }
  }

  /** A step touches only box HASH(label). */
  lemma ApplyTouchesOneBox(boxes: seq<Box>, op: Op, k: nat)
    requires |boxes| == 256 && k < 256 && k != Hash(op.name)
    ensures Apply(boxes, op)[k] == boxes[k]
  {
  }

  // ---------------------------------------------------------------------------
  // The invariant of the boxes

  /** Every lens sits in the box its label hashes to, and no box holds a
      label twice. */
  predicate Placed(boxes: seq<Box>) {
    |boxes| == 256 &&
    (forall k, i :: 0 <= k < 256 && 0 <= i < |boxes[k]| ==> Hash(boxes[k][i].name) == k) &&
    (forall k, i, j :: 0 <= k < 256 && 0 <= i < j < |boxes[k]| ==> boxes[k][i].name != boxes[k][j].name)
  }

  lemma PutPlaced(b: Box, name: string, focal: nat, k: nat)
    requires Hash(name) == k
    requires forall i :: 0 <= i < |b| ==> Hash(b[i].name) == k
    requires forall i, j :: 0 <= i < j < |b| ==> b[i].name != b[j].name
    ensures forall i :: 0 <= i < |Put(b, name, focal)| ==> Hash(Put(b, name, focal)[i].name) == k
    ensures forall i, j :: 0 <= i < j < |Put(b, name, focal)| ==> Put(b, name, focal)[i].name != Put(b, name, focal)[j].name
  {
  }

  lemma TakePlaced(b: Box, name: string, k: nat)
    requires forall i :: 0 <= i < |b| ==> Hash(b[i].name) == k
    requires forall i, j :: 0 <= i < j < |b| ==> b[i].name != b[j].name
    ensures forall i :: 0 <= i < |Take(b, name)| ==> Hash(Take(b, name)[i].name) == k
    ensures forall i, j :: 0 <= i < j < |Take(b, name)| ==> Take(b, name)[i].name != Take(b, name)[j].name
    ensures forall i :: 0 <= i < |Take(b, name)| ==> Take(b, name)[i].name != name
  {
    var r := Position(b, name);
    if r.Some? {
      var p := r.value;
      var t := b[..p] + b[p + 1..];
      assert forall i :: 0 <= i < |t| ==> t[i] == if i < p then b[i] else b[i + 1];
    }
  }

  /** Every step keeps each label at most once, in the box it hashes to;
      after `label-` the label is gone. */
  lemma ApplyPlaced(boxes: seq<Box>, op: Op)
    requires Placed(boxes)
    ensures Placed(Apply(boxes, op))
    ensures op.Dash? ==> forall k, i :: 0 <= k < 256 && 0 <= i < |Apply(boxes, op)[k]| ==> Apply(boxes, op)[k][i].name != op.name
  {
    var h := Hash(op.name);
    if op.Assign? {
      PutPlaced(boxes[h], op.name, op.focal, h);
    } else {
      TakePlaced(boxes[h], op.name, h);
    }
  }

  lemma {:induction false} RunPlaced(boxes: seq<Box>, sequence: seq<string>)
    requires Placed(boxes)
    requires forall i :: 0 <= i < |sequence| ==> WellFormed(sequence[i])
    ensures Placed(Run(boxes, sequence))
  {
    if sequence != [] {
      RunPlaced(boxes, sequence[..|sequence| - 1]);
      ApplyPlaced(Run(boxes, sequence[..|sequence| - 1]), Parse(sequence[|sequence| - 1]));
    }
  }

  // ---------------------------------------------------------------------------
  // Focusing power

  /** The power of the first `n` lenses of box k. */
  function BoxPower(b: Box, k: nat, n: nat): nat
    requires n <= |b|
  {
    if n == 0 then 0 else BoxPower(b, k, n - 1) + LensPower(k, n, b[n - 1].focal)
  }

  /** The power of one lens: box number times slot number times focal length. */
  function LensPower(k: nat, slot: nat, focal: nat): nat {
    (k + 1) * slot * focal
  }

  /** The power of the first `n` boxes. */
  function Power(boxes: seq<Box>, n: nat): nat
    requires n <= |boxes|
  {
    if n == 0 then 0 else Power(boxes, n - 1) + BoxPower(boxes[n - 1], n - 1, |boxes[n - 1]|)
  }

  /** The focusing power of all the boxes. */
  function TotalPower(boxes: seq<Box>): nat {
    Power(boxes, |boxes|)
  }

  /** Appending a lens leaves the share of the lenses before it. */
  lemma {:induction false} BoxPowerPrefix(b: Box, k: nat, lens: Lens, n: nat)
    requires n <= |b|
    ensures BoxPower(b + [lens], k, n) == BoxPower(b, k, n)
  {
    if n > 0 {
      BoxPowerPrefix(b, k, lens, n - 1);
      assert (b + [lens])[n - 1] == b[n - 1];
    }
  }

  /** A lens appended to box k adds (k + 1) times its slot times its focal
      length. */
  lemma BoxPowerAppend(b: Box, k: nat, lens: Lens)
    ensures BoxPower(b + [lens], k, |b| + 1) == BoxPower(b, k, |b|) + (k + 1) * (|b| + 1) * lens.focal
  {
    BoxPowerPrefix(b, k, lens, |b|);
  }

  /** Only the box a step touches changes the power. */
  lemma {:induction false} PowerOtherBoxes(boxes: seq<Box>, h: nat, b: Box, n: nat)
    requires n <= |boxes| && h < |boxes|
    ensures Power(boxes[h := b], n) + (if h < n then BoxPower(boxes[h], h, |boxes[h]|) else 0)
      == Power(boxes, n) + (if h < n then BoxPower(b, h, |b|) else 0)
  {
    if n > 0 {
      PowerOtherBoxes(boxes, h, b, n - 1);
    }
  }

  /** The power loops of `solve_part_2`. */
  method FocusingPower(boxes: array<Box>) returns (result: nat)
    ensures result == TotalPower(boxes[..])
  {
    result := 0;
    for boxId := 0 to boxes.Length
      invariant result == Power(boxes[..], boxId)
    {
      var p := BoxPowerOf(boxes[boxId], boxId);
      result := result + p;
    }
  }

  /** The inner `for lens_id` loop over one box. */
  method BoxPowerOf(bx: Box, boxId: nat) returns (p: nat)
    ensures p == BoxPower(bx, boxId, |bx|)
  {
    p := 0;
    for lensId := 0 to |bx|
      invariant p == BoxPower(bx, boxId, lensId)
    {
      p := p + LensPower(boxId, lensId + 1, bx[lensId].focal);
    }
  }

  /** One step of the initialisation sequence, on the boxes in place. */
  method Step(boxes: array<Box>, op: string)
    requires boxes.Length == 256 && WellFormed(op)
    modifies boxes
    ensures boxes[..] == Apply(old(boxes[..]), Parse(op))
  {
    if op[|op| - 1] != '-' {
      var name := op[..|op| - 2];
      var hash := HashOf(name);
      var n := op[|op| - 1] as int - '0' as int;
      var pos := Position(boxes[hash], name);
      if pos.Some? {
        boxes[hash] := boxes[hash][pos.value := Lens(name, n)];
      } else {
        boxes[hash] := boxes[hash] + [Lens(name, n)];
      }
    } else {
      var name := op[..|op| - 1];
      var hash := HashOf(name);
      var pos := Position(boxes[hash], name);
      if pos.Some? {
        boxes[hash] := boxes[hash][..pos.value] + boxes[hash][pos.value + 1..];
      }
    }
  }

  function EmptyBoxes(): seq<Box> {
    seq(256, _ => [])
  }

  /** The `for step in sequence` loop of `solve_part_2`, on the boxes in place. */
  method RunAll(boxes: array<Box>, sequence: seq<string>)
    requires boxes.Length == 256
    requires forall i :: 0 <= i < |sequence| ==> WellFormed(sequence[i])
    modifies boxes
    ensures boxes[..] == Run(old(boxes[..]), sequence)
  {
    ghost var start := boxes[..];
    for i := 0 to |sequence|
      invariant boxes[..] == Run(start, sequence[..i])
    {
      assert sequence[..i + 1][..i] == sequence[..i];
      Step(boxes, sequence[i]);
    }
    assert sequence[..|sequence|] == sequence;
  }

  /** `solve_part_2`: run the sequence on 256 empty boxes and take the
      focusing power; the boxes end with every label at most once, in the box
      it hashes to. */
  method SolvePart2(sequence: seq<string>) returns (result: nat)
    requires forall i :: 0 <= i < |sequence| ==> WellFormed(sequence[i])
    ensures result == TotalPower(Run(EmptyBoxes(), sequence))
    ensures Placed(Run(EmptyBoxes(), sequence))
  {
    var boxes := new Box[256](_ => []);
    assert boxes[..] == EmptyBoxes();
    RunAll(boxes, sequence);
    RunPlaced(EmptyBoxes(), sequence);
    result := FocusingPower(boxes);
  }
}
