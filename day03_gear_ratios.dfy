/** Day 3 ("Gear Ratios"): an engine schematic is a grid of characters. A part
    number is a horizontal run of digits next to a symbol (any character that
    is neither '.' nor a digit), and a gear is a '*' next to exactly two part
    numbers. Around a symbol the eight neighbours are visited row by row; a
    number found in a neighbour row ends the scan of that row once it reaches
    the symbol's column, so a number spanning that column is taken once.
    Characters are ASCII. */
module GearRatios {

  import opened Common

  type Grid = seq<seq<char>>

  /** Every row is as wide as the first one (`data[0].len()`), which the
      source indexes with. */
  predicate Rect(data: Grid) {
    forall r :: 0 <= r < |data| ==> |data[r]| == |data[0]|
  }

  predicate IsDigit(c: char) {
    '0' <= c <= '9'
  }

  predicate IsSymbol(c: char) {
    c != '.' && !IsDigit(c)
  }

  predicate AllDigits(s: seq<char>) {
    forall i :: 0 <= i < |s| ==> IsDigit(s[i])
  }

  /** The number a run of decimal digits spells. */
  function DecimalValue(s: seq<char>): nat
    requires AllDigits(s)
  {
    if s == [] then 0 else 10 * DecimalValue(s[..|s| - 1]) + (s[|s| - 1] - '0') as nat
  }

  // ---------------------------------------------------------------------------
  // extract_number

  /** Where the digit run through `i` starts: the first loop of `extract_number`.
      It is the start of the maximal run of digits containing `i`. */
  function RunStart(row: seq<char>, i: nat): (r: nat)
    requires i < |row| && IsDigit(row[i])
    ensures r <= i
    ensures forall j :: r <= j <= i ==> IsDigit(row[j])
    ensures r == 0 || !IsDigit(row[r - 1])
  {
    if i > 0 && IsDigit(row[i - 1]) then RunStart(row, i - 1) else i
  }

  /** Where the digit run through `i` ends: the second loop of `extract_number`.
      It is the end of the maximal run of digits containing `i`. */
  function RunEnd(row: seq<char>, i: nat): (r: nat)
    requires i < |row| && IsDigit(row[i])
    ensures i <= r < |row|
    ensures forall j :: i <= j <= r ==> IsDigit(row[j])
    ensures r == |row| - 1 || !IsDigit(row[r + 1])
    decreases |row| - i
  {
    if i < |row| - 1 && IsDigit(row[i + 1]) then RunEnd(row, i + 1) else i
  }

  /** The number through the digit at `i` and the column where it ends. */
  function NumberAt(row: seq<char>, i: nat): (p: (nat, nat))
    requires i < |row| && IsDigit(row[i])
  {
    var s, e := RunStart(row, i), RunEnd(row, i);
    var run := row[s..e + 1];
    assert AllDigits(run) by {
      forall j | 0 <= j < |run| ensures IsDigit(run[j]) {
        assert run[j] == row[s + j];
      }
    }
    (DecimalValue(run), e)
  }

  /** What `extract_number(data, x, y, dx, dy)` returns: nothing when the
      neighbour is off the grid or not a digit, otherwise the number through
      the neighbour and the column where it ends. */
  function Extract(data: Grid, x: nat, y: nat, dx: int, dy: int): (r: Option<(nat, nat)>)
    requires Rect(data) && |data| > 0
  {
    var nx, ny := x + dx, y + dy;
    if nx < 0 || nx >= |data[0]| || ny < 0 || ny >= |data| then None
    else if !IsDigit(data[ny][nx]) then None
    else Some(NumberAt(data[ny], nx))
  }

  datatype Option<T> = None | Some(value: T)

  method ExtractNumber(data: Grid, x: nat, y: nat, dx: int, dy: int) returns (r: Option<(nat, nat)>)
    requires Rect(data) && |data| > 0
    ensures r == Extract(data, x, y, dx, dy)
  {
    var xs, ys := x + dx, y + dy;
    if xs < 0 || xs >= |data[0]| || ys < 0 || ys >= |data| {
      return None;
    }
    var row := data[ys];
    if !IsDigit(row[xs]) {
      return None;
    }
    var start := ScanStart(row, xs);
    var end := ScanEnd(row, xs, |data[0]|);
    r := Some(NumberAt(row, xs));
    assert r.value == (DecimalValue(row[start..end + 1]), end);
  }

  /** The first loop of `extract_number`: walk left while digits follow. */
  method ScanStart(row: seq<char>, xs: nat) returns (start: nat)
    requires xs < |row| && IsDigit(row[xs])
    ensures start == RunStart(row, xs)
  {
    start := xs;
    while start > 0 && IsDigit(row[start - 1])
      invariant 0 <= start <= xs && IsDigit(row[start])
      invariant RunStart(row, start) == RunStart(row, xs)
    {
      start := start - 1;
    }
  }

  /** The second loop of `extract_number`: walk right while digits follow. */
  method ScanEnd(row: seq<char>, xs: nat, width: nat) returns (end: nat)
    requires xs < |row| == width && IsDigit(row[xs])
    ensures end == RunEnd(row, xs)
  {
    end := xs;
    while end < width - 1 && IsDigit(row[end + 1])
      invariant xs <= end < |row| && IsDigit(row[end])
      invariant RunEnd(row, end) == RunEnd(row, xs)
    {
      end := end + 1;
    }
  }

  /** A number is found exactly when the neighbour is on the grid and a digit;
      it is then the value of the maximal digit run containing the
      neighbour, together with the column where that run ends. */
  lemma ExtractMeans(data: Grid, x: nat, y: nat, dx: int, dy: int)
    requires Rect(data) && |data| > 0
    ensures Extract(data, x, y, dx, dy).Some? <==>
              0 <= x + dx < |data[0]| && 0 <= y + dy < |data| && IsDigit(data[y + dy][x + dx])
    ensures Extract(data, x, y, dx, dy).Some? ==>
              var row, nx, (v, xEnd) := data[y + dy], x + dx, Extract(data, x, y, dx, dy).value;
              var xStart := RunStart(row, nx);
              && xStart <= nx <= xEnd < |data[0]|
              && (forall j :: xStart <= j <= xEnd ==> IsDigit(row[j]))
              && (xStart == 0 || !IsDigit(row[xStart - 1]))
              && (xEnd == |data[0]| - 1 || !IsDigit(row[xEnd + 1]))
              && v == DecimalValue(row[xStart..xEnd + 1])
  {
  }

  // ---------------------------------------------------------------------------
  // The scan around one symbol

  /** The numbers found in neighbour row `dy` for `dx` from `k - 1` to 1, with the
      early `break` once a number reaches column `x`. Each entry is (value, x_end). */
  function RowScan(data: Grid, x: nat, y: nat, dy: int, k: nat): seq<(nat, nat)>
    requires Rect(data) && |data| > 0
    decreases 3 - k
  {
    if k >= 3 then []
    else if k - 1 == 0 && dy == 0 then RowScan(data, x, y, dy, k + 1)
    else match Extract(data, x, y, k - 1, dy)
      case None => RowScan(data, x, y, dy, k + 1)
      case Some(p) => [p] + if p.1 >= |data[0]| || p.1 >= x then [] else RowScan(data, x, y, dy, k + 1)
  }

  /** The numbers found around (x, y) in the first `n` neighbour rows (dy = -1, 0, 1). */
  function Around(data: Grid, x: nat, y: nat, n: nat): seq<(nat, nat)>
    requires Rect(data) && |data| > 0 && n <= 3
  {
    if n == 0 then [] else Around(data, x, y, n - 1) + RowScan(data, x, y, n - 2, 0)
  }

  function Values(found: seq<(nat, nat)>): (vs: seq<nat>)
    ensures |vs| == |found| && forall i :: 0 <= i < |found| ==> vs[i] == found[i].0
  {
    seq(|found|, i requires 0 <= i < |found| => found[i].0)
  }

  /** The two nested `for dy` / `for dx` loops around one cell. */
  method Scan(data: Grid, x: nat, y: nat) returns (found: seq<(nat, nat)>)
    requires Rect(data) && |data| > 0
    ensures found == Around(data, x, y, 3)
  {
    found := [];
    for n := 0 to 3
      invariant found == Around(data, x, y, n)
    {
      var row := ScanRow(data, x, y, n - 1);
      found := found + row;
    }
  }

  /** The `for dx` loop over one neighbour row, with its `break`. */
  method ScanRow(data: Grid, x: nat, y: nat, dy: int) returns (found: seq<(nat, nat)>)
    requires Rect(data) && |data| > 0
    ensures found == RowScan(data, x, y, dy, 0)
  {
    found := [];
    var k := 0;
    ghost var target := RowScan(data, x, y, dy, 0);
    while k < 3
      invariant 0 <= k <= 3
      invariant found + RowScan(data, x, y, dy, k) == target
    {
      var dx := k - 1;
      if dx == 0 && dy == 0 {
        RowScanSkip(data, x, y, dy, k);
      } else {
        var e := ExtractNumber(data, x, y, dx, dy);
        ScanStepFound(data, x, y, dy, k, e, found, target);
        if e.Some? {
          found := found + [e.value];
          if e.value.1 >= |data[0]| || e.value.1 >= x {
            return;
          }
        }
      }
      k := k + 1;
    }
  }

  /** The loop's view of one step: what `found` becomes keeps it a prefix of the scan. */
  lemma ScanStepFound(data: Grid, x: nat, y: nat, dy: int, k: nat, e: Option<(nat, nat)>,
                      found: seq<(nat, nat)>, target: seq<(nat, nat)>)
    requires Rect(data) && |data| > 0 && k < 3 && !(k == 1 && dy == 0)
    requires e == Extract(data, x, y, k - 1, dy) && found + RowScan(data, x, y, dy, k) == target
    ensures e.None? ==> found + RowScan(data, x, y, dy, k + 1) == target
    ensures e.Some? && (e.value.1 >= |data[0]| || e.value.1 >= x) ==> found + [e.value] == target
    ensures e.Some? && !(e.value.1 >= |data[0]| || e.value.1 >= x) ==>
              (found + [e.value]) + RowScan(data, x, y, dy, k + 1) == target
  {
    RowScanStep(data, x, y, dy, k, e);
  }

  /** One step of the row scan at a probed `dx = k - 1`. */
  lemma RowScanStep(data: Grid, x: nat, y: nat, dy: int, k: nat, e: Option<(nat, nat)>)
    requires Rect(data) && |data| > 0 && k < 3 && !(k == 1 && dy == 0)
    requires e == Extract(data, x, y, k - 1, dy)
    ensures e.None? ==> RowScan(data, x, y, dy, k) == RowScan(data, x, y, dy, k + 1)
    ensures e.Some? && (e.value.1 >= |data[0]| || e.value.1 >= x) ==> RowScan(data, x, y, dy, k) == [e.value]
    ensures e.Some? && !(e.value.1 >= |data[0]| || e.value.1 >= x) ==>
              RowScan(data, x, y, dy, k) == [e.value] + RowScan(data, x, y, dy, k + 1)
  {
  }

  /** The scan skips the cell itself. */
  lemma RowScanSkip(data: Grid, x: nat, y: nat, dy: int, k: nat)
    requires Rect(data) && |data| > 0 && k == 1 && dy == 0
    ensures RowScan(data, x, y, dy, k) == RowScan(data, x, y, dy, k + 1)
  { }

  /** Every number of `s` ends at column `lo` or right of it. */
  predicate EndsFrom(s: seq<(nat, nat)>, lo: int) {
    forall i :: 0 <= i < |s| ==> lo <= s[i].1
  }

  /** The numbers of `s` end at strictly increasing columns. */
  predicate EndsIncreasing(s: seq<(nat, nat)>) {
    forall i, j :: 0 <= i < j < |s| ==> s[i].1 < s[j].1
  }

  /** Within one neighbour row the numbers found end at strictly increasing
      columns, so no digit run is taken twice. */
  lemma RowScanDistinct(data: Grid, x: nat, y: nat, dy: int)
    requires Rect(data) && |data| > 0
    ensures EndsIncreasing(RowScan(data, x, y, dy, 0))
  {
    RowScanAfter(data, x, y, dy, 2);
    RowScanAfter(data, x, y, dy, 1);
    RowScanAfter(data, x, y, dy, 0);
  }

  /** Every number found from `dx = k - 1` on ends at a column at least x + k - 1. */
  lemma {:induction false} RowScanAfter(data: Grid, x: nat, y: nat, dy: int, k: nat)
    requires Rect(data) && |data| > 0
    ensures EndsFrom(RowScan(data, x, y, dy, k), x + k - 1)
    ensures EndsIncreasing(RowScan(data, x, y, dy, k))
    decreases 3 - k
  {
    if k < 3 {
      RowScanAfter(data, x, y, dy, k + 1);
      if !(k == 1 && dy == 0) {
        ExtractEndsRight(data, x, y, k - 1, dy);
        RowScanStep(data, x, y, dy, k, Extract(data, x, y, k - 1, dy));
      }
    }
  }

  /** A number found at a neighbour ends at or right of that neighbour. */
  lemma ExtractEndsRight(data: Grid, x: nat, y: nat, dx: int, dy: int)
    requires Rect(data) && |data| > 0
    ensures Extract(data, x, y, dx, dy).Some? ==> x + dx <= Extract(data, x, y, dx, dy).value.1
  {
  }

  /** The scan around a cell is the scan of the row above, its own row and the row below. */
  lemma AroundRows(data: Grid, x: nat, y: nat)
    requires Rect(data) && |data| > 0
    ensures Around(data, x, y, 3) == RowScan(data, x, y, -1, 0) + RowScan(data, x, y, 0, 0) + RowScan(data, x, y, 1, 0)
  {
    assert Around(data, x, y, 1) == RowScan(data, x, y, -1, 0);
    assert Around(data, x, y, 2) == Around(data, x, y, 1) + RowScan(data, x, y, 0, 0);
  }

  /** At most two numbers per neighbour row are found, so at most six around a cell. */
  lemma AroundBound(data: Grid, x: nat, y: nat)
    requires Rect(data) && |data| > 0
    ensures |Around(data, x, y, 3)| <= 6
  {
    AroundRows(data, x, y);
    RowScanNoThird(data, x, y, -1);
    RowScanNoThird(data, x, y, 0);
    RowScanNoThird(data, x, y, 1);
  }

  /** A third number in one row would need hits at dx = -1, 0 and 1, but a hit
      at dx = 0 ends at a column >= x and stops the row. */
  lemma RowScanNoThird(data: Grid, x: nat, y: nat, dy: int)
    requires Rect(data) && |data| > 0
    ensures |RowScan(data, x, y, dy, 0)| <= 2
  {
    RowScanStep(data, x, y, dy, 2, Extract(data, x, y, 1, dy));
    assert |RowScan(data, x, y, dy, 2)| <= 1;
    if dy != 0 {
      ExtractEndsRight(data, x, y, 0, dy);
      RowScanStep(data, x, y, dy, 1, Extract(data, x, y, 0, dy));
    }
    assert |RowScan(data, x, y, dy, 1)| <= 1;
    RowScanStep(data, x, y, dy, 0, Extract(data, x, y, -1, dy));
  }

  // ---------------------------------------------------------------------------
  // Part 1: the part numbers around every symbol

  /** The numbers collected at one cell: those around it when it is a symbol. */
  function CellNumbers(data: Grid, x: nat, y: nat): seq<nat>
    requires Rect(data) && y < |data| && x < |data[0]|
  {
    if IsSymbol(data[y][x]) then Values(Around(data, x, y, 3)) else []
  }

  /** The numbers the first `n` cells of row `y` contribute. */
  function RowNumbers(data: Grid, y: nat, n: nat): seq<nat>
    requires Rect(data) && y < |data| && n <= |data[0]|
  {
    if n == 0 then [] else RowNumbers(data, y, n - 1) + CellNumbers(data, n - 1, y)
  }

  /** The numbers the first `m` rows contribute, in scan order. */
  function GridNumbers(data: Grid, m: nat): seq<nat>
    requires Rect(data) && m <= |data|
  {
    if m == 0 then [] else GridNumbers(data, m - 1) + RowNumbers(data, m - 1, |data[0]|)
  }

  /** One row of the `for x` loop of `solve_part_1`. */
  method RowPart1(data: Grid, y: nat) returns (pn: seq<nat>)
    requires Rect(data) && y < |data|
    ensures pn == RowNumbers(data, y, |data[0]|)
  {
    pn := [];
    for x := 0 to |data[0]|
      invariant pn == RowNumbers(data, y, x)
    {
      var cell := CellPart1(data, x, y);
      pn := pn + cell;
    }
  }

  /** The body of the `for x` loop of `solve_part_1`: a symbol cell contributes
      the numbers around it. */
  method CellPart1(data: Grid, x: nat, y: nat) returns (cell: seq<nat>)
    requires Rect(data) && y < |data| && x < |data[0]|
    ensures cell == CellNumbers(data, x, y)
  {
    cell := [];
    if data[y][x] != '.' && !IsDigit(data[y][x]) {
      var found := Scan(data, x, y);
      cell := Values(found);
    }
  }

  /** `solve_part_1`: `engine_pn` collects the numbers around every symbol
      cell in row-major order, and the answer is their sum. */
  method SolvePart1(data: Grid) returns (enginePn: seq<nat>, sum: nat)
    requires Rect(data)
    ensures enginePn == GridNumbers(data, |data|)
    ensures sum == Sum(enginePn)
  {
    enginePn := [];
    for y := 0 to |data|
      invariant enginePn == GridNumbers(data, y)
    {
      var pn := RowPart1(data, y);
      enginePn := enginePn + pn;
    }
    sum := SumOf(enginePn);
  }

  // ---------------------------------------------------------------------------
  // Part 2: gear ratios

  predicate IsGear(c: char) {
    c == '*'
  }

  /** The ratio collected at one cell: the product of the two numbers around
      a '*' that has exactly two. */
  function CellRatio(data: Grid, x: nat, y: nat): seq<nat>
    requires Rect(data) && y < |data| && x < |data[0]|
  {
    var found := Around(data, x, y, 3);
    if IsGear(data[y][x]) && |found| == 2 then [Ratio(found[0].0, found[1].0)] else []
  }

  /** The gear ratio of two part numbers. */
  function Ratio(a: nat, b: nat): nat { a * b }

  function RowRatios(data: Grid, y: nat, n: nat): seq<nat>
    requires Rect(data) && y < |data| && n <= |data[0]|
  {
    if n == 0 then [] else RowRatios(data, y, n - 1) + CellRatio(data, n - 1, y)
  }

  function GridRatios(data: Grid, m: nat): seq<nat>
    requires Rect(data) && m <= |data|
  {
    if m == 0 then [] else GridRatios(data, m - 1) + RowRatios(data, m - 1, |data[0]|)
  }

  /** One row of the `for x` loop of `solve_part_2`. */
  method RowPart2(data: Grid, y: nat) returns (ratios: seq<nat>)
    requires Rect(data) && y < |data|
    ensures ratios == RowRatios(data, y, |data[0]|)
  {
    ratios := [];
    for x := 0 to |data[0]|
      invariant ratios == RowRatios(data, y, x)
    {
      var cell := CellPart2(data, x, y);
      ratios := ratios + cell;
    }
  }

  /** The body of the `for x` loop of `solve_part_2`: a '*' with exactly two
      numbers around it contributes their product. */
  method CellPart2(data: Grid, x: nat, y: nat) returns (cell: seq<nat>)
    requires Rect(data) && y < |data| && x < |data[0]|
    ensures cell == CellRatio(data, x, y)
  {
    cell := [];
    if data[y][x] == '*' {
      var gearPn := Scan(data, x, y);
      if |gearPn| == 2 {
        cell := [Ratio(gearPn[0].0, gearPn[1].0)];
      }
    }
  }

  /** `solve_part_2`: `gear_ratio_sum` collects the ratio of every gear in
      row-major order, and the answer is their sum. */
  method SolvePart2(data: Grid) returns (ratios: seq<nat>, sum: nat)
    requires Rect(data)
    ensures ratios == GridRatios(data, |data|)
    ensures sum == Sum(ratios)
  {
    ratios := [];
    for y := 0 to |data|
      invariant ratios == GridRatios(data, y)
    {
      var r := RowPart2(data, y);
      ratios := ratios + r;
    }
    sum := SumOf(ratios);
  }
}
