/** Day 9 ("Mirage Maintenance"): a history of readings is extrapolated by
    building rows of differences until a row is all zeros. Part 1 predicts the
    next reading (the sum of the last element of every row), part 2 the
    previous one (folded bottom-up as v := row[0] - v). */
module MirageMaintenance {

  /** The row of differences: element k is row[k+1] - row[k]. */
  function Diff(row: seq<int>): (d: seq<int>)
    requires |row| > 0
    ensures |d| == |row| - 1
  {
    seq(|row| - 1, k requires 0 <= k < |row| - 1 => row[k + 1] - row[k])
  }

  predicate AllZero(row: seq<int>) {
    forall k :: 0 <= k < |row| ==> row[k] == 0
  }

  /** The rows the down pass builds: the history, then differences of the last
      row for as long as that row has a nonzero element. */
  function Rows(row: seq<int>): (rows: seq<seq<int>>)
    ensures |rows| > 0 && rows[0] == row && AllZero(rows[|rows| - 1])
    decreases |row|
  {
    if AllZero(row) then [row]
    else [row] + Rows(Diff(row))
  }

  /** Every row but the last has a nonzero element and is followed by its
      differences, which makes it one shorter. */
  lemma {:induction false} RowsShape(row: seq<int>)
    ensures forall i :: 0 <= i < |Rows(row)| - 1 ==> !AllZero(Rows(row)[i]) && |Rows(row)[i]| > 0
    ensures forall i {:trigger Diff(Rows(row)[i])} :: 0 <= i < |Rows(row)| - 1 ==> Rows(row)[i + 1] == Diff(Rows(row)[i])
    decreases |row|
  {
    if !AllZero(row) {
      RowsShape(Diff(row));
      var rest := Rows(Diff(row));
      assert Rows(row) == [row] + rest;
      forall i | 1 <= i < |Rows(row)| - 1
        ensures !AllZero(Rows(row)[i]) && |Rows(row)[i]| > 0 && Rows(row)[i + 1] == Diff(Rows(row)[i])
      {
        assert Rows(row)[i] == rest[i - 1] && Rows(row)[i + 1] == rest[i];
        assert |rest[i - 1]| > 0;
        assert Diff(rest[i - 1]) == rest[i];
      }
    }
  }

  /** The down pass reaches an all-zero row that still has an element; the
      source's `last().unwrap()` and `[0]` need it. */
  predicate Extrapolable(row: seq<int>)
    decreases |row|
  {
    |row| > 0 && (AllZero(row) || Extrapolable(Diff(row)))
  }

  lemma {:induction false} ExtrapolableRows(row: seq<int>)
    requires Extrapolable(row)
    ensures forall i :: 0 <= i < |Rows(row)| ==> |Rows(row)[i]| > 0
    decreases |row|
  {
    if !AllZero(row) {
      ExtrapolableRows(Diff(row));
      var rest := Rows(Diff(row));
      assert Rows(row) == [row] + rest;
      assert forall i :: 1 <= i < |Rows(row)| ==> Rows(row)[i] == rest[i - 1];
    }
  }

  /** The next reading, extrapolated from the last elements. */
  function Next(row: seq<int>): int
    requires Extrapolable(row)
    decreases |row|
  {
    if AllZero(row) then row[|row| - 1] else row[|row| - 1] + Next(Diff(row))
  }

  /** The previous reading, extrapolated from the first elements. */
  function Prev(row: seq<int>): int
    requires Extrapolable(row)
    decreases |row|
  {
    if AllZero(row) then row[0] else row[0] - Prev(Diff(row))
  }

  // ---------------------------------------------------------------------------
  // The imperative passes

  /** The `sequence_new` loop: pairwise differences of a nonempty row. */
  method DiffRow(row: seq<int>) returns (d: seq<int>)
    requires |row| > 0
    ensures d == Diff(row)
  {
    d := [];
    for k := 0 to |row| - 1
      invariant |d| == k && forall j :: 0 <= j < k ==> d[j] == row[j + 1] - row[j]
    {
      d := d + [row[k + 1] - row[k]];
    }
  }

  /** The stop condition: `find(|v| *v != 0).is_none()`. */
  method IsAllZero(row: seq<int>) returns (z: bool)
    ensures z <==> AllZero(row)
  {
    z := true;
    var k := 0;
    while k < |row|
      invariant 0 <= k <= |row|
      invariant z <==> forall j :: 0 <= j < k ==> row[j] == 0
      invariant !z ==> k == |row|
    {
      if row[k] != 0 {
        z := false;
        k := |row|;
      } else {
        k := k + 1;
      }
    }
  }

  /** The down pass. The source would index `len() - 1` below zero on an
      empty row with a nonzero element, which cannot happen. */
  method BuildRows(history: seq<int>) returns (sequences: seq<seq<int>>)
    ensures sequences == Rows(history)
  {
    sequences := [history];
    var last := history;
    var done := IsAllZero(last);
    while !done
      invariant |sequences| > 0 && last == sequences[|sequences| - 1]
      invariant done <==> AllZero(last)
      invariant Rows(history) == sequences[..|sequences| - 1] + Rows(last)
      decreases |last|
    {
      assert |last| > 0;
      var next := DiffRow(last);
      assert Rows(last) == [last] + Rows(next);
      assert sequences[..|sequences| - 1] + [last] == sequences;
      sequences := sequences + [next];
      assert sequences[..|sequences| - 1] == sequences[..|sequences| - 2] + [last];
      last := next;
      done := IsAllZero(last);
    }
    assert Rows(last) == [last];
  }

  /** Sum of the last elements of `rows[i..]`. */
  function SumLast(rows: seq<seq<int>>, i: nat): int
    requires i <= |rows| && forall j :: 0 <= j < |rows| ==> |rows[j]| > 0
    decreases |rows| - i
  {
    if i == |rows| then 0 else rows[i][|rows[i]| - 1] + SumLast(rows, i + 1)
  }

  /** The bottom-up fold `v := rows[i][0] - v` over `rows[i..]`, from v = 0. */
  function FoldFirst(rows: seq<seq<int>>, i: nat): int
    requires i <= |rows| && forall j :: 0 <= j < |rows| ==> |rows[j]| > 0
    decreases |rows| - i
  {
    if i == |rows| then 0 else rows[i][0] - FoldFirst(rows, i + 1)
  }

  /** Summing the last elements of the rows is the recursive extrapolation,
      and so is the bottom-up fold of the first elements. */
  lemma {:induction false} RowsExtrapolate(row: seq<int>)
    requires Extrapolable(row)
    ensures forall j :: 0 <= j < |Rows(row)| ==> |Rows(row)[j]| > 0
    ensures SumLast(Rows(row), 0) == Next(row)
    ensures FoldFirst(Rows(row), 0) == Prev(row)
    decreases |row|
  {
    ExtrapolableRows(row);
    var rows := Rows(row);
    if AllZero(row) {
      assert rows == [row];
    } else {
      var rest := Rows(Diff(row));
      RowsExtrapolate(Diff(row));
      assert rows == [row] + rest;
      ShiftSums(rows, rest);
    }
  }

  lemma {:induction false} ShiftSums(rows: seq<seq<int>>, rest: seq<seq<int>>)
    requires |rows| > 0 && rows[1..] == rest
    requires forall j :: 0 <= j < |rows| ==> |rows[j]| > 0
    ensures forall j :: 0 <= j < |rest| ==> |rest[j]| > 0
    ensures SumLast(rows, 0) == rows[0][|rows[0]| - 1] + SumLast(rest, 0)
    ensures FoldFirst(rows, 0) == rows[0][0] - FoldFirst(rest, 0)
  {
    assert forall j :: 0 <= j < |rest| ==> rest[j] == rows[j + 1];
    ShiftFrom(rows, rest, 0);
  }

  lemma {:induction false} ShiftFrom(rows: seq<seq<int>>, rest: seq<seq<int>>, i: nat)
    requires |rows| > 0 && rows[1..] == rest && i <= |rest|
    requires forall j :: 0 <= j < |rows| ==> |rows[j]| > 0
    requires forall j :: 0 <= j < |rest| ==> |rest[j]| > 0
    ensures SumLast(rows, i + 1) == SumLast(rest, i)
    ensures FoldFirst(rows, i + 1) == FoldFirst(rest, i)
    decreases |rest| - i
  {
    if i < |rest| {
      assert rest[i] == rows[i + 1];
      ShiftFrom(rows, rest, i + 1);
    }
  }

  /** Part 1 for one history: build the rows and sum their last elements. */
  method ExtrapolateNext(history: seq<int>) returns (v: int)
    requires Extrapolable(history)
    ensures v == Next(history)
  {
    var sequences := BuildRows(history);
    RowsExtrapolate(history);
    v := 0;
    for i := |sequences| downto 0
      invariant v == SumLast(sequences, i)
    {
      v := sequences[i][|sequences[i]| - 1] + v;
    }
  }

  /** Part 2 for one history: build the rows and fold `v := rows[i][0] - v`
      over them in reverse. */
  method ExtrapolatePrev(history: seq<int>) returns (v: int)
    requires Extrapolable(history)
    ensures v == Prev(history)
  {
    var sequences := BuildRows(history);
    RowsExtrapolate(history);
    v := 0;
    for i := |sequences| downto 0
      invariant v == FoldFirst(sequences, i)
    {
      v := sequences[i][0] - v;
    }
  }

  // ---------------------------------------------------------------------------
  // What the extrapolations mean

  /** An all-zero history is extrapolated to 0 both ways. */
  lemma ZeroHistory(row: seq<int>)
    requires |row| > 0 && AllZero(row)
    ensures Extrapolable(row) && Next(row) == 0 && Prev(row) == 0
  {
  }

  /** The next reading extends the history so that its difference row is
      extended by that row's own next reading: the table stays consistent. */
  lemma NextExtendsDiff(row: seq<int>)
    requires Extrapolable(row) && !AllZero(row)
    ensures Diff(row + [Next(row)]) == Diff(row) + [Next(Diff(row))]
  {
    var ext := row + [Next(row)];
    var n := |row|;
    var lhs, rhs := Diff(ext), Diff(row) + [Next(Diff(row))];
    forall k | 0 <= k < n ensures lhs[k] == rhs[k] {
      if k < n - 1 {
        assert ext[k + 1] == row[k + 1] && ext[k] == row[k];
        assert rhs[k] == Diff(row)[k];
      } else {
        assert ext[k + 1] == Next(row) && ext[k] == row[n - 1];
        assert rhs[k] == Next(Diff(row));
      }
    }
    assert |lhs| == |rhs|;
  }

  /** The previous reading is the next reading of the reversed history. */
  lemma {:induction false} PrevIsNextOfReverse(row: seq<int>)
    requires Extrapolable(row)
    ensures Extrapolable(Reverse(row)) && Prev(row) == Next(Reverse(row))
    decreases |row|
  {
    var rev := Reverse(row);
    ReverseZero(row);
    if !AllZero(row) {
      PrevIsNextOfReverse(Diff(row));
      var d := Reverse(Diff(row));
      DiffReverse(row);
      assert Diff(rev) == Negate(d);
      NegateExtrapolable(d);
      assert Extrapolable(rev);
    }
  }

  function Reverse(s: seq<int>): (r: seq<int>)
    ensures |r| == |s| && forall i :: 0 <= i < |s| ==> r[i] == s[|s| - 1 - i]
  {
    seq(|s|, i requires 0 <= i < |s| => s[|s| - 1 - i])
  }

  function Negate(s: seq<int>): (r: seq<int>)
    ensures |r| == |s| && forall i :: 0 <= i < |s| ==> r[i] == -s[i]
  {
    seq(|s|, i requires 0 <= i < |s| => -s[i])
  }

  lemma ReverseZero(row: seq<int>)
    ensures AllZero(Reverse(row)) <==> AllZero(row)
  {
    var rev := Reverse(row);
    if AllZero(rev) {
      forall k | 0 <= k < |row| ensures row[k] == 0 {
        assert rev[|row| - 1 - k] == row[k];
      }
    }
  }

  /** The differences of a reversed row are the negated, reversed differences. */
  lemma DiffReverse(row: seq<int>)
    requires |row| > 0
    ensures Diff(Reverse(row)) == Negate(Reverse(Diff(row)))
  {
    var n := |row|;
    forall k | 0 <= k < n - 1 ensures Diff(Reverse(row))[k] == Negate(Reverse(Diff(row)))[k] {
      assert Reverse(Diff(row))[k] == Diff(row)[n - 2 - k] == row[n - 1 - k] - row[n - 2 - k];
    }
  }

  /** Negating a row negates both extrapolations. */
  lemma {:induction false} NegateExtrapolable(row: seq<int>)
    requires Extrapolable(row)
    ensures Extrapolable(Negate(row))
    ensures Next(Negate(row)) == -Next(row) && Prev(Negate(row)) == -Prev(row)
    decreases |row|
  {
    var neg := Negate(row);
    assert AllZero(neg) <==> AllZero(row) by {
      if AllZero(neg) {
        assert forall k :: 0 <= k < |row| ==> row[k] == -neg[k];
      }
    }
    if !AllZero(row) {
      assert Diff(neg) == Negate(Diff(row));
      NegateExtrapolable(Diff(row));
    }
  }

  // ---------------------------------------------------------------------------
  // Sums over all histories

  predicate AllExtrapolable(histories: seq<seq<int>>) {
    forall i :: 0 <= i < |histories| ==> Extrapolable(histories[i])
  }

  function SumNext(histories: seq<seq<int>>): int
    requires AllExtrapolable(histories)
  {
    if histories == [] then 0
    else SumNext(histories[..|histories| - 1]) + Next(histories[|histories| - 1])
  }

  function SumPrev(histories: seq<seq<int>>): int
    requires AllExtrapolable(histories)
  {
    if histories == [] then 0
    else SumPrev(histories[..|histories| - 1]) + Prev(histories[|histories| - 1])
  }

  method SolvePart1(histories: seq<seq<int>>) returns (total: int)
    requires AllExtrapolable(histories)
    ensures total == SumNext(histories)
  {
    total := 0;
    for n := 0 to |histories|
      invariant total == SumNext(histories[..n])
    {
      var v := ExtrapolateNext(histories[n]);
      assert histories[..n + 1][..n] == histories[..n];
      total := total + v;
    }
    assert histories[..|histories|] == histories;
  }

  method SolvePart2(histories: seq<seq<int>>) returns (total: int)
    requires AllExtrapolable(histories)
    ensures total == SumPrev(histories)
  {
    total := 0;
    for n := 0 to |histories|
      invariant total == SumPrev(histories[..n])
    {
      var v := ExtrapolatePrev(histories[n]);
      assert histories[..n + 1][..n] == histories[..n];
      total := total + v;
    }
    assert histories[..|histories|] == histories;
  }
}
