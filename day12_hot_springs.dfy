/** Day 12 ("Hot Springs"): each record is a row of springs, '.' working,
    '#' damaged and '?' unknown, with the lengths of its runs of damaged
    springs. `count_arrangements` counts the ways to fill in the unknowns
    with a dynamic programme over the prefixes of the row, one group at a
    time; part 2 first unfolds every record into five copies. */
module HotSprings {

  // ---------------------------------------------------------------------------
  // The arrangements a record admits

  /** The last `g` springs of `q` can form a run of damaged springs: none of
      them is '.', and the spring before them, if any, can be working. */
  predicate GroupEnds(q: string, g: nat) {
    1 <= g <= |q| && (forall t :: |q| - g <= t < |q| ==> q[t] != '.') && (g == |q| || q[|q| - g - 1] != '#')
  }

  /** The number of ways to make every '?' of `q` a '.' or a '#' so that the
      runs of '#' have, from left to right, the lengths `hs`: the last
      spring is either working (when it may be) or ends the last run, which
      is then preceded by a working spring or by the start of the row. */
  function Ways(q: string, hs: seq<nat>): nat
    decreases |q|
  {
    if |q| == 0 then (if hs == [] then 1 else 0)
    else
      (if q[|q| - 1] != '#' then Ways(q[..|q| - 1], hs) else 0) +
      (if hs != [] && GroupEnds(q, hs[|hs| - 1])
       then Ways(q[..if hs[|hs| - 1] == |q| then 0 else |q| - hs[|hs| - 1] - 1], hs[..|hs| - 1])
       else 0)
  }

  /** With no runs to place, a row has one arrangement when it holds no '#'
      and none otherwise. */
  lemma {:induction false} WaysNoGroups(q: string)
    ensures Ways(q, []) == if '#' in q then 0 else 1
    decreases |q|
  {
    if |q| > 0 {
      var a := q[..|q| - 1];
      WaysNoGroups(a);
      assert q == a + [q[|q| - 1]];
      assert '#' in q <==> '#' in a || q[|q| - 1] == '#';
    }
  }

  /** A working spring at the end changes nothing. */
  lemma WaysDotEnd(q: string, hs: seq<nat>)
    ensures Ways(q + ".", hs) == Ways(q, hs)
  {
    assert (q + ".")[..|q|] == q;
  }

  /** A working spring in front neither starts nor spoils a run at the end. */
  lemma GroupEndsDotFront(q: string, g: nat)
    ensures GroupEnds("." + q, g) <==> GroupEnds(q, g)
  {
    var p := "." + q;
    var n := |q|;
    if GroupEnds(p, g) {
      assert p[0] == '.';
      forall t | n - g <= t < n
        ensures q[t] != '.'
      {
        assert q[t] == p[t + 1];
      }
      if g < n {
        assert q[n - g - 1] == p[n - g];
      }
    }
    if GroupEnds(q, g) {
      forall t | n + 1 - g <= t < n + 1
        ensures p[t] != '.'
      {
        assert p[t] == q[t - 1];
      }
      if g < n {
        assert p[n - g] == q[n - g - 1];
      } else {
        assert p[n - g] == '.';
      }
    }
  }

  /** A working spring in front changes nothing. */
  lemma {:induction false} WaysDotFront(q: string, hs: seq<nat>)
    ensures Ways("." + q, hs) == Ways(q, hs)
    decreases |q|, 1
  {
    var p := "." + q;
    if hs == [] {
      WaysNoGroups(p);
      WaysNoGroups(q);
      assert '#' in p <==> '#' in q;
    } else if |q| == 0 {
      assert p[..0] == [];
    } else {
      var n := |q|;
      assert p[..n] == "." + q[..n - 1] && p[n] == q[n - 1];
      WaysDotFront(q[..n - 1], hs);
      WaysDotFrontGroup(q, hs[..|hs| - 1], hs[|hs| - 1]);
    }
  }

  /** The same for the arrangements that end with a run of `g`. */
  lemma {:induction false} WaysDotFrontGroup(q: string, hs0: seq<nat>, g: nat)
    requires |q| >= 1
    ensures (if GroupEnds("." + q, g) then Ways(("." + q)[..if g == |q| + 1 then 0 else |q| - g], hs0) else 0)
         == (if GroupEnds(q, g) then Ways(q[..if g == |q| then 0 else |q| - g - 1], hs0) else 0)
    decreases |q|, 0
  {
    var p, n := "." + q, |q|;
    GroupEndsDotFront(q, g);
    if GroupEnds(q, g) && g < n {
      assert p[..n - g] == "." + q[..n - g - 1];
      WaysDotFront(q[..n - g - 1], hs0);
    }
  }

  // ---------------------------------------------------------------------------
  // The working pattern

  /** `trim_end_matches('.')`. */
  function TrimEnd(s: string): (r: string)
    ensures |r| <= |s| && r == s[..|r|]
    ensures r == [] || r[|r| - 1] != '.'
    ensures forall k :: |r| <= k < |s| ==> s[k] == '.'
  {
    if s != [] && s[|s| - 1] == '.' then TrimEnd(s[..|s| - 1]) else s
  }

  lemma {:induction false} WaysTrimEnd(s: string, hs: seq<nat>)
    ensures Ways(TrimEnd(s), hs) == Ways(s, hs)
    decreases |s|
  {
    if s != [] && s[|s| - 1] == '.' {
      var a := s[..|s| - 1];
      WaysTrimEnd(a, hs);
      assert s == a + ".";
      WaysDotEnd(a, hs);
    }
  }

  /** The pattern the programme runs on: a working spring in front, so that
      every run has a spring before it, and the trailing working springs
      cut off. */
  function Working(template: string): (p: string)
    ensures |p| >= 1 && p[0] == '.'
  {
    "." + TrimEnd(template)
  }

  /** The working pattern admits the arrangements of the record. */
  lemma WaysWorking(template: string, hs: seq<nat>)
    ensures Ways(Working(template), hs) == Ways(template, hs)
  {
    WaysDotFront(TrimEnd(template), hs);
    WaysTrimEnd(template, hs);
  }

  // ---------------------------------------------------------------------------
  // The dynamic programme

  /** The first row: dp[i] counts the arrangements of no run into the first
      i springs. The source sets dp[i + 1] to 1 whenever spring i is not '#'
      (`fixedBase` false); the intended row is 1 only up to the first '#'. */
  function Base(p: string, fixedBase: bool): (dp: seq<nat>)
    ensures |dp| == |p| + 1
  {
    seq(|p| + 1, i requires 0 <= i <= |p| =>
      if i == 0 then 1
      else if fixedBase then (if '#' in p[..i] then 0 else 1)
      else if p[i - 1] != '#' then 1 else 0)
  }

  /** The length of the run of springs other than '.' that ends at spring i
      (`chunk`). */
  function Chunk(p: string, i: nat): nat
    requires i < |p|
  {
    if p[i] == '.' then 0 else if i == 0 then 1 else Chunk(p, i - 1) + 1
  }

  /** A run ends at spring i and is at least `g` long exactly when none of
      the `g` springs up to i is '.'; behind the leading '.' it never reaches
      back to spring 0, so `i - group` is a valid index whenever the source
      reads it. */
  lemma {:induction false} ChunkMeaning(p: string, i: nat, g: nat)
    requires i < |p|
    ensures Chunk(p, i) >= g <==> g <= i + 1 && forall t :: i + 1 - g <= t <= i ==> p[t] != '.'
    ensures p[0] == '.' ==> Chunk(p, i) <= i
  {
    if p[i] != '.' && i > 0 {
      ChunkMeaning(p, i - 1, if g > 0 then g - 1 else 0);
      ChunkMeaning(p, i - 1, g);
    }
  }

  /** n_dp[k] for the next group `g`: `NextAt(k + 1)` adds the ways with a
      working spring k to those with a run of `g` ending at spring k. */
  function NextAt(p: string, dp: seq<nat>, g: nat, k: nat): nat
    requires |p| >= 1 && p[0] == '.' && |dp| == |p| + 1 && k <= |p|
  {
    if k == 0 then 0
    else
      ChunkMeaning(p, k - 1, g);
      (if p[k - 1] != '#' then NextAt(p, dp, g, k - 1) else 0) +
      (if Chunk(p, k - 1) >= g && p[k - 1 - g] != '#' then dp[k - 1 - g] else 0)
  }

  function NextRow(p: string, dp: seq<nat>, g: nat): (r: seq<nat>)
    requires |p| >= 1 && p[0] == '.' && |dp| == |p| + 1
    ensures |r| == |p| + 1
  {
    seq(|p| + 1, k requires 0 <= k <= |p| => NextAt(p, dp, g, k))
  }

  /** The row after the groups `gs` were placed. */
  function Rows(p: string, base: seq<nat>, gs: seq<nat>): (dp: seq<nat>)
    requires |p| >= 1 && p[0] == '.' && |base| == |p| + 1
    ensures |dp| == |p| + 1
  {
    if gs == [] then base else NextRow(p, Rows(p, base, gs[..|gs| - 1]), gs[|gs| - 1])
  }

  /** `count_arrangements`: the last entry of the last row. */
  function Arrangements(template: string, gs: seq<nat>, fixedBase: bool): nat {
    var p := Working(template);
    Rows(p, Base(p, fixedBase), gs)[|p|]
  }

  /** The intended first row counts the arrangements of no run. */
  lemma BaseWays(p: string, k: nat)
    requires k <= |p|
    ensures Base(p, true)[k] == Ways(p[..k], [])
  {
    WaysNoGroups(p[..k]);
    if k == 0 {
      assert p[..0] == [];
    }
  }

  /** The last spring of a non-empty row is working or ends the last run. */
  lemma WaysLast(q: string, hs: seq<nat>, g: nat)
    requires |q| >= 1
    ensures Ways(q, hs + [g]) ==
      (if q[|q| - 1] != '#' then Ways(q[..|q| - 1], hs + [g]) else 0) +
      (if GroupEnds(q, g) then Ways(q[..if g == |q| then 0 else |q| - g - 1], hs) else 0)
  {
    var hs' := hs + [g];
    assert hs'[..|hs'| - 1] == hs;
  }

  /** Behind the leading '.', a run of `g` can end at the last spring of the
      prefix of length k exactly when the source adds dp[k - 1 - g]. */
  lemma GroupEndsChunk(p: string, k: nat, g: nat)
    requires |p| >= 1 && p[0] == '.' && 1 <= k <= |p| && g >= 1
    ensures Chunk(p, k - 1) >= g ==> g < k
    ensures GroupEnds(p[..k], g) <==> g < k && Chunk(p, k - 1) >= g && p[k - 1 - g] != '#'
  {
    var q := p[..k];
    ChunkMeaning(p, k - 1, g);
    if Chunk(p, k - 1) >= g {
      assert p[k - 1 - g] == q[k - g - 1];
      assert forall t :: k - g <= t < k ==> q[t] == p[t];
    }
    if GroupEnds(q, g) {
      assert q[0] == '.';
      assert forall t :: k - g <= t < k ==> q[t] == p[t];
    }
  }

  /** One group: when a row counts the arrangements of the runs `hs` into
      every prefix, the next row counts those of `hs + [g]`. */
  lemma {:induction false} NextAtWays(p: string, dp: seq<nat>, g: nat, hs: seq<nat>, k: nat)
    requires |p| >= 1 && p[0] == '.' && |dp| == |p| + 1 && k <= |p| && g >= 1
    requires forall i :: 0 <= i <= |p| ==> dp[i] == Ways(p[..i], hs)
    ensures NextAt(p, dp, g, k) == Ways(p[..k], hs + [g])
  {
    if k == 0 {
      assert p[..0] == [];
    } else {
      NextAtWays(p, dp, g, hs, k - 1);
      WaysPrefixStep(p, hs, g, k);
    }
  }

  /** The recurrence of `Ways` on the prefix of length k, in the terms the
      source's table uses. */
  lemma WaysPrefixStep(p: string, hs: seq<nat>, g: nat, k: nat)
    requires |p| >= 1 && p[0] == '.' && 1 <= k <= |p| && g >= 1
    ensures Chunk(p, k - 1) >= g ==> g < k
    ensures Ways(p[..k], hs + [g]) ==
      (if p[k - 1] != '#' then Ways(p[..k - 1], hs + [g]) else 0) +
      (if Chunk(p, k - 1) >= g && p[k - 1 - g] != '#' then Ways(p[..k - 1 - g], hs) else 0)
  {
    var q := p[..k];
    assert q[..k - 1] == p[..k - 1];
    assert q[k - 1] == p[k - 1];
    WaysLast(q, hs, g);
    GroupEndsChunk(p, k, g);
    if GroupEnds(q, g) {
      assert q[..k - g - 1] == p[..k - 1 - g];
    }
  }

  lemma NextRowWays(p: string, dp: seq<nat>, g: nat, hs: seq<nat>)
    requires |p| >= 1 && p[0] == '.' && |dp| == |p| + 1 && g >= 1
    requires forall i :: 0 <= i <= |p| ==> dp[i] == Ways(p[..i], hs)
    ensures forall i :: 0 <= i <= |p| ==> NextRow(p, dp, g)[i] == Ways(p[..i], hs + [g])
  {
    forall i | 0 <= i <= |p|
      ensures NextRow(p, dp, g)[i] == Ways(p[..i], hs + [g])
    {
      NextAtWays(p, dp, g, hs, i);
    }
  }

  lemma {:induction false} RowsWays(p: string, gs: seq<nat>)
    requires |p| >= 1 && p[0] == '.'
    requires forall k :: 0 <= k < |gs| ==> gs[k] >= 1
    ensures forall i :: 0 <= i <= |p| ==> Rows(p, Base(p, true), gs)[i] == Ways(p[..i], gs)
    decreases |gs|
  {
    if gs == [] {
      forall i | 0 <= i <= |p|
        ensures Base(p, true)[i] == Ways(p[..i], [])
      {
        BaseWays(p, i);
      }
    } else {
      var hs := gs[..|gs| - 1];
      RowsWays(p, hs);
      assert gs == hs + [gs[|gs| - 1]];
      NextRowWays(p, Rows(p, Base(p, true), hs), gs[|gs| - 1], hs);
    }
  }

  /** With the intended first row, the programme counts exactly the
      arrangements of the record (the groups are positive lengths). */
  lemma ArrangementsCorrect(template: string, gs: seq<nat>)
    requires forall k :: 0 <= k < |gs| ==> gs[k] >= 1
    ensures Arrangements(template, gs, true) == Ways(template, gs)
  {
    var p := Working(template);
    RowsWays(p, gs);
    assert p[..|p|] == p;
    WaysWorking(template, gs);
  }

  /** With no groups the count is the first row's last entry: as written,
      1 unless the last spring before the trailing '.'s is '#'; intended, 1
      unless the row holds a '#'. */
  lemma NoGroups(template: string)
    ensures Arrangements(template, [], false) == if TrimEnd(template) != [] && TrimEnd(template)[|TrimEnd(template)| - 1] == '#' then 0 else 1
    ensures Arrangements(template, [], true) == if '#' in template then 0 else 1
  {
    ArrangementsCorrect(template, []);
    WaysNoGroups(template);
    var p := Working(template);
    assert p[|p| - 1] == if TrimEnd(template) == [] then '.' else TrimEnd(template)[|TrimEnd(template)| - 1];
  }

  /** The record "#?.?" with one run of length 1 has one arrangement
      ("#..."), but the source's first row also counts a '.' at the front
      after the '#' as an empty prefix, and counts two. */
  lemma BaseRowOvercounts()
    ensures Arrangements("#?.?", [1], false) == 2
    ensures Arrangements("#?.?", [1], true) == 1
    ensures Ways("#?.?", [1]) == 1
  {
    var p := Working("#?.?");
    assert TrimEnd("#?.?") == "#?.?";
    assert p == ".#?.?";
    var b := Base(p, false);
    assert b == [1, 1, 0, 1, 1, 1] by {
      assert b[2] == 0;
    }
    assert Chunk(p, 1) == 1 && Chunk(p, 2) == 2 && Chunk(p, 3) == 0 && Chunk(p, 4) == 1;
    assert NextAt(p, b, 1, 5) == 2 by {
      assert NextAt(p, b, 1, 1) == 0;
      assert NextAt(p, b, 1, 2) == 1;
      assert NextAt(p, b, 1, 3) == 1;
      assert NextAt(p, b, 1, 4) == 1;
    }
    assert [1][..0] == [];
    assert Rows(p, b, [1]) == NextRow(p, b, 1);
    var c := Base(p, true);
    assert c == [1, 1, 0, 0, 0, 0] by {
      assert p[..2] == ".#";
      assert p[..3] == ".#?";
      assert p[..4] == ".#?.";
      assert p[..5] == ".#?.?";
    }
    assert NextAt(p, c, 1, 5) == 1 by {
      assert NextAt(p, c, 1, 1) == 0;
      assert NextAt(p, c, 1, 2) == 1;
      assert NextAt(p, c, 1, 3) == 1;
      assert NextAt(p, c, 1, 4) == 1;
    }
    assert Rows(p, c, [1]) == NextRow(p, c, 1);
    ArrangementsCorrect("#?.?", [1]);
  }

  /** The initialisation of `dp`: a zeroed vector, dp[0] = 1, and
      dp[i + 1] = 1 for the springs i the filter lets through; with
      `fixedBase` the filter stops at the first '#'. */
  method BaseRow(p: string, fixedBase: bool) returns (dp: array<nat>)
    ensures fresh(dp) && dp[..] == Base(p, fixedBase)
  {
    dp := new nat[|p| + 1](_ => 0);
    dp[0] := 1;
    var seen := false;
    for i := 0 to |p|
      invariant seen <==> '#' in p[..i]
      invariant forall k :: 0 <= k <= i ==> dp[k] == Base(p, fixedBase)[k]
      invariant forall k :: i < k <= |p| ==> dp[k] == 0
    {
      assert p[..i + 1] == p[..i] + [p[i]];
      if p[i] == '#' {
        seen := true;
      } else if !fixedBase || !seen {
        dp[i + 1] := 1;
      }
    }
  }

  /** The inner loop of `count_arrangements` for one group: `chunk` follows
      the current run, and each n_dp[i + 1] adds up its two cases. */
  method NextRowOf(p: string, dp: array<nat>, g: nat) returns (next: array<nat>)
    requires |p| >= 1 && p[0] == '.' && dp.Length == |p| + 1
    ensures fresh(next) && next[..] == NextRow(p, dp[..], g)
  {
    next := new nat[|p| + 1](_ => 0);
    ghost var row := dp[..];
    var chunk := 0;
    for i := 0 to |p|
      invariant i > 0 ==> chunk == Chunk(p, i - 1)
      invariant forall k {:trigger next[k]} :: 0 <= k <= i ==> next[k] == NextAt(p, row, g, k)
      invariant forall k :: i < k <= |p| ==> next[k] == 0
    {
      var c := p[i];
      if c != '.' {
        chunk := chunk + 1;
      } else {
        chunk := 0;
      }
      assert chunk == Chunk(p, i);
      ChunkMeaning(p, i, g);
      var v := next[i + 1];
      if c != '#' {
        v := v + next[i];
      }
      if chunk >= g && p[i - g] != '#' {
        v := v + dp[i - g];
      }
      assert v == NextAt(p, row, g, i + 1);
      next[i + 1] := v;
    }
  }

  /** `count_arrangements`, with the source's first row when `fixedBase` is
      false. */
  method CountArrangements(template: string, groups: seq<nat>, fixedBase: bool) returns (count: nat)
    ensures count == Arrangements(template, groups, fixedBase)
  {
    var p := Working(template);
    var dp := BaseRow(p, fixedBase);
    for j := 0 to |groups|
      invariant dp.Length == |p| + 1 && dp[..] == Rows(p, Base(p, fixedBase), groups[..j])
    {
      assert groups[..j + 1][..j] == groups[..j];
      dp := NextRowOf(p, dp, groups[j]);
    }
    assert groups[..|groups|] == groups;
    count := dp[|p|];
  }

  // ---------------------------------------------------------------------------
  // The records and the two parts

  datatype Arrangement = Arrangement(template: string, parts: seq<nat>)

  function Total(statement: seq<Arrangement>, fixedBase: bool): nat {
    if statement == [] then 0
    else
      var last := statement[|statement| - 1];
      Total(statement[..|statement| - 1], fixedBase) + Arrangements(last.template, last.parts, fixedBase)
  }

  /** The sum of the record's arrangements. */
  function TotalWays(statement: seq<Arrangement>): nat {
    if statement == [] then 0
    else
      var last := statement[|statement| - 1];
      TotalWays(statement[..|statement| - 1]) + Ways(last.template, last.parts)
  }

  /** With the intended first row, the total is the sum of the records'
      arrangements. */
  lemma {:induction false} TotalCorrect(statement: seq<Arrangement>)
    requires forall i, k :: 0 <= i < |statement| && 0 <= k < |statement[i].parts| ==> statement[i].parts[k] >= 1
    ensures Total(statement, true) == TotalWays(statement)
    decreases |statement|
  {
    if statement != [] {
      var last := statement[|statement| - 1];
      TotalCorrect(statement[..|statement| - 1]);
      ArrangementsCorrect(last.template, last.parts);
    }
  }

  /** `solve_part_1`: the arrangements of all records, added up. */
  method SolvePart1(statement: seq<Arrangement>, fixedBase: bool) returns (sum: nat)
    ensures sum == Total(statement, fixedBase)
  {
    sum := 0;
    for i := 0 to |statement|
      invariant sum == Total(statement[..i], fixedBase)
    {
      var n := CountArrangements(statement[i].template, statement[i].parts, fixedBase);
      assert statement[..i + 1][..i] == statement[..i];
      sum := sum + n;
    }
    assert statement[..|statement|] == statement;
  }

  /** `n` copies of `s` one after another (`repeat`). */
  function Repeat(s: string, n: nat): (r: string)
    ensures |r| == n * |s|
  {
    if n == 0 then [] else Repeat(s, n - 1) + s
  }

  /** `n` copies of the template, joined by '?'. */
  function Joined(t: string, n: nat): (r: string)
    requires n >= 1
    ensures |r| == n * |t| + n - 1
  {
    if n == 1 then t else Joined(t, n - 1) + "?" + t
  }

  /** `n` copies of the groups one after another. */
  function Copies(ps: seq<nat>, n: nat): (r: seq<nat>)
    requires n >= 1
    ensures |r| == n * |ps|
  {
    if n == 1 then ps else Copies(ps, n - 1) + ps
  }

  /** Repeating `t + "?"` and dropping the last '?' joins the copies of `t`. */
  lemma {:induction false} RepeatJoined(t: string, n: nat)
    requires n >= 1
    ensures Repeat(t + "?", n) == Joined(t, n) + "?"
  {
    if n > 1 {
      RepeatJoined(t, n - 1);
      assert Repeat(t + "?", n) == (Joined(t, n - 1) + "?") + (t + "?");
      assert (Joined(t, n - 1) + "?") + (t + "?") == (Joined(t, n - 1) + "?" + t) + "?";
    } else {
      assert Repeat(t + "?", 1) == [] + (t + "?");
    }
  }

  /** The unfolded record: five copies of the template joined by '?', and
      five copies of the groups. */
  function Unfolded(a: Arrangement): (u: Arrangement)
    ensures |u.template| == 5 * |a.template| + 4
    ensures |u.parts| == 5 * |a.parts|
  {
    Arrangement(Joined(a.template, 5), Copies(a.parts, 5))
  }

  /** The unfolded record written out. */
  lemma UnfoldedForm(a: Arrangement)
    ensures Unfolded(a).template == a.template + "?" + a.template + "?" + a.template + "?" + a.template + "?" + a.template
    ensures Unfolded(a).parts == a.parts + a.parts + a.parts + a.parts + a.parts
  {
    var t := a.template;
    assert Joined(t, 2) == t + "?" + t;
    assert Joined(t, 3) == t + "?" + t + "?" + t;
    assert Joined(t, 4) == t + "?" + t + "?" + t + "?" + t;
    var ps := a.parts;
    assert Copies(ps, 2) == ps + ps;
    assert Copies(ps, 3) == ps + ps + ps;
    assert Copies(ps, 4) == ps + ps + ps + ps;
  }

  /** The body of the unfolding loop for one record. */
  method Unfold(a: Arrangement) returns (u: Arrangement)
    ensures u == Unfolded(a)
  {
    var template := a.template + "?";
    var repeated := Repeat(template, 5);
    RepeatJoined(a.template, 5);
    var l := |repeated|;
    var t := repeated[..l - 1];
    var parts := a.parts;
    for k := 0 to 4
      invariant parts == Copies(a.parts, k + 1)
    {
      parts := parts + a.parts;
    }
    u := Arrangement(t, parts);
  }

  /** `solve_part_2`: every record unfolded, then part 1. */
  method SolvePart2(statement: seq<Arrangement>, fixedBase: bool) returns (sum: nat)
    ensures sum == Total(seq(|statement|, i requires 0 <= i < |statement| => Unfolded(statement[i])), fixedBase)
  {
    var unfolded := statement;
    for i := 0 to |statement|
      invariant |unfolded| == |statement|
      invariant forall k :: 0 <= k < |statement| ==> unfolded[k] == if k < i then Unfolded(statement[k]) else statement[k]
    {
      var u := Unfold(unfolded[i]);
      unfolded := unfolded[i := u];
    }
    assert unfolded == seq(|statement|, i requires 0 <= i < |statement| => Unfolded(statement[i]));
    sum := SolvePart1(unfolded, fixedBase);
  }
}
