/** Day 5 ("If You Give A Seed A Fertilizer"): a chain of maps takes a seed
    number to a location number. Each map is a list of entries
    [destination, source, length]; a value in [source, source + length) moves
    by destination - source under the first entry that contains it, and a
    value no entry contains is kept. Part 1 maps single seeds; part 2 finds
    the least location over whole ranges of seeds by splitting each range at
    entry boundaries and recursing. u128 arithmetic is modelled by unbounded
    naturals (no value reaches u128::MAX). */
module SeedFertilizer {

  const U128Max: nat := 0xFFFF_FFFF_FFFF_FFFF_FFFF_FFFF_FFFF_FFFF

  /** One line [dst, src, len] of a map. */
  datatype Entry = Entry(dst: nat, src: nat, len: nat)

  type Maps = seq<seq<Entry>>

  function Min(a: nat, b: nat): nat {
    if a <= b then a else b
  }

  predicate InEntry(r: Entry, v: nat) {
    r.src <= v < r.src + r.len
  }

  // ---------------------------------------------------------------------------
  // Mapping one value

  /** The value after the entries from `j` on are tried in order. */
  function MapFrom(entries: seq<Entry>, j: nat, v: nat): nat
    decreases |entries| - j
  {
    if j >= |entries| then v
    else if InEntry(entries[j], v) then entries[j].dst + v - entries[j].src
    else MapFrom(entries, j + 1, v)
  }

  function MapValue(entries: seq<Entry>, v: nat): nat {
    MapFrom(entries, 0, v)
  }

  /** The location of `v` once the maps from `idx` on are applied. */
  function LocationFrom(maps: Maps, idx: nat, v: nat): nat
    requires idx <= |maps|
    decreases |maps| - idx
  {
    if idx == |maps| then v else LocationFrom(maps, idx + 1, MapValue(maps[idx], v))
  }

  function Location(maps: Maps, v: nat): nat {
    LocationFrom(maps, 0, v)
  }

  /** Entries that do not contain `v` do not affect it: the first entry that
      does decides, and with none the value is kept. */
  lemma {:induction false} SkipEntries(entries: seq<Entry>, j: nat, v: nat)
    requires j <= |entries|
    requires forall k :: 0 <= k < j ==> !InEntry(entries[k], v)
    ensures MapValue(entries, v) == MapFrom(entries, j, v)
    ensures j == |entries| ==> MapValue(entries, v) == v
    ensures j < |entries| && InEntry(entries[j], v) ==> MapValue(entries, v) == entries[j].dst + v - entries[j].src
  {
    if j > 0 {
      SkipEntries(entries, j - 1, v);
    }
  }

  /** The inner `for r in location` loop of `solve_part_1`, which stops at the first entry containing the value. */
  method ApplyMap(entries: seq<Entry>, v: nat) returns (w: nat)
    ensures w == MapValue(entries, v)
  {
    w := v;
    var j := 0;
    while j < |entries|
      invariant 0 <= j <= |entries|
      invariant forall k :: 0 <= k < j ==> !InEntry(entries[k], v)
    {
      var r := entries[j];
      if v >= r.src && v < r.src + r.len {
        SkipEntries(entries, j, v);
        return r.dst + v - r.src;
      }
      j := j + 1;
    }
    SkipEntries(entries, j, v);
  }

  /** The `current_location` loop over all maps. */
  method SeedLocation(maps: Maps, seed: nat) returns (loc: nat)
    ensures loc == Location(maps, seed)
  {
    loc := seed;
    for idx := 0 to |maps|
      invariant LocationFrom(maps, idx, loc) == Location(maps, seed)
    {
      loc := ApplyMap(maps[idx], loc);
    }
  }

  /** `solve_part_1`: the least location of any seed, starting from u128::MAX. */
  method SolvePart1(seeds: seq<nat>, maps: Maps) returns (lowest: nat)
    ensures lowest <= U128Max
    ensures forall k :: 0 <= k < |seeds| ==> lowest <= Location(maps, seeds[k])
    ensures lowest == U128Max || exists k :: 0 <= k < |seeds| && lowest == Location(maps, seeds[k])
  {
    lowest := U128Max;
    for n := 0 to |seeds|
      invariant lowest <= U128Max
      invariant forall k :: 0 <= k < n ==> lowest <= Location(maps, seeds[k])
      invariant lowest == U128Max || exists k :: 0 <= k < n && lowest == Location(maps, seeds[k])
    {
      var loc := SeedLocation(maps, seeds[n]);
      lowest := Min(lowest, loc);
    }
  }

  // ---------------------------------------------------------------------------
  // Whole ranges: get_range_lowest_location

  /** The straddle test of the third branch. As written it is strict, so a range
      that ends exactly at source + length is never split. */
  predicate Straddles(hi: nat, r: Entry, asWritten: bool) {
    if asWritten then hi > r.src + r.len else hi >= r.src + r.len
  }

  /** `get_range_lowest_location(data, (lo, hi), idx)` while its loop is at entry `j`
      of map `idx`; `asWritten` selects the source's straddle test, otherwise
      the corrected one. Same-map calls get a strictly narrower range; the
      others move to the next map. */
  function RangeLowest(maps: Maps, lo: nat, hi: nat, idx: nat, j: nat, asWritten: bool): nat
    requires lo <= hi && idx <= |maps| && (idx < |maps| ==> j <= |maps[idx]|)
    decreases |maps| - idx, hi - lo, if idx < |maps| then |maps[idx]| - j else 0
  {
    if idx == |maps| then lo
    else if j == |maps[idx]| then RangeLowest(maps, lo, hi, idx + 1, 0, asWritten)
    else
      var r := maps[idx][j];
      if r.src <= lo < r.src + r.len then
        var a := RangeLowest(maps, r.dst + lo - r.src, r.dst + Min(hi, r.src + r.len - 1) - r.src, idx + 1, 0, asWritten);
        if hi >= r.src + r.len then Min(a, RangeLowest(maps, r.src + r.len, hi, idx, 0, asWritten)) else a
      else if r.src <= hi < r.src + r.len then
        var a := RangeLowest(maps, r.dst, r.dst + hi - r.src, idx + 1, 0, asWritten);
        Min(a, RangeLowest(maps, lo, r.src - 1, idx, 0, asWritten))
      else if lo < r.src && Straddles(hi, r, asWritten) then
        var a := RangeLowest(maps, lo, r.src - 1, idx, 0, asWritten);
        Min(a, RangeLowest(maps, r.src, hi, idx, 0, asWritten))
      else RangeLowest(maps, lo, hi, idx, j + 1, asWritten)
  }

  /** `m` is the least location, from map `idx` on, of a value in [lo, hi]. */
  predicate IsMinOver(maps: Maps, idx: nat, lo: nat, hi: nat, m: nat)
    requires idx <= |maps|
  {
    && (forall v :: lo <= v <= hi ==> m <= LocationFrom(maps, idx, v))
    && (exists v :: lo <= v <= hi && m == LocationFrom(maps, idx, v))
  }

  /** A range whose values all map by the same shift has the least location of its image. */
  lemma ShiftMin(maps: Maps, idx: nat, lo: nat, hi: nat, lo2: nat, m: nat)
    requires idx < |maps| && lo <= hi
    requires forall v :: lo <= v <= hi ==> LocationFrom(maps, idx, v) == LocationFrom(maps, idx + 1, v - lo + lo2)
    requires IsMinOver(maps, idx + 1, lo2, lo2 + (hi - lo), m)
    ensures IsMinOver(maps, idx, lo, hi, m)
  {
    forall v | lo <= v <= hi ensures m <= LocationFrom(maps, idx, v) {
      assert LocationFrom(maps, idx, v) == LocationFrom(maps, idx + 1, v - lo + lo2);
    }
    var w :| lo2 <= w <= lo2 + (hi - lo) && m == LocationFrom(maps, idx + 1, w);
    var v := w - lo2 + lo;
    assert LocationFrom(maps, idx, v) == LocationFrom(maps, idx + 1, w);
  }

  /** The least location over two adjacent ranges is the lesser of theirs. */
  lemma UnionMin(maps: Maps, idx: nat, lo: nat, mid: nat, hi: nat, a: nat, b: nat)
    requires idx <= |maps| && lo <= mid < hi
    requires IsMinOver(maps, idx, lo, mid, a) && IsMinOver(maps, idx, mid + 1, hi, b)
    ensures IsMinOver(maps, idx, lo, hi, Min(a, b)) && IsMinOver(maps, idx, lo, hi, Min(b, a))
  {
    var va :| lo <= va <= mid && a == LocationFrom(maps, idx, va);
    var vb :| mid + 1 <= vb <= hi && b == LocationFrom(maps, idx, vb);
    if a <= b {
      assert lo <= va <= hi;
    } else {
      assert lo <= vb <= hi;
    }
  }

  /** Map `idx` moves every value of [lo, hi] by the same shift, through entry `j`,
      when none of the entries before `j` contains any of them. */
  lemma EntryShift(maps: Maps, idx: nat, j: nat, lo: nat, hi: nat)
    requires idx < |maps| && j < |maps[idx]| && lo <= hi && InEntry(maps[idx][j], lo)
    requires forall v :: lo <= v <= hi ==> InEntry(maps[idx][j], v)
    requires forall k, v :: 0 <= k < j && lo <= v <= hi ==> !InEntry(maps[idx][k], v)
    ensures var r := maps[idx][j];
            forall v :: lo <= v <= hi ==>
              LocationFrom(maps, idx, v) == LocationFrom(maps, idx + 1, v - lo + (r.dst + lo - r.src))
  {
    var r := maps[idx][j];
    forall v | lo <= v <= hi
      ensures LocationFrom(maps, idx, v) == LocationFrom(maps, idx + 1, v - lo + (r.dst + lo - r.src))
    {
      SkipEntries(maps[idx], j, v);
    }
  }

  /** With the corrected straddle test the search returns the least location
      over the whole range. The source's strict test gives the same guarantee
      for one-value ranges, which is what part 1 computes. */
  lemma {:induction false} RangeLowestIsMin(maps: Maps, lo: nat, hi: nat, idx: nat, j: nat, asWritten: bool)
    requires lo <= hi && idx <= |maps| && (idx < |maps| ==> j <= |maps[idx]|)
    requires asWritten ==> lo == hi
    requires idx < |maps| ==> forall k, v :: 0 <= k < j && lo <= v <= hi ==> !InEntry(maps[idx][k], v)
    ensures IsMinOver(maps, idx, lo, hi, RangeLowest(maps, lo, hi, idx, j, asWritten))
    decreases |maps| - idx, hi - lo, if idx < |maps| then |maps[idx]| - j else 0, 1
  {
    if idx == |maps| {
      assert LocationFrom(maps, idx, lo) == lo;
    } else if j == |maps[idx]| {
      var res := RangeLowest(maps, lo, hi, idx + 1, 0, asWritten);
      RangeLowestIsMin(maps, lo, hi, idx + 1, 0, asWritten);
      forall v | lo <= v <= hi ensures LocationFrom(maps, idx, v) == LocationFrom(maps, idx + 1, v - lo + lo) {
        SkipEntries(maps[idx], j, v);
      }
      ShiftMin(maps, idx, lo, hi, lo, res);
    } else {
      var r := maps[idx][j];
      if r.src <= lo < r.src + r.len {
        StartInside(maps, lo, hi, idx, j, asWritten);
      } else if r.src <= hi < r.src + r.len {
        EndInside(maps, lo, hi, idx, j, asWritten);
      } else if lo < r.src && Straddles(hi, r, asWritten) {
        var a := RangeLowest(maps, lo, r.src - 1, idx, 0, asWritten);
        var b := RangeLowest(maps, r.src, hi, idx, 0, asWritten);
        assert RangeLowest(maps, lo, hi, idx, j, asWritten) == Min(a, b);
        RangeLowestIsMin(maps, lo, r.src - 1, idx, 0, asWritten);
        RangeLowestIsMin(maps, r.src, hi, idx, 0, asWritten);
        UnionMin(maps, idx, lo, r.src - 1, hi, a, b);
      } else {
        forall k, v | 0 <= k < j + 1 && lo <= v <= hi ensures !InEntry(maps[idx][k], v) {
          if k == j {
            assert !InEntry(r, lo) && !InEntry(r, hi);
          }
        }
        assert RangeLowest(maps, lo, hi, idx, j, asWritten) == RangeLowest(maps, lo, hi, idx, j + 1, asWritten);
        RangeLowestIsMin(maps, lo, hi, idx, j + 1, asWritten);
      }
    }
  }

  /** The range starts inside entry `j`: its part inside moves to the next map,
      the rest, if any, is searched again on this map. */
  lemma {:induction false} StartInside(maps: Maps, lo: nat, hi: nat, idx: nat, j: nat, asWritten: bool)
    requires lo <= hi && idx < |maps| && j < |maps[idx]|
    requires asWritten ==> lo == hi
    requires forall k, v :: 0 <= k < j && lo <= v <= hi ==> !InEntry(maps[idx][k], v)
    requires InEntry(maps[idx][j], lo)
    ensures IsMinOver(maps, idx, lo, hi, RangeLowest(maps, lo, hi, idx, j, asWritten))
    decreases |maps| - idx, hi - lo, |maps[idx]| - j, 0
  {
    var r := maps[idx][j];
    var m := Min(hi, r.src + r.len - 1);
    var a := RangeLowest(maps, r.dst + lo - r.src, r.dst + m - r.src, idx + 1, 0, asWritten);
    RangeLowestIsMin(maps, r.dst + lo - r.src, r.dst + m - r.src, idx + 1, 0, asWritten);
    EntryShift(maps, idx, j, lo, m);
    ShiftMin(maps, idx, lo, m, r.dst + lo - r.src, a);
    if hi >= r.src + r.len {
      var b := RangeLowest(maps, r.src + r.len, hi, idx, 0, asWritten);
      assert RangeLowest(maps, lo, hi, idx, j, asWritten) == Min(a, b);
      RangeLowestIsMin(maps, r.src + r.len, hi, idx, 0, asWritten);
      UnionMin(maps, idx, lo, m, hi, a, b);
    } else {
      assert RangeLowest(maps, lo, hi, idx, j, asWritten) == a;
    }
  }

  /** Only the end of the range lies inside entry `j`: that part moves to the
      next map, the part before the entry is searched again on this map. */
  lemma {:induction false} EndInside(maps: Maps, lo: nat, hi: nat, idx: nat, j: nat, asWritten: bool)
    requires lo <= hi && idx < |maps| && j < |maps[idx]|
    requires asWritten ==> lo == hi
    requires forall k, v :: 0 <= k < j && lo <= v <= hi ==> !InEntry(maps[idx][k], v)
    requires !InEntry(maps[idx][j], lo) && InEntry(maps[idx][j], hi)
    ensures IsMinOver(maps, idx, lo, hi, RangeLowest(maps, lo, hi, idx, j, asWritten))
    decreases |maps| - idx, hi - lo, |maps[idx]| - j, 0
  {
    var r := maps[idx][j];
    var a := RangeLowest(maps, r.dst, r.dst + hi - r.src, idx + 1, 0, asWritten);
    var b := RangeLowest(maps, lo, r.src - 1, idx, 0, asWritten);
    assert RangeLowest(maps, lo, hi, idx, j, asWritten) == Min(a, b);
    RangeLowestIsMin(maps, r.dst, r.dst + hi - r.src, idx + 1, 0, asWritten);
    EntryShift(maps, idx, j, r.src, hi);
    ShiftMin(maps, idx, r.src, hi, r.dst, a);
    RangeLowestIsMin(maps, lo, r.src - 1, idx, 0, asWritten);
    UnionMin(maps, idx, lo, r.src - 1, hi, b, a);
  }

  /** The least location over [lo, hi], as the corrected search computes it. */
  function RangeLowestLocation(maps: Maps, lo: nat, hi: nat): (m: nat)
    requires lo <= hi
    ensures IsMinOver(maps, 0, lo, hi, m)
  {
    RangeLowestIsMin(maps, lo, hi, 0, 0, false);
    RangeLowest(maps, lo, hi, 0, 0, false)
  }

  /** On a one-value range (s, s) the search, also as written, yields the part-1 location of s. */
  lemma SingleSeed(maps: Maps, s: nat)
    ensures RangeLowest(maps, s, s, 0, 0, true) == Location(maps, s)
    ensures RangeLowest(maps, s, s, 0, 0, false) == Location(maps, s)
  {
    RangeLowestIsMin(maps, s, s, 0, 0, true);
    RangeLowestIsMin(maps, s, s, 0, 0, false);
  }

  /** As written, the range (4, 6) against the single entry [0, 5, 1] is not
      split: it neither starts nor ends inside [5, 6), and 6 > 5 + 1 fails. The
      search returns 4, yet seed 5 reaches location 0. */
  lemma StrictStraddleMissesEntry()
    ensures RangeLowest([[Entry(0, 5, 1)]], 4, 6, 0, 0, true) == 4
    ensures Location([[Entry(0, 5, 1)]], 5) == 0
    ensures RangeLowest([[Entry(0, 5, 1)]], 4, 6, 0, 0, false) == 0
  {
    var maps := [[Entry(0, 5, 1)]];
    assert RangeLowest(maps, 4, 6, 0, 1, true) == 4;
    assert RangeLowest(maps, 4, 6, 0, 0, true) == RangeLowest(maps, 4, 6, 0, 1, true);
    assert MapValue(maps[0], 5) == 0;
    assert LocationFrom(maps, 1, 0) == 0;
    var m := RangeLowestLocation(maps, 4, 6);
    assert m <= Location(maps, 5);
  }

  // ---------------------------------------------------------------------------
  // Part 2

  /** Seeds come in pairs (start, length); every length is at least one, and
      there is no odd seed out (`seeds[i + 1]` would panic). A zero length
      makes the source's `start + length - 1` underflow at start 0 and
      otherwise hands the range search the empty range (start, start - 1),
      which this model's search is not defined on. */
  predicate ValidSeedPairs(seeds: seq<nat>) {
    |seeds| % 2 == 0 && forall i :: 0 <= i < |seeds| && i % 2 == 1 ==> seeds[i] >= 1
  }

  /** `v` lies in the pair starting at index `i`. */
  predicate InSeedRange(seeds: seq<nat>, i: nat, v: nat) {
    i + 1 < |seeds| && i % 2 == 0 && seeds[i] <= v < seeds[i] + seeds[i + 1]
  }

  /** Every range holds a single seed, where the strict straddle test does
      no harm. */
  predicate SingleSeeds(seeds: seq<nat>) {
    forall i :: 0 <= i < |seeds| && i % 2 == 1 ==> seeds[i] == 1
  }

  /** The running minimum of part 2 after the first `n` entries of `seeds`,
      pair by pair, with the straddle test `asWritten` selects. */
  function PairsLowest(seeds: seq<nat>, maps: Maps, n: nat, asWritten: bool): nat
    requires ValidSeedPairs(seeds) && n <= |seeds| && n % 2 == 0
  {
    if n == 0 then U128Max
    else Min(PairsLowest(seeds, maps, n - 2, asWritten), RangeLowest(maps, seeds[n - 2], seeds[n - 2] + seeds[n - 1] - 1, 0, 0, asWritten))
  }

  /** With the corrected test, or with single-seed ranges, the running minimum
      is the least location of any seed in the first `n / 2` ranges, or
      u128::MAX while there is none. */
  lemma {:induction false} PairsLowestIsMin(seeds: seq<nat>, maps: Maps, n: nat, asWritten: bool)
    requires ValidSeedPairs(seeds) && n <= |seeds| && n % 2 == 0
    requires !asWritten || SingleSeeds(seeds)
    ensures PairsLowest(seeds, maps, n, asWritten) <= U128Max
    ensures forall i: nat, v: nat :: i < n && InSeedRange(seeds, i, v) ==> PairsLowest(seeds, maps, n, asWritten) <= Location(maps, v)
    ensures PairsLowest(seeds, maps, n, asWritten) == U128Max ||
            exists i: nat, v: nat :: i < n && InSeedRange(seeds, i, v) && PairsLowest(seeds, maps, n, asWritten) == Location(maps, v)
  {
    if n > 0 {
      PairsLowestIsMin(seeds, maps, n - 2, asWritten);
      var lo, hi := seeds[n - 2], seeds[n - 2] + seeds[n - 1] - 1;
      RangeLowestIsMin(maps, lo, hi, 0, 0, asWritten);
      var m := RangeLowest(maps, lo, hi, 0, 0, asWritten);
      var v :| lo <= v <= hi && m == LocationFrom(maps, 0, v);
      assert InSeedRange(seeds, n - 2, v);
      forall i: nat, w: nat | i < n && InSeedRange(seeds, i, w)
        ensures PairsLowest(seeds, maps, n, asWritten) <= Location(maps, w)
      {
        if i == n - 2 {
          assert lo <= w <= hi;
        }
      }
    }
  }

  /** `solve_part_2`: the running minimum over the pairs (start, length) of
      the range search on (start, start + length - 1), with the source's
      straddle test when `asWritten` and the corrected one otherwise. With
      the corrected test, or when every range holds one seed, that is the
      least location of any seed in the ranges, or u128::MAX with no pairs.
      StrictStraddleMissesEntry shows that as written it can be larger. */
  method SolvePart2(seeds: seq<nat>, maps: Maps, asWritten: bool) returns (lowest: nat)
    requires ValidSeedPairs(seeds)
    ensures lowest == PairsLowest(seeds, maps, |seeds|, asWritten)
    ensures !asWritten || SingleSeeds(seeds) ==>
      (forall i: nat, v: nat :: InSeedRange(seeds, i, v) ==> lowest <= Location(maps, v)) &&
      (lowest == U128Max || exists i: nat, v: nat :: InSeedRange(seeds, i, v) && lowest == Location(maps, v))
  {
    lowest := U128Max;
    var i := 0;
    while i < |seeds|
      invariant 0 <= i <= |seeds| && i % 2 == 0
      invariant lowest == PairsLowest(seeds, maps, i, asWritten)
    {
      var lo, hi := seeds[i], seeds[i] + seeds[i + 1] - 1;
      var m := RangeLowest(maps, lo, hi, 0, 0, asWritten);
      lowest := Min(lowest, m);
      i := i + 2;
    }
    if !asWritten || SingleSeeds(seeds) {
      PairsLowestIsMin(seeds, maps, |seeds|, asWritten);
      forall p: nat, v: nat | InSeedRange(seeds, p, v)
        ensures lowest <= Location(maps, v)
      {
      }
    }
  }
}
