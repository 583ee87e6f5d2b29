/** Day 1 ("Trebuchet?!"): the calibration value of a line is the two-digit
    number made of its first and its last digit. In the second part every
    spelled-out digit word ("one" .. "nine") is first rewritten to its digit,
    position by position, so overlapping words all count. Characters are
    modelled as ASCII; a digit is '0' .. '9'. */
module Trebuchet {

  predicate IsDigit(c: char) {
    '0' <= c <= '9'
  }

  function DigitValue(c: char): (v: nat)
    requires IsDigit(c)
    ensures v <= 9
  {
    (c - '0') as nat
  }

  predicate HasDigit(s: string) {
    exists i :: 0 <= i < |s| && IsDigit(s[i])
  }

  /** `find`: the index of the first digit of `s`. */
  function FirstDigitIndex(s: string): (i: nat)
    requires HasDigit(s)
    ensures i < |s| && IsDigit(s[i])
    ensures forall j :: 0 <= j < i ==> !IsDigit(s[j])
  {
    if IsDigit(s[0]) then 0
    else
      assert HasDigit(s[1..]) by {
        var k :| 0 <= k < |s| && IsDigit(s[k]);
        assert s[1..][k - 1] == s[k];
      }
      1 + FirstDigitIndex(s[1..])
  }

  /** `rfind`: the index of the last digit of `s`. */
  function LastDigitIndex(s: string): (i: nat)
    requires HasDigit(s)
    ensures i < |s| && IsDigit(s[i])
    ensures forall j :: i < j < |s| ==> !IsDigit(s[j])
  {
    if IsDigit(s[|s| - 1]) then |s| - 1
    else
      assert HasDigit(s[..|s| - 1]) by {
        var k :| 0 <= k < |s| && IsDigit(s[k]);
        assert s[..|s| - 1][k] == s[k];
      }
      LastDigitIndex(s[..|s| - 1])
  }

  /** `extract_calibration_value`: the first digit followed by the last digit,
      read as a decimal number. A line without a digit makes the source's
      `unwrap` panic, hence the precondition. */
  function CalibrationValue(line: string): (r: nat)
    requires HasDigit(line)
    ensures r <= 99
    ensures exists i, j ::
              && 0 <= i <= j < |line| && IsDigit(line[i]) && IsDigit(line[j])
              && (forall k :: 0 <= k < i ==> !IsDigit(line[k]))
              && (forall k :: j < k < |line| ==> !IsDigit(line[k]))
              && r == 10 * DigitValue(line[i]) + DigitValue(line[j])
  {
    var i := FirstDigitIndex(line);
    var j := LastDigitIndex(line);
    10 * DigitValue(line[i]) + DigitValue(line[j])
  }

  /** With exactly one digit, `find` and `rfind` meet: the value is 11 times it. */
  lemma SingleDigit(line: string, i: nat)
    requires i < |line| && IsDigit(line[i])
    requires forall k :: 0 <= k < |line| && k != i ==> !IsDigit(line[k])
    ensures CalibrationValue(line) == 11 * DigitValue(line[i])
  {
    assert FirstDigitIndex(line) == i;
    assert LastDigitIndex(line) == i;
  }

  /** The calibration values of all lines, added up. */
  function SumValues(lines: seq<string>): (r: nat)
    requires forall k :: 0 <= k < |lines| ==> HasDigit(lines[k])
    ensures r <= 99 * |lines|
  {
    if lines == [] then 0
    else SumValues(lines[..|lines| - 1]) + CalibrationValue(lines[|lines| - 1])
  }

  function SolvePart1(lines: seq<string>): (r: nat)
    requires forall k :: 0 <= k < |lines| ==> HasDigit(lines[k])
    ensures r <= 99 * |lines|
    ensures lines == [] ==> r == 0
  {
    SumValues(lines)
  }

  // ---------------------------------------------------------------------------
  // The rewrite of spelled digits

  const Words: seq<string> := ["one", "two", "three", "four", "five", "six", "seven", "eight", "nine"]

  /** The digit the k-th word stands for. */
  function WordDigit(k: nat): (c: char)
    requires k < 9
    ensures IsDigit(c) && DigitValue(c) == k + 1
  {
    ('1' as int + k) as char
  }

  /** `&line[i .. min(line.len(), i + p.len())] == p`. */
  predicate WordAt(line: string, i: nat, p: string)
    requires i <= |line|
  {
    line[i..if |line| < i + |p| then |line| else i + |p|] == p
  }

  /** The digits emitted for the first `k` words that start at `i`, in word order. */
  function WordsAt(line: string, i: nat, k: nat): string
    requires i <= |line| && k <= 9
  {
    if k == 0 then []
    else WordsAt(line, i, k - 1) + (if WordAt(line, i, Words[k - 1]) then [WordDigit(k - 1)] else [])
  }

  /** What position `i` contributes: the digit itself, or one digit per word starting there. */
  function Emitted(line: string, i: nat): string
    requires i < |line|
  {
    if IsDigit(line[i]) then [line[i]] else WordsAt(line, i, 9)
  }

  /** The rewrite of the first `n` positions of `line`. */
  function RewrittenPrefix(line: string, n: nat): string
    requires n <= |line|
  {
    if n == 0 then [] else RewrittenPrefix(line, n - 1) + Emitted(line, n - 1)
  }

  function Rewritten(line: string): string {
    RewrittenPrefix(line, |line|)
  }

  /** The loop of `solve_part_2` that builds `line_replaced`. */
  method RewriteLine(line: string) returns (out: string)
    ensures out == Rewritten(line)
  {
    out := [];
    for i := 0 to |line|
      invariant out == RewrittenPrefix(line, i)
    {
      var e := EmitAt(line, i);
      out := out + e;
    }
  }

  /** One position of that loop: a digit is copied, otherwise every word starting there emits its digit. */
  method EmitAt(line: string, i: nat) returns (e: string)
    requires i < |line|
    ensures e == Emitted(line, i)
  {
    var c := line[i];
    if IsDigit(c) {
      e := [c];
    } else {
      e := [];
      for k := 0 to 9
        invariant e == WordsAt(line, i, k)
      {
        if WordAt(line, i, Words[k]) {
          e := e + [WordDigit(k)];
        }
      }
    }
  }

  /** A word cut off by the end of the line never matches. */
  lemma TruncatedWord(line: string, i: nat, p: string)
    requires i <= |line| < i + |p|
    ensures !WordAt(line, i, p)
  {
    assert |line[i..|line|]| < |p|;
  }

  lemma {:induction false} WordsAtDigits(line: string, i: nat, k: nat)
    requires i <= |line| && k <= 9
    ensures forall c :: c in WordsAt(line, i, k) ==> IsDigit(c)
  {
    if k > 0 {
      WordsAtDigits(line, i, k - 1);
    }
  }

  /** The rewritten line holds digits only. */
  lemma {:induction false} RewrittenPrefixDigits(line: string, n: nat)
    requires n <= |line|
    ensures forall c :: c in RewrittenPrefix(line, n) ==> IsDigit(c)
  {
    if n > 0 {
      RewrittenPrefixDigits(line, n - 1);
      EmittedDigits(line, n - 1);
      DigitsConcat(RewrittenPrefix(line, n - 1), Emitted(line, n - 1));
    }
  }

  lemma DigitsConcat(a: string, b: string)
    requires forall c :: c in a ==> IsDigit(c)
    requires forall c :: c in b ==> IsDigit(c)
    ensures forall c :: c in a + b ==> IsDigit(c)
  { }

  lemma EmittedDigits(line: string, i: nat)
    requires i < |line|
    ensures forall c :: c in Emitted(line, i) ==> IsDigit(c)
  {
    if !IsDigit(line[i]) {
      WordsAtDigits(line, i, 9);
    }
  }

  /** Position `i` emits, for the first `k` words, only their digits. */
  lemma {:induction false} WordsAtBelow(line: string, i: nat, k: nat)
    requires i <= |line| && k <= 9
    ensures forall c :: c in WordsAt(line, i, k) ==> IsDigit(c) && 1 <= DigitValue(c) <= k
  {
    if k > 0 {
      WordsAtBelow(line, i, k - 1);
    }
  }

  /** The digit of every word starting at `i` is among those emitted there,
      and no other digit is. */
  lemma {:induction false} WordsAtMatch(line: string, i: nat, k: nat)
    requires i <= |line| && k <= 9
    ensures forall w :: 0 <= w < k ==> (WordAt(line, i, Words[w]) <==> WordDigit(w) in WordsAt(line, i, k))
  {
    if k > 0 {
      WordsAtMatch(line, i, k - 1);
      WordsAtBelow(line, i, k - 1);
      var last := if WordAt(line, i, Words[k - 1]) then [WordDigit(k - 1)] else [];
      assert WordsAt(line, i, k) == WordsAt(line, i, k - 1) + last;
      forall w | 0 <= w < k
        ensures WordAt(line, i, Words[w]) <==> WordDigit(w) in WordsAt(line, i, k)
      {
        assert WordDigit(w) in WordsAt(line, i, k) <==> WordDigit(w) in WordsAt(line, i, k - 1) || WordDigit(w) in last;
        if w < k - 1 {
          assert DigitValue(WordDigit(w)) != DigitValue(WordDigit(k - 1));
        } else {
          assert WordDigit(w) !in WordsAt(line, i, k - 1);
        }
      }
    }
  }

  /** Position `i` contributes its digit, or exactly the digits of the words starting there. */
  lemma EmittedAt(line: string, i: nat)
    requires i < |line|
    ensures IsDigit(line[i]) ==> Emitted(line, i) == [line[i]]
    ensures !IsDigit(line[i]) ==>
              forall w :: 0 <= w < 9 ==> (WordAt(line, i, Words[w]) <==> WordDigit(w) in Emitted(line, i))
    ensures !IsDigit(line[i]) ==> |Emitted(line, i)| <= 9
  {
    if !IsDigit(line[i]) {
      WordsAtMatch(line, i, 9);
      WordsAtLength(line, i, 9);
    }
  }

  lemma {:induction false} WordsAtLength(line: string, i: nat, k: nat)
    requires i <= |line| && k <= 9
    ensures |WordsAt(line, i, k)| <= k
  {
    if k > 0 {
      WordsAtLength(line, i, k - 1);
    }
  }

  /** Overlapping words both count: "twone" becomes "21". */
  lemma Twone()
    ensures Rewritten("twone") == "21"
  {
    TwonePrefix("twone", 5);
  }

  /** The rewrite of the first `n` positions of "twone". */
  lemma {:induction false} TwonePrefix(s: string, n: nat)
    requires s == "twone" && n <= 5
    ensures RewrittenPrefix(s, n) == if n == 0 then [] else if n <= 2 then "2" else "21"
  {
    if n > 0 {
      TwonePrefix(s, n - 1);
      TwoneAt(n - 1);
    }
  }

  /** What each position of "twone" emits: "two" at 0, "one" at 2. */
  lemma TwoneAt(i: nat)
    requires i < 5
    ensures Emitted("twone", i) == if i == 0 then "2" else if i == 2 then "1" else []
  {
    if i == 0 {
      TwoneAtTwo();
    } else if i == 2 {
      TwoneAtOne();
    } else {
      TwoneAtNone(i);
    }
  }

  /** "two" starts at position 0 of "twone" and no other word does. */
  lemma TwoneAtTwo()
    ensures Emitted("twone", 0) == "2"
  {
    var s := "twone";
    assert s[0..3] == Words[1];
    forall w | 0 <= w < 9 && w != 1 ensures !WordAt(s, 0, Words[w]) {
      NoWordAt(s, 0, w);
    }
    WordsAtOnly(s, 0, 9, 1);
  }

  /** "one" starts at position 2 of "twone" and no other word does. */
  lemma TwoneAtOne()
    ensures Emitted("twone", 2) == "1"
  {
    var s := "twone";
    assert s[2..5] == Words[0];
    forall w | 1 <= w < 9 ensures !WordAt(s, 2, Words[w]) {
      NoWordAt(s, 2, w);
    }
    WordsAtOnly(s, 2, 9, 0);
  }

  /** No word starts at positions 1, 3 and 4 of "twone". */
  lemma TwoneAtNone(i: nat)
    requires i < 5 && i != 0 && i != 2
    ensures Emitted("twone", i) == []
  {
    var s := "twone";
    forall w | 0 <= w < 9 ensures !WordAt(s, i, Words[w]) {
      NoWordAt(s, i, w);
    }
    WordsAtNone(s, i, 9);
  }


  /** The word that starts with the letter at `i` is the only candidate there. */
  lemma NoWordAt(s: string, i: nat, w: nat)
    requires s == "twone" && i < 5 && w < 9
    requires !(i == 0 && w == 1) && !(i == 2 && w == 0)
    ensures !WordAt(s, i, Words[w])
  {
    if i + |Words[w]| > 5 {
      TruncatedWord(s, i, Words[w]);
    } else {
      assert s[i..i + |Words[w]|][0] == s[i];
      assert Words[w][0] != s[i] || Words[w][1] != s[i + 1] || Words[w][2] != s[i + 2];
    }
  }

  lemma {:induction false} WordsAtNone(line: string, i: nat, k: nat)
    requires i <= |line| && k <= 9
    requires forall w :: 0 <= w < k ==> !WordAt(line, i, Words[w])
    ensures WordsAt(line, i, k) == []
  {
    if k > 0 {
      WordsAtNone(line, i, k - 1);
    }
  }

  lemma {:induction false} WordsAtOnly(line: string, i: nat, k: nat, m: nat)
    requires i <= |line| && m < k <= 9 && WordAt(line, i, Words[m])
    requires forall w :: 0 <= w < k && w != m ==> !WordAt(line, i, Words[w])
    ensures WordsAt(line, i, k) == [WordDigit(m)]
  {
    if k - 1 == m {
      WordsAtNone(line, i, m);
    } else {
      WordsAtOnly(line, i, k - 1, m);
    }
  }

  /** Every digit of the line survives the rewrite, so the rewritten line has
      a calibration value whenever the original has one. */
  lemma {:induction false} RewrittenKeepsDigit(line: string, n: nat, i: nat)
    requires i < n <= |line| && IsDigit(line[i])
    ensures HasDigit(RewrittenPrefix(line, n))
  {
    if i == n - 1 {
      var r := RewrittenPrefix(line, n);
      assert r[|r| - 1] == line[i];
    } else {
      RewrittenKeepsDigit(line, n - 1, i);
      var k :| 0 <= k < |RewrittenPrefix(line, n - 1)| && IsDigit(RewrittenPrefix(line, n - 1)[k]);
      assert RewrittenPrefix(line, n)[k] == RewrittenPrefix(line, n - 1)[k];
    }
  }

  /** Part 2: the calibration values of the rewritten lines, added up. */
  method SolvePart2(lines: seq<string>) returns (sum: nat)
    requires forall k :: 0 <= k < |lines| ==> HasDigit(Rewritten(lines[k]))
    ensures sum == SumValues(seq(|lines|, k requires 0 <= k < |lines| => Rewritten(lines[k])))
    ensures sum <= 99 * |lines|
  {
    ghost var rewritten := seq(|lines|, k requires 0 <= k < |lines| => Rewritten(lines[k]));
    sum := 0;
    for n := 0 to |lines|
      invariant sum == SumValues(rewritten[..n])
    {
      var line := RewriteLine(lines[n]);
      assert rewritten[..n + 1][..n] == rewritten[..n];
      sum := sum + CalibrationValue(line);
    }
    assert rewritten[..|lines|] == rewritten;
  }
}
