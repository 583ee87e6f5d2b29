/** Day 7 ("Camel Cards"): hands of five cards are ranked first by their type
    (five of a kind down to high card), which the two largest card counts
    decide, then card by card. Part 2 reads J as a joker: it is the weakest
    card when hands are compared card by card, and its count is added to the
    largest count of the other cards when the type is decided. The winnings
    are the bids weighted by rank. */
module CamelCards {

  datatype Card = N2 | N3 | N4 | N5 | N6 | N7 | N8 | N9 | T | J | Q | K | A

  /** The enum discriminant, `card as usize`. */
  function Index(c: Card): (i: nat)
    ensures i < 13
  {
    match c
    case N2 => 0 case N3 => 1 case N4 => 2 case N5 => 3 case N6 => 4 case N7 => 5 case N8 => 6
    case N9 => 7 case T => 8 case J => 9 case Q => 10 case K => 11 case A => 12
  }

  /** `Card::cards()`, in enum order. */
  const AllCards: seq<Card> := [N2, N3, N4, N5, N6, N7, N8, N9, T, J, Q, K, A]

  lemma AllCardsIndex(c: Card)
    ensures AllCards[Index(c)] == c
    ensures forall i :: 0 <= i < 13 ==> Index(AllCards[i]) == i
  {
  }

  /** `Card::from_char`: any character that is not a known card reads as A. */
  function FromChar(ch: char): Card {
    match ch
    case '2' => N2 case '3' => N3 case '4' => N4 case '5' => N5 case '6' => N6 case '7' => N7
    case '8' => N8 case '9' => N9 case 'T' => T case 'J' => J case 'Q' => Q case 'K' => K
    case _ => A
  }

  const CardValuesP1: seq<nat> := [0, 1, 2, 3, 4, 5, 6, 7, 8, 9, 10, 11, 12]
  const CardValuesP2: seq<nat> := [1, 2, 3, 4, 5, 6, 7, 8, 9, 0, 10, 11, 12]

  /** The strength of a card when hands are compared card by card. */
  function Value(c: Card, joker: bool): nat {
    if joker then CardValuesP2[Index(c)] else CardValuesP1[Index(c)]
  }

  /** Part 1 follows the enum order; part 2 makes J the weakest card and keeps
      the order of all others. Both are one-to-one. */
  lemma ValueOrder(c: Card, d: Card)
    ensures Value(c, false) == Index(c)
    ensures Value(J, true) == 0 && (c != J ==> Value(c, true) > 0)
    ensures c != J && d != J ==> (Value(c, true) < Value(d, true) <==> Index(c) < Index(d))
    ensures Value(c, false) == Value(d, false) ==> c == d
    ensures Value(c, true) == Value(d, true) ==> c == d
  {
  }

  datatype HandType = HighCard | OnePair | TwoPair | ThreeOfAKind | FullHouse | FourOfAKind | FiveOfAKind

  /** The derived `Ord` of `HandType`: declaration order. */
  function Rank(t: HandType): nat {
    match t
    case HighCard => 0 case OnePair => 1 case TwoPair => 2 case ThreeOfAKind => 3
    case FullHouse => 4 case FourOfAKind => 5 case FiveOfAKind => 6
  }

  datatype Hand = Hand(cards: seq<Card>, handType: HandType, handTypeAlt: HandType)

  // ---------------------------------------------------------------------------
  // Card counts

  function CountOf(cards: seq<Card>, c: Card): nat {
    if cards == [] then 0
    else CountOf(cards[..|cards| - 1], c) + if cards[|cards| - 1] == c then 1 else 0
  }

  /** Three different cards together occur at most as often as the hand is long. */
  lemma {:induction false} CountTriple(cards: seq<Card>, c: Card, d: Card, e: Card)
    ensures CountOf(cards, c) <= |cards|
    ensures c != d ==> CountOf(cards, c) + CountOf(cards, d) <= |cards|
    ensures c != d && d != e && c != e ==> CountOf(cards, c) + CountOf(cards, d) + CountOf(cards, e) <= |cards|
  {
    if cards != [] {
      CountTriple(cards[..|cards| - 1], c, d, e);
    }
  }

  /** The unsorted `card_counts`: one (count, card) pair per card, in enum order. */
  function CardCounts(cards: seq<Card>): (s: seq<(nat, Card)>)
    ensures |s| == 13
    ensures forall i :: 0 <= i < 13 ==> s[i] == (CountOf(cards, AllCards[i]), AllCards[i])
  {
    seq(13, i requires 0 <= i < 13 => (CountOf(cards, AllCards[i]), AllCards[i]))
  }

  /** The sum of the counts in a list of (count, card) pairs. */
  function CountSum(s: seq<(nat, Card)>): nat {
    if s == [] then 0 else CountSum(s[..|s| - 1]) + s[|s| - 1].0
  }

  /** The counts add up to the number of cards. */
  lemma {:induction false} CardCountsSum(cards: seq<Card>)
    ensures CountSum(CardCounts(cards)) == |cards|
  {
    if cards == [] {
      SumZero(CardCounts(cards));
    } else {
      var init := cards[..|cards| - 1];
      var last := cards[|cards| - 1];
      CardCountsSum(init);
      AllCardsIndex(last);
      forall i | 0 <= i < 13
        ensures CountOf(cards, AllCards[i]) == CountOf(init, AllCards[i]) + if i == Index(last) then 1 else 0
      {
      }
      SumBumped(CardCounts(cards), CardCounts(init), Index(last));
    }
  }

  /** Raising one count by one raises the sum by one. */
  lemma {:induction false} SumBumped(a: seq<(nat, Card)>, b: seq<(nat, Card)>, k: nat)
    requires |a| == |b| && k < |a|
    requires a[k].0 == b[k].0 + 1
    requires forall i :: 0 <= i < |a| && i != k ==> a[i].0 == b[i].0
    ensures CountSum(a) == CountSum(b) + 1
  {
    var n := |a| - 1;
    if k == n {
      SumSame(a[..n], b[..n]);
    } else {
      SumBumped(a[..n], b[..n], k);
    }
  }

  lemma {:induction false} SumZero(a: seq<(nat, Card)>)
    requires forall i :: 0 <= i < |a| ==> a[i].0 == 0
    ensures CountSum(a) == 0
  {
    if a != [] {
      SumZero(a[..|a| - 1]);
    }
  }

  lemma {:induction false} SumSame(a: seq<(nat, Card)>, b: seq<(nat, Card)>)
    requires |a| == |b| && forall i :: 0 <= i < |a| ==> a[i].0 == b[i].0
    ensures CountSum(a) == CountSum(b)
  {
    if a != [] {
      SumSame(a[..|a| - 1], b[..|b| - 1]);
    }
  }

  /** The tuple order `card_counts.sort()` uses: by count, then by card. */
  predicate PairLess(a: (nat, Card), b: (nat, Card)) {
    a.0 < b.0 || (a.0 == b.0 && Index(a.1) < Index(b.1))
  }

  function Insert(s: seq<(nat, Card)>, x: (nat, Card)): (r: seq<(nat, Card)>)
    ensures multiset(r) == multiset(s) + multiset{x}
    ensures |r| == |s| + 1
    ensures forall k :: 0 <= k < |r| ==> r[k] == x || r[k] in s
  {
    if s == [] || PairLess(x, s[0]) || x == s[0] then [x] + s
    else
      assert s == [s[0]] + s[1..];
      [s[0]] + Insert(s[1..], x)
  }

  predicate Ascending(s: seq<(nat, Card)>) {
    forall i, j :: 0 <= i < j < |s| ==> PairLess(s[i], s[j]) || s[i] == s[j]
  }

  lemma {:induction false} InsertAscending(s: seq<(nat, Card)>, x: (nat, Card))
    requires Ascending(s)
    ensures Ascending(Insert(s, x))
  {
    if s == [] || PairLess(x, s[0]) || x == s[0] {
      forall k | 0 <= k < |s| ensures PairLess(x, s[k]) || x == s[k] {
        assert PairLess(s[0], s[k]) || s[0] == s[k];
      }
      AscendingCons(x, s);
    } else {
      InsertAscending(s[1..], x);
      var r := Insert(s[1..], x);
      forall k | 0 <= k < |r| ensures PairLess(s[0], r[k]) || s[0] == r[k] {
        if r[k] != x {
          var m :| 0 <= m < |s[1..]| && s[1..][m] == r[k];
          assert s[m + 1] == r[k];
        }
      }
      AscendingCons(s[0], r);
    }
  }

  lemma AscendingCons(a: (nat, Card), r: seq<(nat, Card)>)
    requires Ascending(r)
    requires forall k :: 0 <= k < |r| ==> PairLess(a, r[k]) || a == r[k]
    ensures Ascending([a] + r)
  {
    var t := [a] + r;
    forall i, j | 0 <= i < j < |t|
      ensures PairLess(t[i], t[j]) || t[i] == t[j]
    {
      assert t[j] == r[j - 1];
      if i > 0 {
        assert t[i] == r[i - 1];
      }
    }
  }

  /** `card_counts.sort()`: an ascending permutation. */
  function SortAscending(s: seq<(nat, Card)>): (r: seq<(nat, Card)>)
    ensures multiset(r) == multiset(s) && |r| == |s|
    ensures Ascending(r)
  {
    if s == [] then []
    else
      var init := SortAscending(s[..|s| - 1]);
      assert s == s[..|s| - 1] + [s[|s| - 1]];
      InsertAscending(init, s[|s| - 1]);
      Insert(init, s[|s| - 1])
  }

  function Reverse<X>(s: seq<X>): (r: seq<X>)
    ensures |r| == |s| && forall i :: 0 <= i < |s| ==> r[i] == s[|s| - 1 - i]
    ensures multiset(r) == multiset(s)
  {
    if s == [] then []
    else
      assert s == [s[0]] + s[1..];
      Reverse(s[1..]) + [s[0]]
  }

  /** `card_counts` after `sort()` and `reverse()`. */
  function SortedCounts(cards: seq<Card>): (s: seq<(nat, Card)>)
    ensures |s| == 13 && multiset(s) == multiset(CardCounts(cards))
  {
    Reverse(SortAscending(CardCounts(cards)))
  }

  /** A card occurs in two positions of a sequence at least twice. */
  lemma TwoPositions(s: seq<(nat, Card)>, i: nat, j: nat)
    requires i < j < |s|
    ensures s[i] == s[j] ==> multiset(s)[s[i]] >= 2
  {
    assert s == s[..j] + [s[j]] + s[j + 1..];
    assert s[..j][i] == s[i];
  }

  /** Every pair in the sorted counts is (count of its card, its card). */
  lemma InCounts(cards: seq<Card>, e: (nat, Card))
    requires e in multiset(CardCounts(cards))
    ensures e == (CountOf(cards, e.1), e.1)
  {
    var u := CardCounts(cards);
    var k :| 0 <= k < 13 && u[k] == e;
  }

  /** Each pair occurs once in the unsorted counts. */
  lemma UniqueIn(u: seq<(nat, Card)>, a: nat)
    requires |u| == 13 && a < 13
    requires forall i :: 0 <= i < 13 ==> u[i].1 == AllCards[i]
    ensures multiset(u)[u[a]] <= 1
  {
    AllCardsIndex(N2);
    assert u == u[..a] + [u[a]] + u[a + 1..];
    assert u[a] !in multiset(u[..a]) by {
      var t := u[..a];
      forall m | 0 <= m < |t| ensures t[m] != u[a] {
        assert t[m] == u[m];
      }
    }
    assert u[a] !in multiset(u[a + 1..]) by {
      var t := u[a + 1..];
      forall m | 0 <= m < |t| ensures t[m] != u[a] {
        assert t[m] == u[a + 1 + m];
      }
    }
  }

  /** Two positions of a permutation of the counts hold different cards. */
  lemma CountsDistinct(cards: seq<Card>, s: seq<(nat, Card)>, i: nat, j: nat)
    requires multiset(s) == multiset(CardCounts(cards)) && |s| == 13
    requires i < j < 13
    ensures s[i].1 != s[j].1
  {
    var u := CardCounts(cards);
    assert s[i] in multiset(s) && s[j] in multiset(s);
    InCounts(cards, s[i]);
    InCounts(cards, s[j]);
    var a :| 0 <= a < 13 && u[a] == s[i];
    UniqueIn(u, a);
    TwoPositions(s, i, j);
  }

  /** `c0` has the largest count and `c1` the largest count of any other card. */
  predicate IsTopTwo(cards: seq<Card>, c0: Card, c1: Card) {
    && c0 != c1
    && (forall c :: CountOf(cards, c) <= CountOf(cards, c0))
    && (forall c :: c != c0 ==> CountOf(cards, c) <= CountOf(cards, c1))
  }

  /** The first pair of the sorted counts holds the largest count, the second
      the largest count of any other card. */
  lemma TopCounts(cards: seq<Card>) returns (c0: Card, c1: Card)
    ensures SortedCounts(cards)[0] == (CountOf(cards, c0), c0)
    ensures SortedCounts(cards)[1] == (CountOf(cards, c1), c1)
    ensures IsTopTwo(cards, c0, c1)
  {
    var u := CardCounts(cards);
    var asc := SortAscending(u);
    var s := SortedCounts(cards);
    assert s[0] == asc[12] && s[1] == asc[11];
    assert s[0] in multiset(s) && s[1] in multiset(s);
    InCounts(cards, s[0]);
    InCounts(cards, s[1]);
    c0, c1 := s[0].1, s[1].1;
    CountsDistinct(cards, asc, 11, 12);
    forall c ensures CountOf(cards, c) <= CountOf(cards, c0) && (c != c0 ==> CountOf(cards, c) <= CountOf(cards, c1)) {
      BelowTop(cards, asc, c);
    }
  }

  /** In an ascending permutation of the counts the last pair bounds every
      count and the one before it every other count. */
  lemma BelowTop(cards: seq<Card>, asc: seq<(nat, Card)>, c: Card)
    requires |asc| == 13 && multiset(asc) == multiset(CardCounts(cards)) && Ascending(asc)
    requires asc[12] == (CountOf(cards, asc[12].1), asc[12].1)
    ensures CountOf(cards, c) <= asc[12].0
    ensures c != asc[12].1 ==> CountOf(cards, c) <= asc[11].0
  {
    var u := CardCounts(cards);
    AllCardsIndex(c);
    var e := u[Index(c)];
    assert e in multiset(asc);
    var k :| 0 <= k < 13 && asc[k] == e;
    if k < 12 {
      assert PairLess(asc[k], asc[12]) || asc[k] == asc[12];
    }
    if c != asc[12].1 {
      assert k != 12;
      if k < 11 {
        assert PairLess(asc[k], asc[11]) || asc[k] == asc[11];
      }
    }
  }

  /** Counts of one, two or three different cards add up to at most the hand length. */
  lemma CountBounds(cards: seq<Card>)
    ensures forall c :: CountOf(cards, c) <= |cards|
    ensures forall c, d :: c != d ==> CountOf(cards, c) + CountOf(cards, d) <= |cards|
    ensures forall c, d, e :: c != d && d != e && c != e ==>
              CountOf(cards, c) + CountOf(cards, d) + CountOf(cards, e) <= |cards|
  {
    forall c, d, e ensures CountOf(cards, c) <= |cards|
                   && (c != d ==> CountOf(cards, c) + CountOf(cards, d) <= |cards|)
                   && (c != d && d != e && c != e ==>
                         CountOf(cards, c) + CountOf(cards, d) + CountOf(cards, e) <= |cards|) {
      CountTriple(cards, c, d, e);
    }
  }

  /** The top count of a nonempty hand is positive. */
  lemma TopPositive(cards: seq<Card>, c0: Card, c1: Card)
    requires |cards| > 0 && IsTopTwo(cards, c0, c1)
    ensures CountOf(cards, c0) >= 1
  {
    CountLast(cards);
  }

  lemma CountLast(cards: seq<Card>)
    requires |cards| > 0
    ensures CountOf(cards, cards[|cards| - 1]) >= 1
  {
  }

  // ---------------------------------------------------------------------------
  // Hand types

  /** The match shared by `get_hand_type` and `get_hand_type_p2` on the top two counts. */
  function Classify(top: nat, second: nat): HandType {
    if top == 5 then FiveOfAKind
    else if top == 4 then FourOfAKind
    else if top == 3 then (if second == 2 then FullHouse else ThreeOfAKind)
    else if top == 2 then (if second == 2 then TwoPair else OnePair)
    else HighCard
  }

  function GetHandType(counts: seq<(nat, Card)>): HandType
    requires |counts| >= 2
  {
    Classify(counts[0].0, counts[1].0)
  }

  /** The index of the first pair for card `c`: `position(|c| c.1 == Card::J)`. */
  function Position(counts: seq<(nat, Card)>, c: Card): (p: nat)
    requires exists i :: 0 <= i < |counts| && counts[i].1 == c
    ensures p < |counts| && counts[p].1 == c
    ensures forall i :: 0 <= i < p ==> counts[i].1 != c
  {
    if counts[0].1 == c then 0
    else
      assert exists i :: 0 <= i < |counts[1..]| && counts[1..][i].1 == c by {
        var i :| 0 <= i < |counts| && counts[i].1 == c;
        assert counts[1..][i - 1] == counts[i];
      }
      1 + Position(counts[1..], c)
  }

  /** `get_hand_type_p2`: drop the J pair and add its count to the largest remaining one. */
  function GetHandTypeP2(counts: seq<(nat, Card)>): HandType
    requires |counts| >= 3 && exists i :: 0 <= i < |counts| && counts[i].1 == J
  {
    var p := Position(counts, J);
    var jCount := counts[p].0;
    var rest := counts[..p] + counts[p + 1..];
    Classify(rest[0].0 + jCount, rest[1].0)
  }

  function HandTypeOf(cards: seq<Card>): HandType {
    GetHandType(SortedCounts(cards))
  }

  function HandTypeAltOf(cards: seq<Card>): HandType {
    var s := SortedCounts(cards);
    AllCardsIndex(J);
    assert CardCounts(cards)[Index(J)].1 == J;
    assert CardCounts(cards)[Index(J)] in multiset(s);
    GetHandTypeP2(s)
  }

  predicate IsFullHouse(cards: seq<Card>) {
    exists c, d :: c != d && CountOf(cards, c) == 3 && CountOf(cards, d) == 2
  }

  predicate IsTwoPair(cards: seq<Card>) {
    exists c, d :: c != d && CountOf(cards, c) == 2 && CountOf(cards, d) == 2
  }

  /** The part-1 type of a five-card hand, stated on card counts alone: the
      types decided by the top count. */
  lemma HandTypeMeaning(cards: seq<Card>)
    requires |cards| == 5
    ensures HandTypeOf(cards) == FiveOfAKind <==> exists c :: CountOf(cards, c) == 5
    ensures HandTypeOf(cards) == FourOfAKind <==> exists c :: CountOf(cards, c) == 4
    ensures HandTypeOf(cards) == FullHouse <==> IsFullHouse(cards)
    ensures HandTypeOf(cards) == ThreeOfAKind <==> (exists c :: CountOf(cards, c) == 3) && !IsFullHouse(cards)
  {
    var c0, c1 := TopCounts(cards);
    HighOrAbove(cards, c0, c1);
    FullHouseIff(cards, c0, c1);
    ThreeIff(cards, c0, c1);
  }

  /** The part-1 type of a five-card hand, stated on card counts alone: the
      types with at most two of a kind. */
  lemma HandTypePairsMeaning(cards: seq<Card>)
    requires |cards| == 5
    ensures HandTypeOf(cards) == TwoPair <==> IsTwoPair(cards)
    ensures HandTypeOf(cards) == OnePair <==>
              (exists c :: CountOf(cards, c) == 2) && (forall c :: CountOf(cards, c) <= 2) && !IsTwoPair(cards)
    ensures HandTypeOf(cards) == HighCard <==> forall c :: CountOf(cards, c) <= 1
  {
    var c0, c1 := TopCounts(cards);
    TopPositive(cards, c0, c1);
    HighOrAbove(cards, c0, c1);
    TwoPairIff(cards, c0, c1);
    OnePairIff(cards, c0, c1);
  }

  lemma HighOrAbove(cards: seq<Card>, c0: Card, c1: Card)
    requires |cards| == 5 && IsTopTwo(cards, c0, c1)
    ensures CountOf(cards, c0) <= 5
    ensures CountOf(cards, c0) == 5 <==> exists c :: CountOf(cards, c) == 5
    ensures CountOf(cards, c0) == 4 <==> exists c :: CountOf(cards, c) == 4
    ensures CountOf(cards, c0) <= 1 <==> forall c :: CountOf(cards, c) <= 1
  {
    CountTriple(cards, c0, c1, c1);
    if exists c :: CountOf(cards, c) == 4 {
      var c :| CountOf(cards, c) == 4;
      CountTriple(cards, c0, c, c);
    }
  }

  lemma FullHouseIff(cards: seq<Card>, c0: Card, c1: Card)
    requires |cards| == 5 && IsTopTwo(cards, c0, c1)
    ensures CountOf(cards, c0) == 3 && CountOf(cards, c1) == 2 <==> IsFullHouse(cards)
  {
    if IsFullHouse(cards) {
      var c, d :| c != d && CountOf(cards, c) == 3 && CountOf(cards, d) == 2;
      CountTriple(cards, c0, d, c);
      CountTriple(cards, c0, c, d);
      CountTriple(cards, c0, c1, d);
      assert c == c0;
    }
  }

  lemma ThreeIff(cards: seq<Card>, c0: Card, c1: Card)
    requires |cards| == 5 && IsTopTwo(cards, c0, c1)
    ensures CountOf(cards, c0) == 3 && CountOf(cards, c1) != 2 <==>
              (exists c :: CountOf(cards, c) == 3) && !IsFullHouse(cards)
  {
    FullHouseIff(cards, c0, c1);
    if exists c :: CountOf(cards, c) == 3 {
      var c :| CountOf(cards, c) == 3;
      CountTriple(cards, c0, c, c);
      assert c == c0;
    }
  }

  lemma TwoPairIff(cards: seq<Card>, c0: Card, c1: Card)
    requires |cards| == 5 && IsTopTwo(cards, c0, c1)
    ensures CountOf(cards, c0) == 2 && CountOf(cards, c1) == 2 <==> IsTwoPair(cards)
  {
    if IsTwoPair(cards) {
      var c, d :| c != d && CountOf(cards, c) == 2 && CountOf(cards, d) == 2;
      CountTriple(cards, c0, c, d);
      CountTriple(cards, c, d, d);
      CountTriple(cards, c0, c1, c1);
      assert CountOf(cards, c0) == 2;
    }
  }

  lemma OnePairIff(cards: seq<Card>, c0: Card, c1: Card)
    requires |cards| == 5 && IsTopTwo(cards, c0, c1)
    ensures CountOf(cards, c0) == 2 && CountOf(cards, c1) != 2 <==>
              (exists c :: CountOf(cards, c) == 2) && (forall c :: CountOf(cards, c) <= 2) && !IsTwoPair(cards)
  {
    TwoPairIff(cards, c0, c1);
  }

  /** Without a J the part-2 type is the part-1 type. */
  lemma NoJokerSameType(cards: seq<Card>)
    requires |cards| == 5 && CountOf(cards, J) == 0
    ensures HandTypeAltOf(cards) == HandTypeOf(cards)
  {
    var s := SortedCounts(cards);
    var c0, c1 := TopCounts(cards);
    TopPositive(cards, c0, c1);
    AllCardsIndex(J);
    assert CardCounts(cards)[Index(J)] in multiset(s);
    var p := Position(s, J);
    assert s[p] in multiset(s);
    InCounts(cards, s[p]);
    if CountOf(cards, c1) == 0 {
      SumFive(cards, c0);
    }
    NoJokerCounts(s);
  }

  /** On sorted counts whose J pair counts nothing, dropping it leaves the
      top two counts in place, or the top count is five and the second does
      not matter. */
  lemma NoJokerCounts(s: seq<(nat, Card)>)
    requires |s| >= 3 && exists i :: 0 <= i < |s| && s[i].1 == J
    requires s[Position(s, J)].0 == 0 && s[0].0 >= 1
    requires s[1].0 == 0 ==> s[0].0 == 5
    ensures GetHandTypeP2(s) == GetHandType(s)
  {
    var p := Position(s, J);
    var rest := s[..p] + s[p + 1..];
    assert rest[0] == s[0];
    if p > 1 {
      assert rest[1] == s[1];
    }
  }

  /** A hand in which no card but `c` occurs is made of `c` only. */
  lemma SumFive(cards: seq<Card>, c: Card)
    requires |cards| == 5
    requires forall d :: d != c ==> CountOf(cards, d) == 0
    ensures CountOf(cards, c) == 5
  {
    AllOf(cards, c);
  }

  lemma {:induction false} AllOf(cards: seq<Card>, c: Card)
    requires forall d :: d != c ==> CountOf(cards, d) == 0
    ensures CountOf(cards, c) == |cards|
  {
    if cards != [] {
      var init := cards[..|cards| - 1];
      var last := cards[|cards| - 1];
      forall d | d != c ensures CountOf(init, d) == 0 {
        assert CountOf(cards, d) == CountOf(init, d) + if last == d then 1 else 0;
      }
      AllOf(init, c);
      assert CountOf(cards, last) >= 1;
    }
  }

  // ---------------------------------------------------------------------------
  // Parsing a hand

  /** `parse_hand`: the cards read one per character over a default of five N2,
      then both types from the sorted counts. More than five characters would
      index past the array. */
  method ParseHand(str: string) returns (hand: Hand)
    requires |str| <= 5
    ensures |hand.cards| == 5
    ensures forall i :: 0 <= i < 5 ==> hand.cards[i] == if i < |str| then FromChar(str[i]) else N2
    ensures hand.handType == HandTypeOf(hand.cards)
    ensures hand.handTypeAlt == HandTypeAltOf(hand.cards)
  {
    var cs := ReadCards(str);
    hand := Hand(cs, HandTypeOf(cs), HandTypeAltOf(cs));
  }

  /** The `hand.cards` loop of `parse_hand`. */
  method ReadCards(str: string) returns (cs: seq<Card>)
    requires |str| <= 5
    ensures |cs| == 5
    ensures forall i :: 0 <= i < 5 ==> cs[i] == if i < |str| then FromChar(str[i]) else N2
  {
    var cards := new Card[5](_ => N2);
    for pos := 0 to |str|
      invariant forall i :: 0 <= i < 5 ==> cards[i] == if i < pos then FromChar(str[i]) else N2
    {
      cards[pos] := FromChar(str[pos]);
    }
    cs := cards[..];
  }

  // ---------------------------------------------------------------------------
  // Comparing hands

  datatype Ordering = Less | Equal | Greater

  function Flip(o: Ordering): Ordering {
    match o case Less => Greater case Equal => Equal case Greater => Less
  }

  function CmpNat(a: nat, b: nat): Ordering {
    if a < b then Less else if a == b then Equal else Greater
  }

  /** `Vec::cmp`: lexicographic, a proper prefix first. */
  function LexCmp(a: seq<nat>, b: seq<nat>): Ordering {
    if a == [] && b == [] then Equal
    else if a == [] then Less
    else if b == [] then Greater
    else if a[0] != b[0] then CmpNat(a[0], b[0])
    else LexCmp(a[1..], b[1..])
  }

  function Values(cards: seq<Card>, joker: bool): (vs: seq<nat>)
    ensures |vs| == |cards| && forall i :: 0 <= i < |cards| ==> vs[i] == Value(cards[i], joker)
  {
    seq(|cards|, i requires 0 <= i < |cards| => Value(cards[i], joker))
  }

  /** `compare_part_1` (joker false) and `compare_part_2` (joker true). */
  function Compare(a: Hand, b: Hand, joker: bool): Ordering {
    var ta, tb := if joker then a.handTypeAlt else a.handType, if joker then b.handTypeAlt else b.handType;
    if Rank(ta) != Rank(tb) then CmpNat(Rank(ta), Rank(tb))
    else LexCmp(Values(a.cards, joker), Values(b.cards, joker))
  }

  lemma {:induction false} LexCmpProps(a: seq<nat>, b: seq<nat>)
    ensures LexCmp(a, a) == Equal
    ensures LexCmp(a, b) == Flip(LexCmp(b, a))
    ensures LexCmp(a, b) == Equal ==> a == b
  {
    if a != [] && b != [] {
      LexCmpProps(a[1..], b[1..]);
      if a[0] == b[0] && LexCmp(a[1..], b[1..]) == Equal {
        assert a == [a[0]] + a[1..] && b == [b[0]] + b[1..];
      }
    } else if a != [] {
      LexCmpProps(a[1..], a[1..]);
    }
  }

  lemma {:induction false} LexCmpTrans(a: seq<nat>, b: seq<nat>, c: seq<nat>)
    requires LexCmp(a, b) == Less && LexCmp(b, c) == Less
    ensures LexCmp(a, c) == Less
  {
    if a != [] && b != [] && c != [] && a[0] == b[0] && b[0] == c[0] {
      LexCmpTrans(a[1..], b[1..], c[1..]);
    }
  }

  /** A hand compares Equal with itself, swapping the hands flips the result,
      and only hands with the same type and the same cards compare Equal. */
  lemma CompareProps(a: Hand, b: Hand, joker: bool)
    ensures Compare(a, a, joker) == Equal
    ensures Compare(a, b, joker) == Flip(Compare(b, a, joker))
    ensures Compare(a, b, joker) == Equal ==> a.cards == b.cards
  {
    var va, vb := Values(a.cards, joker), Values(b.cards, joker);
    LexCmpProps(va, va);
    LexCmpProps(va, vb);
    if Compare(a, b, joker) == Equal {
      forall i | 0 <= i < |a.cards| ensures a.cards[i] == b.cards[i] {
        ValueOrder(a.cards[i], b.cards[i]);
        assert va[i] == vb[i];
      }
    }
  }

  lemma CompareTrans(a: Hand, b: Hand, c: Hand, joker: bool)
    requires Compare(a, b, joker) == Less && Compare(b, c, joker) == Less
    ensures Compare(a, c, joker) == Less
  {
    var va, vb, vc := Values(a.cards, joker), Values(b.cards, joker), Values(c.cards, joker);
    if LexCmp(va, vb) == Less && LexCmp(vb, vc) == Less {
      LexCmpTrans(va, vb, vc);
    }
  }

  // ---------------------------------------------------------------------------
  // Winnings

  /** (position + 1) * bid summed over the first `n` sorted hands. */
  function Winnings(sorted: seq<(Hand, nat)>, n: nat): nat
    requires n <= |sorted|
  {
    if n == 0 then 0 else Winnings(sorted, n - 1) + n * sorted[n - 1].1
  }

  /** `hands.sort_by(compare)`: a stable insertion of each hand after every hand
      that is not greater. */
  function InsertHand(s: seq<(Hand, nat)>, x: (Hand, nat), joker: bool): (r: seq<(Hand, nat)>)
    ensures multiset(r) == multiset(s) + multiset{x} && |r| == |s| + 1
  {
    if s == [] || Compare(x.0, s[0].0, joker) == Less then [x] + s
    else
      assert s == [s[0]] + s[1..];
      [s[0]] + InsertHand(s[1..], x, joker)
  }

  predicate SortedHands(s: seq<(Hand, nat)>, joker: bool) {
    forall i, j :: 0 <= i < j < |s| ==> Compare(s[i].0, s[j].0, joker) != Greater
  }

  lemma {:induction false} InsertHandSorted(s: seq<(Hand, nat)>, x: (Hand, nat), joker: bool)
    requires SortedHands(s, joker)
    ensures SortedHands(InsertHand(s, x, joker), joker)
  {
    if s == [] {
    } else if Compare(x.0, s[0].0, joker) == Less {
      forall k | 0 <= k < |s| ensures Compare(x.0, s[k].0, joker) != Greater {
        if k > 0 {
          if Compare(s[0].0, s[k].0, joker) == Less {
            CompareTrans(x.0, s[0].0, s[k].0, joker);
          } else {
            CompareLessEqual(x.0, s[0].0, s[k].0, joker);
          }
        }
      }
      SortedCons(x, s, joker);
    } else {
      InsertHandSorted(s[1..], x, joker);
      var r := InsertHand(s[1..], x, joker);
      forall k | 0 <= k < |r| ensures Compare(s[0].0, r[k].0, joker) != Greater {
        assert r[k] in multiset(r);
        if r[k] == x {
          CompareProps(x.0, s[0].0, joker);
        } else {
          assert r[k] in multiset(s[1..]);
          var m :| 0 <= m < |s[1..]| && s[1..][m] == r[k];
          assert s[m + 1] == r[k];
        }
      }
      SortedCons(s[0], r, joker);
    }
  }

  lemma SortedCons(a: (Hand, nat), r: seq<(Hand, nat)>, joker: bool)
    requires SortedHands(r, joker)
    requires forall k :: 0 <= k < |r| ==> Compare(a.0, r[k].0, joker) != Greater
    ensures SortedHands([a] + r, joker)
  {
    var t := [a] + r;
    forall i, j | 0 <= i < j < |t|
      ensures Compare(t[i].0, t[j].0, joker) != Greater
    {
      assert t[j] == r[j - 1];
      if i > 0 {
        assert t[i] == r[i - 1];
      }
    }
  }

  /** A hand below one of two Equal hands is below the other. */
  lemma CompareLessEqual(a: Hand, b: Hand, c: Hand, joker: bool)
    requires Compare(a, b, joker) == Less && Compare(b, c, joker) == Equal
    ensures Compare(a, c, joker) == Less
  {
    CompareProps(b, c, joker);
  }

  function SortHands(hands: seq<(Hand, nat)>, joker: bool): (r: seq<(Hand, nat)>)
    ensures multiset(r) == multiset(hands) && |r| == |hands|
    ensures SortedHands(r, joker)
  {
    if hands == [] then []
    else
      var init := SortHands(hands[..|hands| - 1], joker);
      assert hands == hands[..|hands| - 1] + [hands[|hands| - 1]];
      InsertHandSorted(init, hands[|hands| - 1], joker);
      InsertHand(init, hands[|hands| - 1], joker)
  }

  // ---------------------------------------------------------------------------
  // Stability: `sort_by` keeps hands that compare Equal in their input order

  /** What decides an Equal comparison: the rank of the type in use and the cards. */
  function TieKey(h: Hand, joker: bool): (nat, seq<Card>) {
    (Rank(if joker then h.handTypeAlt else h.handType), h.cards)
  }

  lemma EqualIffTie(a: Hand, b: Hand, joker: bool)
    ensures Compare(a, b, joker) == Equal <==> TieKey(a, joker) == TieKey(b, joker)
  {
    CompareProps(a, b, joker);
    LexCmpProps(Values(a.cards, joker), Values(a.cards, joker));
  }

  /** The hands of `s` whose tie key is `k`, in order. */
  function Ties(s: seq<(Hand, nat)>, k: (nat, seq<Card>), joker: bool): seq<(Hand, nat)> {
    if s == [] then [] else (if TieKey(s[0].0, joker) == k then [s[0]] else []) + Ties(s[1..], k, joker)
  }

  lemma {:induction false} TiesAppend(a: seq<(Hand, nat)>, b: seq<(Hand, nat)>, k: (nat, seq<Card>), joker: bool)
    ensures Ties(a + b, k, joker) == Ties(a, k, joker) + Ties(b, k, joker)
  {
    if a == [] {
      assert a + b == b;
    } else {
      assert (a + b)[0] == a[0] && (a + b)[1..] == a[1..] + b;
      TiesAppend(a[1..], b, k, joker);
    }
  }

  lemma {:induction false} TiesIn(s: seq<(Hand, nat)>, k: (nat, seq<Card>), joker: bool)
    ensures forall e :: e in Ties(s, k, joker) ==> e in s && TieKey(e.0, joker) == k
  {
    if s != [] {
      TiesIn(s[1..], k, joker);
    }
  }

  /** Hands all above `x` hold none of `x`'s ties. */
  lemma {:induction false} NoTies(s: seq<(Hand, nat)>, x: Hand, joker: bool)
    requires forall j :: 0 <= j < |s| ==> Compare(x, s[j].0, joker) == Less
    ensures Ties(s, TieKey(x, joker), joker) == []
  {
    if s != [] {
      EqualIffTie(x, s[0].0, joker);
      EqualIffTie(s[0].0, x, joker);
      CompareProps(x, s[0].0, joker);
      NoTies(s[1..], x, joker);
    }
  }

  /** `e` alone if its tie key is `k`. */
  function TieOf(e: (Hand, nat), k: (nat, seq<Card>), joker: bool): seq<(Hand, nat)> {
    if TieKey(e.0, joker) == k then [e] else []
  }

  lemma TiesCons(e: (Hand, nat), s: seq<(Hand, nat)>, k: (nat, seq<Card>), joker: bool)
    ensures Ties([e] + s, k, joker) == TieOf(e, k, joker) + Ties(s, k, joker)
  {
    assert ([e] + s)[0] == e && ([e] + s)[1..] == s;
  }

  /** In a sorted list, a hand below the first is below all. */
  lemma BelowAll(s: seq<(Hand, nat)>, x: Hand, joker: bool)
    requires s != [] && SortedHands(s, joker) && Compare(x, s[0].0, joker) == Less
    ensures forall j :: 0 <= j < |s| ==> Compare(x, s[j].0, joker) == Less
  {
    forall j | 0 < j < |s| ensures Compare(x, s[j].0, joker) == Less {
      if Compare(s[0].0, s[j].0, joker) == Less {
        CompareTrans(x, s[0].0, s[j].0, joker);
      } else {
        CompareLessEqual(x, s[0].0, s[j].0, joker);
      }
    }
  }

  lemma AppendAssoc<X>(a: seq<X>, b: seq<X>, c: seq<X>)
    ensures a + (b + c) == (a + b) + c
  {
  }

  lemma SplitLast<X>(s: seq<X>)
    requires s != []
    ensures s == s[..|s| - 1] + [s[|s| - 1]]
  {
  }

  /** A nonempty list has a nonempty tie class: that of its first hand. */
  lemma FirstTies(s: seq<(Hand, nat)>, joker: bool)
    ensures s != [] ==> Ties(s, TieKey(s[0].0, joker), joker) != []
  {
  }

  /** Inserting `x` in front of a sorted list whose hands are all above it. */
  lemma InsertFrontTies(s: seq<(Hand, nat)>, x: (Hand, nat), k: (nat, seq<Card>), joker: bool)
    requires SortedHands(s, joker) && (s == [] || Compare(x.0, s[0].0, joker) == Less)
    ensures Ties([x] + s, k, joker) == Ties(s, k, joker) + TieOf(x, k, joker)
  {
    TiesCons(x, s, k, joker);
    if TieKey(x.0, joker) == k && s != [] {
      BelowAll(s, x.0, joker);
      NoTies(s, x.0, joker);
    }
  }

  /** Inserting `x` puts it after every hand it ties with. */
  lemma {:induction false} InsertHandTies(s: seq<(Hand, nat)>, x: (Hand, nat), k: (nat, seq<Card>), joker: bool)
    requires SortedHands(s, joker)
    ensures Ties(InsertHand(s, x, joker), k, joker) == Ties(s, k, joker) + TieOf(x, k, joker)
  {
    if s == [] || Compare(x.0, s[0].0, joker) == Less {
      assert InsertHand(s, x, joker) == [x] + s;
      InsertFrontTies(s, x, k, joker);
    } else {
      var r := InsertHand(s[1..], x, joker);
      assert InsertHand(s, x, joker) == [s[0]] + r;
      SortedTail(s, joker);
      InsertHandTies(s[1..], x, k, joker);
      TiesCons(s[0], r, k, joker);
      assert s == [s[0]] + s[1..];
      TiesCons(s[0], s[1..], k, joker);
      AppendAssoc(TieOf(s[0], k, joker), Ties(s[1..], k, joker), TieOf(x, k, joker));
    }
  }

  /** `sort_by` is stable: the hands of every tie class keep their input order. */
  lemma {:induction false} SortHandsStable(hands: seq<(Hand, nat)>, joker: bool, k: (nat, seq<Card>))
    ensures Ties(SortHands(hands, joker), k, joker) == Ties(hands, k, joker)
    decreases |hands|
  {
    if hands != [] {
      var init, x := hands[..|hands| - 1], hands[|hands| - 1];
      SplitLast(hands);
      var sortedInit := SortHands(init, joker);
      assert SortHands(hands, joker) == InsertHand(sortedInit, x, joker);
      SortHandsStable(init, joker, k);
      InsertHandTies(sortedInit, x, k, joker);
      TiesAppend(init, [x], k, joker);
      TiesCons(x, [], k, joker);
      assert [x] + [] == [x];
    }
  }

  /** `s` is sorted by the comparison and keeps every tie class of `hands` in order. */
  ghost predicate StableSortOf(s: seq<(Hand, nat)>, hands: seq<(Hand, nat)>, joker: bool) {
    SortedHands(s, joker) && forall k :: Ties(s, k, joker) == Ties(hands, k, joker)
  }

  lemma SortedTail(s: seq<(Hand, nat)>, joker: bool)
    requires s != [] && SortedHands(s, joker)
    ensures SortedHands(s[1..], joker)
    ensures forall j :: 0 < j < |s| ==> Compare(s[0].0, s[j].0, joker) != Greater
  {
    forall i, j | 0 <= i < j < |s[1..]| ensures Compare(s[1..][i].0, s[1..][j].0, joker) != Greater {
      assert s[1..][i] == s[i + 1] && s[1..][j] == s[j + 1];
    }
  }

  /** The first hand of a sorted list is not above any hand of it with another tie key. */
  lemma FirstNotAbove(s: seq<(Hand, nat)>, e: (Hand, nat), joker: bool)
    requires s != [] && SortedHands(s, joker) && e in s && TieKey(e.0, joker) != TieKey(s[0].0, joker)
    ensures Compare(s[0].0, e.0, joker) != Greater
  {
    var j :| 0 <= j < |s| && s[j] == e;
    assert j != 0;
  }

  /** Two sorted lists with the same tie classes in the same order are equal:
      the sorted result of a stable sort is unique. */
  lemma {:induction false} StableSortUnique(r1: seq<(Hand, nat)>, r2: seq<(Hand, nat)>, joker: bool)
    requires SortedHands(r1, joker) && SortedHands(r2, joker)
    requires forall k :: Ties(r1, k, joker) == Ties(r2, k, joker)
    ensures r1 == r2
    decreases |r1| + |r2|
  {
    if r1 == [] && r2 != [] {
      FirstTies(r2, joker);
      assert false;
    } else if r1 != [] && r2 == [] {
      FirstTies(r1, joker);
      assert false;
    } else if r1 != [] {
      var a, b := r1[0], r2[0];
      var ka, kb := TieKey(a.0, joker), TieKey(b.0, joker);
      if ka != kb {
        assert Ties(r1, ka, joker)[0] == a && Ties(r2, kb, joker)[0] == b;
        TiesIn(r2, ka, joker);
        TiesIn(r1, kb, joker);
        assert a in Ties(r2, ka, joker) && b in Ties(r1, kb, joker);
        FirstNotAbove(r1, b, joker);
        FirstNotAbove(r2, a, joker);
        CompareProps(a.0, b.0, joker);
        EqualIffTie(a.0, b.0, joker);
        assert false;
      } else {
        assert r1 == [a] + r1[1..] && r2 == [b] + r2[1..];
        TiesCons(a, r1[1..], ka, joker);
        TiesCons(b, r2[1..], ka, joker);
        assert TieOf(a, ka, joker) == [a] && TieOf(b, ka, joker) == [b];
        assert Ties(r1, ka, joker)[0] == a && Ties(r2, ka, joker)[0] == b;
        assert a == b;
        forall k ensures Ties(r1[1..], k, joker) == Ties(r2[1..], k, joker) {
          assert Ties(r1, k, joker) == Ties(r2, k, joker);
          TiesCons(a, r1[1..], k, joker);
          TiesCons(b, r2[1..], k, joker);
          var h := TieOf(a, k, joker);
          assert Ties(r1[1..], k, joker) == (h + Ties(r1[1..], k, joker))[|h|..];
          assert Ties(r2[1..], k, joker) == (h + Ties(r2[1..], k, joker))[|h|..];
        }
        SortedTail(r1, joker);
        SortedTail(r2, joker);
        StableSortUnique(r1[1..], r2[1..], joker);
        assert r1 == [a] + r1[1..] && r2 == [b] + r2[1..];
      }
    }
  }

  /** SortHands is a stable sort of the hands, and the only one. */
  lemma StableSortsAgree(hands: seq<(Hand, nat)>, joker: bool)
    ensures StableSortOf(SortHands(hands, joker), hands, joker)
    ensures forall s :: StableSortOf(s, hands, joker) ==> s == SortHands(hands, joker)
  {
    forall k ensures Ties(SortHands(hands, joker), k, joker) == Ties(hands, k, joker) {
      SortHandsStable(hands, joker, k);
    }
    forall s | StableSortOf(s, hands, joker)
      ensures s == SortHands(hands, joker)
    {
      StableSortUnique(s, SortHands(hands, joker), joker);
    }
  }

  /** `solve_part_1` (joker false) and `solve_part_2` (joker true): the hands
      sorted stably by the comparison, each bid weighted by its rank. Every
      stable sort gives the same total. */
  function TotalWinnings(hands: seq<(Hand, nat)>, joker: bool): (w: nat)
    ensures forall s :: StableSortOf(s, hands, joker) ==> w == Winnings(s, |s|)
  {
    StableSortsAgree(hands, joker);
    var sorted := SortHands(hands, joker);
    Winnings(sorted, |sorted|)
  }
}
