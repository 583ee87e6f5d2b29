/** Day 4 ("Scratchcards"): a card wins once for every one of its winning
    numbers that also occurs among the numbers drawn. Part 1 scores a card
    2^(wins - 1), or 0 without a win. In part 2 a card with w wins earns one
    copy of each of the next w cards for every copy held of it; the answer is
    the number of cards held in the end. */
module Scratchcards {

  import opened Common

  datatype Card = Card(id: nat, winning: seq<nat>, numbers: seq<nat>)

  /** The number of entries of `winning` (duplicates included) that occur in `numbers`. */
  function Wins(winning: seq<nat>, numbers: seq<nat>): nat {
    if winning == [] then 0
    else Wins(winning[..|winning| - 1], numbers) + if winning[|winning| - 1] in numbers then 1 else 0
  }

  function CardWins(card: Card): nat {
    Wins(card.winning, card.numbers)
  }

  /** The `winning_number_count` loop. */
  method WinningCount(card: Card) returns (count: nat)
    ensures count == CardWins(card)
  {
    count := 0;
    for k := 0 to |card.winning|
      invariant count == Wins(card.winning[..k], card.numbers)
    {
      assert card.winning[..k + 1][..k] == card.winning[..k];
      if card.winning[k] in card.numbers {
        count := count + 1;
      }
    }
    assert card.winning[..|card.winning|] == card.winning;
  }

  /** A card wins at most once per winning number, exactly that often when all
      of them were drawn, and never when none was. */
  lemma {:induction false} WinsBounds(winning: seq<nat>, numbers: seq<nat>)
    ensures Wins(winning, numbers) <= |winning|
    ensures (forall k :: 0 <= k < |winning| ==> winning[k] in numbers) ==> Wins(winning, numbers) == |winning|
    ensures (forall k :: 0 <= k < |winning| ==> winning[k] !in numbers) ==> Wins(winning, numbers) == 0
  {
    if winning != [] {
      var init := winning[..|winning| - 1];
      assert forall k :: 0 <= k < |init| ==> init[k] == winning[k];
      WinsBounds(init, numbers);
    }
  }

  // ---------------------------------------------------------------------------
  // Part 1

  function Pow2(n: nat): nat {
    if n == 0 then 1 else 2 * Pow2(n - 1)
  }

  /** The score of a card with `wins` wins. */
  function Score(wins: nat): nat {
    if wins > 0 then Pow2(wins - 1) else 0
  }

  /** The first win is worth 1 and each further win doubles the score. */
  lemma ScoreDoubles(wins: nat)
    ensures Score(1) == 1
    ensures wins >= 1 ==> Score(wins + 1) == 2 * Score(wins)
    ensures wins >= 1 ==> Score(wins) >= 1
  {
    if wins >= 1 {
      Pow2Positive(wins - 1);
    }
  }

  lemma {:induction false} Pow2Positive(n: nat)
    ensures Pow2(n) >= 1
  {
    if n > 0 {
      Pow2Positive(n - 1);
    }
  }

  function TotalScore(cards: seq<Card>): nat {
    if cards == [] then 0 else TotalScore(cards[..|cards| - 1]) + Score(CardWins(cards[|cards| - 1]))
  }

  method SolvePart1(cards: seq<Card>) returns (score: nat)
    ensures score == TotalScore(cards)
  {
    score := 0;
    for n := 0 to |cards|
      invariant score == TotalScore(cards[..n])
    {
      var count := WinningCount(cards[n]);
      assert cards[..n + 1][..n] == cards[..n];
      score := score + if count > 0 then Pow2(count - 1) else 0;
    }
    assert cards[..|cards|] == cards;
  }

  // ---------------------------------------------------------------------------
  // Part 2

  /** A card that wins copies has an id of at least 1, and its copies stay
      within the table: the source reads `card_count[card.id - 1]` and writes
      `card_count[card.id + i]` for `i < wins`, and would panic otherwise. A
      card without wins reads nothing, so its id is free. */
  predicate ValidCards(cards: seq<Card>) {
    forall k :: 0 <= k < |cards| ==> CardWins(cards[k]) == 0 || (cards[k].id >= 1 && cards[k].id - 1 + CardWins(cards[k]) < |cards|)
  }

  /** The card ids are 1, 2, .. in order, as in the puzzle's input. */
  predicate InOrder(cards: seq<Card>) {
    forall k :: 0 <= k < |cards| ==> cards[k].id == k + 1
  }

  /** The counts after card `j` with `w` wins is processed: each of the `w`
      cards after it gains as many copies as card `j` has; nothing else changes. */
  function AddCopies(c: seq<nat>, j: nat, w: nat): (r: seq<nat>)
    requires j + w < |c|
    ensures |r| == |c|
    ensures forall i :: 0 <= i < |c| ==> r[i] == if j < i <= j + w then c[i] + c[j] else c[i]
  {
    if w == 0 then c else AddCopies(c, j, w - 1)[j + w := c[j + w] + c[j]]
  }

  /** `card_count` after the first `k` cards are processed. */
  function Counts(cards: seq<Card>, k: nat): (c: seq<nat>)
    requires ValidCards(cards) && k <= |cards|
    ensures |c| == |cards|
  {
    if k == 0 then seq(|cards|, _ => 1)
    else if CardWins(cards[k - 1]) == 0 then Counts(cards, k - 1)
    else AddCopies(Counts(cards, k - 1), cards[k - 1].id - 1, CardWins(cards[k - 1]))
  }

  /** Every card starts with one copy and counts only grow. */
  lemma {:induction false} CountsAtLeastOne(cards: seq<Card>, k: nat)
    requires ValidCards(cards) && k <= |cards|
    ensures forall i :: 0 <= i < |cards| ==> Counts(cards, k)[i] >= 1
    ensures k > 0 ==> forall i :: 0 <= i < |cards| ==> Counts(cards, k)[i] >= Counts(cards, k - 1)[i]
  {
    if k > 0 {
      CountsAtLeastOne(cards, k - 1);
    }
  }

  /** With the ids in order, processing a card never changes the count of
      itself or an earlier card, so a card's count is final once the cards
      before it are processed. */
  lemma {:induction false} CountsSettle(cards: seq<Card>, i: nat, k: nat)
    requires ValidCards(cards) && InOrder(cards) && i < k <= |cards|
    ensures Counts(cards, k)[i] == Counts(cards, i + 1)[i]
  {
    if k > i + 1 {
      CountsSettle(cards, i, k - 1);
    }
  }

  lemma {:induction false} SumAtLeastLength(s: seq<nat>)
    requires forall i :: 0 <= i < |s| ==> s[i] >= 1
    ensures Sum(s) >= |s|
  {
    if s != [] {
      SumAtLeastLength(s[..|s| - 1]);
    }
  }

  /** Ids need not be positions: two cards that both read `Card 1:` and win
      nothing are accepted and held once each. */
  lemma RepeatedIds()
    ensures ValidCards([Card(1, [3], [4]), Card(1, [], [])])
    ensures Sum(Counts([Card(1, [3], [4]), Card(1, [], [])], 2)) == 2
  {
    var cards := [Card(1, [3], [4]), Card(1, [], [])];
    assert CardWins(cards[0]) == 0 && CardWins(cards[1]) == 0;
    assert Counts(cards, 2) == [1, 1];
  }

  /** `solve_part_2`: the final `card_count` and its sum. */
  method SolvePart2(cards: seq<Card>) returns (counts: seq<nat>, total: nat)
    requires ValidCards(cards)
    ensures counts == Counts(cards, |cards|)
    ensures total == Sum(counts) && total >= |cards|
  {
    var cardCount := new nat[|cards|](_ => 1);
    for k := 0 to |cards|
      invariant cardCount[..] == Counts(cards, k)
    {
      var card := cards[k];
      var count := WinningCount(card);
      if count > 0 {
        AddCopiesInPlace(cardCount, card.id - 1, count);
      }
    }
    counts := cardCount[..];
    CountsAtLeastOne(cards, |cards|);
    SumAtLeastLength(counts);
    total := SumOf(counts);
  }

  /** The `for i in 0..winning_number_count` loop, run on `card_count` in place. */
  method AddCopiesInPlace(cardCount: array<nat>, j: nat, w: nat)
    requires j + w < cardCount.Length
    modifies cardCount
    ensures cardCount[..] == AddCopies(old(cardCount[..]), j, w)
  {
    ghost var before := cardCount[..];
    for i := 0 to w
      invariant cardCount[..] == AddCopies(before, j, i)
    {
      cardCount[j + 1 + i] := cardCount[j + 1 + i] + cardCount[j];
    }
  }
}
