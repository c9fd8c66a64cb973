/** Scratchcards (d04/src/main.rs): the matches of one card, and the copy
    propagation in which every card wins copies of the cards after it. */
module Scratchcards {
  import opened Wrappers

  /** One card after tokenising: its winning numbers and the numbers it has. */
  datatype Card = Card(winning: seq<nat>, mine: seq<nat>)

  function MineSet(card: Card): set<nat>
  {
    set x | x in card.mine
  }

  function WinningSet(card: Card): set<nat>
  {
    set x | x in card.winning
  }

  /** The own numbers that also win, each counted once. */
  function Matches(card: Card): (s: set<nat>)
    ensures forall x :: x in s <==> x in card.mine && x in card.winning
  {
    set x | x in card.mine && x in card.winning
  }

  /** `compute_line`: fills the set of winning numbers, then the set of
      own numbers found in it, and returns the size of the latter. */
  method ComputeLine(card: Card) returns (count: nat)
    ensures count == |Matches(card)|
  {
    var winning: set<nat> := {};
    for i := 0 to |card.winning|
      invariant winning == set k | 0 <= k < i :: card.winning[k]
    {
      winning := winning + {card.winning[i]};
    }
    assert forall x :: x in winning <==> x in card.winning;
    var matches: set<nat> := {};
    for i := 0 to |card.mine|
      invariant forall x :: x in matches <==> x in card.mine[..i] && x in card.winning
    {
      assert card.mine[..i + 1] == card.mine[..i] + [card.mine[i]];
      if card.mine[i] in winning {
        matches := matches + {card.mine[i]};
      }
    }
    assert card.mine[..|card.mine|] == card.mine;
    assert matches == Matches(card);
    return |matches|;
  }

  /** The count only depends on the two sets of numbers: order and repetition
      of the own numbers do not matter. */
  lemma MatchesAreIntersection(card: Card)
    ensures Matches(card) == MineSet(card) * WinningSet(card)
  {
  }

  /** Repeating an own number that is already there adds nothing. */
  lemma RepeatCountedOnce(card: Card, x: nat)
    requires x in card.mine
    ensures |Matches(card.(mine := card.mine + [x]))| == |Matches(card)|
  {
    assert Matches(card.(mine := card.mine + [x])) == Matches(card);
  }

  /** There are never more matches than distinct own numbers. */
  lemma MatchesBounded(card: Card)
    ensures |Matches(card)| <= |MineSet(card)|
  {
    SubsetCard(Matches(card), MineSet(card));
  }

  lemma {:induction false} SubsetCard(a: set<nat>, b: set<nat>)
    requires a <= b
    ensures |a| <= |b|
    decreases |b|
  {
    if a != {} {
      var x :| x in a;
      SubsetCard(a - {x}, b - {x});
    }
  }

  // ---------------------------------------------------------------------
  // Copy propagation

  /** The number of copies card `k` ends with: the original plus one copy
      for every copy of each earlier card `j` whose matches reach `k`. */
  function Copies(ms: seq<nat>, k: nat): (c: nat)
    requires k < |ms|
    ensures c >= 1
    decreases k, 1
  {
    1 + Won(ms, k, k)
  }

  /** The copies of card `k` won from the cards before `j`. */
  function Won(ms: seq<nat>, k: nat, j: nat): nat
    requires k < |ms| && j <= k
    decreases k, 0, j
  {
    if j == 0 then 0
    else Won(ms, k, j - 1) + if k <= j - 1 + ms[j - 1] then Copies(ms, j - 1) else 0
  }

  /** The copies of the first `k` cards, added up. */
  function TotalCopies(ms: seq<nat>, k: nat): nat
    requires k <= |ms|
  {
    if k == 0 then 0 else TotalCopies(ms, k - 1) + Copies(ms, k - 1)
  }

  /** Some card's matches reach past the last card: the source indexes out of range. */
  predicate Overflows(ms: seq<nat>)
  {
    exists i :: 0 <= i < |ms| && i + ms[i] >= |ms|
  }

  function MatchCounts(cards: seq<Card>): (ms: seq<nat>)
    ensures |ms| == |cards| && forall i :: 0 <= i < |cards| ==> ms[i] == |Matches(cards[i])|
  {
    seq(|cards|, i requires 0 <= i < |cards| => |Matches(cards[i])|)
  }

  /** The copies card `k` holds once the cards before `index` are processed. */
  function Partial(ms: seq<nat>, k: nat, index: nat): nat
    requires k < |ms|
  {
    1 + Won(ms, k, Min(k, index))
  }

  /** Processing card `index` adds its final copies to the next `ms[index]`
      cards and to no other card. */
  lemma PartialStep(ms: seq<nat>, k: nat, index: nat)
    requires k < |ms| && index < |ms|
    ensures Partial(ms, k, index + 1) ==
      Partial(ms, k, index) + if index < k <= index + ms[index] then Copies(ms, index) else 0
  {
    if k > index {
      assert Min(k, index + 1) == index + 1 && Min(k, index) == index;
    }
  }

  /** A card's count is final once the cards before it are processed. */
  lemma PartialFinal(ms: seq<nat>, k: nat, index: nat)
    requires k < |ms| && k <= index
    ensures Partial(ms, k, index) == Copies(ms, k)
  {
  }

  /** The inner loop of `main`: the `res` cards after `index` each gain
      `amount` copies; no other card changes. */
  method AddCopies(copies: array<nat>, index: nat, res: nat, amount: nat)
    requires index + res < copies.Length
    modifies copies
    ensures forall k :: 0 <= k < copies.Length ==>
      copies[k] == old(copies[k]) + if index < k <= index + res then amount else 0
  {
    for i := index + 1 to index + res + 1
      invariant forall k :: 0 <= k < copies.Length ==>
        copies[k] == old(copies[k]) + if index < k < i then amount else 0
    {
      copies[i] := copies[i] + amount;
    }
  }

  /** The final loop of `main`: the sum of the copies of all cards. */
  method SumCopies(copies: array<nat>, ghost ms: seq<nat>) returns (total: nat)
    requires |ms| == copies.Length
    requires forall k :: 0 <= k < copies.Length ==> copies[k] == Copies(ms, k)
    ensures total == TotalCopies(ms, |ms|)
  {
    total := 0;
    for k := 0 to copies.Length
      invariant total == TotalCopies(ms, k)
    {
      total := total + copies[k];
    }
  }

  /** The body of `main`: every card starts with one copy; card `index`
      then adds its copies to the next `res` cards, and the copies are summed. */
  method CountScratchcards(cards: seq<Card>) returns (r: Option<nat>)
    ensures r.None? <==> Overflows(MatchCounts(cards))
    ensures r.Some? ==> r.value == TotalCopies(MatchCounts(cards), |cards|)
  {
    ghost var ms := MatchCounts(cards);
    var n := |cards|;
    var copies := new nat[n](_ => 1);
    for index := 0 to n
      invariant forall k :: 0 <= k < n ==> copies[k] == Partial(ms, k, index)
      invariant forall i :: 0 <= i < index ==> i + ms[i] < n
    {
      var res := ComputeLine(cards[index]);
      var indexCopies := copies[index];
      PartialFinal(ms, index, index);
      if index + res >= n {
        assert index + ms[index] >= n;
        return None;
      }
      AddCopies(copies, index, res, indexCopies);
      forall k | 0 <= k < n
        ensures copies[k] == Partial(ms, k, index + 1)
      {
        PartialStep(ms, k, index);
      }
    }
    forall k | 0 <= k < n
      ensures copies[k] == Copies(ms, k)
    {
      PartialFinal(ms, k, n);
    }
    var total := SumCopies(copies, ms);
    return Some(total);
  }

  /** Every card keeps at least its original, so the total is at least the number of cards. */
  lemma {:induction false} TotalAtLeastCards(ms: seq<nat>, k: nat)
    requires k <= |ms|
    ensures TotalCopies(ms, k) >= k
  {
    if k > 0 {
      TotalAtLeastCards(ms, k - 1);
    }
  }

  /** Nothing comes before the first card, so it ends with its one original. */
  lemma FirstCardOnce(ms: seq<nat>)
    requires |ms| > 0
    ensures Copies(ms, 0) == 1
  {
  }

  /** A card wins copies only from earlier cards whose matches reach it:
      without any, it keeps exactly its original. */
  lemma {:induction false} UnreachedCardOnce(ms: seq<nat>, k: nat, j: nat)
    requires k < |ms| && j <= k
    requires forall i :: 0 <= i < j ==> i + ms[i] < k
    ensures Won(ms, k, j) == 0
  {
    if j > 0 {
      UnreachedCardOnce(ms, k, j - 1);
    }
  }
}
