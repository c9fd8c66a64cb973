/** Camel cards (d07/src/main.rs): hands are typed from the counts of their
    cards (with jokers counted towards the strongest card), ordered by type
    and then card by card, and every bid is multiplied by its rank. */
module CamelCards {
  import opened Wrappers

  /** `std::cmp::Ordering`. */
  datatype Ordering = Less | Equal | Greater

  function Flip(o: Ordering): Ordering
  {
    match o
    case Less => Greater
    case Equal => Equal
    case Greater => Less
  }

  function Cmp(a: int, b: int): (o: Ordering)
    ensures o == Less <==> a < b
    ensures o == Greater <==> a > b
  {
    if a < b then Less else if a > b then Greater else Equal
  }

  // ---------------------------------------------------------------------
  // Cards

  /** `get_card_value`: the strength of a card, `J` the weakest; `None` is
      the `unimplemented!()` panic of any other character. */
  function CardValue(card: char): (v: Option<nat>)
    ensures v.Some? ==> 1 <= v.value <= 14
  {
    match card
    case 'A' => Some(14)
    case 'K' => Some(13)
    case 'Q' => Some(12)
    case 'J' => Some(1)
    case 'T' => Some(10)
    case '9' => Some(9)
    case '8' => Some(8)
    case '7' => Some(7)
    case '6' => Some(6)
    case '5' => Some(5)
    case '4' => Some(4)
    case '3' => Some(3)
    case '2' => Some(2)
    case _ => None
  }

  /** The thirteen cards have a value, the digits their own, the joker 1. */
  lemma CardValueTable(card: char)
    ensures CardValue(card).Some? <==> card in "AKQJT98765432"
    ensures card == 'J' ==> CardValue(card) == Some(1)
    ensures '2' <= card <= '9' ==> CardValue(card) == Some(card as int - '0' as int)
  {
  }

  /** Different cards have different strengths, so comparing values never
      confuses two cards. */
  lemma CardValueInjective(a: char, b: char)
    requires CardValue(a).Some? && CardValue(a) == CardValue(b)
    ensures a == b
  {
  }

  /** The joker is weaker than every other card. */
  lemma JokerWeakest(card: char)
    requires CardValue(card).Some? && card != 'J'
    ensures CardValue('J').value < CardValue(card).value
  {
  }

  predicate ValidCards(hand: string)
  {
    forall i :: 0 <= i < |hand| ==> CardValue(hand[i]).Some?
  }

  /** `compare_hands_values`: the ordering of the first pair of cards (in
      the zipped hands) whose values differ, `Equal` when there is none. The
      value of a pair's first card is taken before its second one; a card
      without a value panics. */
  function CompareValues(a: string, b: string): (r: Option<Ordering>)
    ensures ValidCards(a) && ValidCards(b) ==> r.Some?
  {
    if a == [] || b == [] then Some(Equal)
    else
      var va := CardValue(a[0]);
      var vb := CardValue(b[0]);
      if va.None? || vb.None? then None
      else if va.value != vb.value then Some(Cmp(va.value, vb.value))
      else CompareValues(a[1..], b[1..])
  }

  /** Comparing the other way round flips the answer. */
  lemma {:induction false} CompareFlips(a: string, b: string)
    ensures CompareValues(b, a).Some? <==> CompareValues(a, b).Some?
    ensures CompareValues(a, b).Some? ==> CompareValues(b, a).value == Flip(CompareValues(a, b).value)
  {
    if a != [] && b != [] && CardValue(a[0]).Some? && CardValue(b[0]).Some? && CardValue(a[0]) == CardValue(b[0]) {
      CompareFlips(a[1..], b[1..]);
    }
  }

  lemma ValidTail(hand: string)
    requires hand != [] && ValidCards(hand)
    ensures ValidCards(hand[1..])
  {
    assert forall i :: 0 <= i < |hand[1..]| ==> hand[1..][i] == hand[i + 1];
  }

  /** The answer is `Equal` exactly when the zipped cards are equal
      throughout. */
  lemma {:induction false} CompareEqualIffSame(a: string, b: string)
    requires ValidCards(a) && ValidCards(b)
    ensures CompareValues(a, b) == Some(Equal) <==>
      forall i :: 0 <= i < |a| && i < |b| ==> a[i] == b[i]
  {
    if a != [] && b != [] {
      ValidTail(a);
      ValidTail(b);
      if a[0] == b[0] {
        CompareEqualIffSame(a[1..], b[1..]);
        assert forall i :: 1 <= i < |a| && i < |b| ==> a[i] == a[1..][i - 1] && b[i] == b[1..][i - 1];
      } else if CardValue(a[0]) == CardValue(b[0]) {
        CardValueInjective(a[0], b[0]);
      }
    }
  }

  /** Otherwise the answer is the order of the values at the first position
      where the cards differ. */
  lemma {:induction false} CompareFindsFirstDifference(a: string, b: string)
    requires ValidCards(a) && ValidCards(b)
    ensures CompareValues(a, b) != Some(Equal) ==>
      exists i :: 0 <= i < |a| && 0 <= i < |b| && a[..i] == b[..i] &&
        CompareValues(a, b) == Some(Cmp(CardValue(a[i]).value, CardValue(b[i]).value))
  {
    if a != [] && b != [] {
      if a[0] == b[0] {
        ValidTail(a);
        ValidTail(b);
        CompareFindsFirstDifference(a[1..], b[1..]);
        if CompareValues(a, b) != Some(Equal) {
          var i :| 0 <= i < |a| - 1 && 0 <= i < |b| - 1 && a[1..][..i] == b[1..][..i] &&
            CompareValues(a[1..], b[1..]) == Some(Cmp(CardValue(a[1..][i]).value, CardValue(b[1..][i]).value));
          assert a[..i + 1] == [a[0]] + a[1..][..i];
          assert b[..i + 1] == [b[0]] + b[1..][..i];
          assert a[1..][i] == a[i + 1] && b[1..][i] == b[i + 1];
        }
      } else {
        assert a[..0] == b[..0];
      }
    }
  }

  /** The loop of `compare_hands_values`: walk the zipped cards, keep the
      last ordering and stop at the first one that is not `Equal`. The
      invariant `ordering == Equal` only records that the source's
      `ordering` variable is `Equal` while the loop runs; the invariant on
      `CompareValues(a[i..], b[i..])` carries the proof. */
  method CompareHandsValues(a: string, b: string) returns (r: Option<Ordering>)
    ensures r == CompareValues(a, b)
  {
    var ordering := Equal;
    var i := 0;
    while i < |a| && i < |b|
      invariant 0 <= i <= |a| && i <= |b|
      invariant ordering == Equal
      invariant CompareValues(a, b) == CompareValues(a[i..], b[i..])
    {
      assert a[i..][1..] == a[i + 1..] && b[i..][1..] == b[i + 1..];
      var va := CardValue(a[i]);
      var vb := CardValue(b[i]);
      if va.None? || vb.None? {
        return None;
      }
      ordering := Cmp(va.value, vb.value);
      if ordering != Equal {
        return Some(ordering);
      }
      i := i + 1;
    }
    return Some(ordering);
  }

  /** The tests of `compare_hands_values`: a hand against itself, ... */
  lemma CompareExampleEqual()
    ensures CompareValues("32T3K", "32T3K") == Some(Equal)
  {
    assert "32T3K"[1..] == "2T3K" && "2T3K"[1..] == "T3K" && "T3K"[1..] == "3K" && "3K"[1..] == "K";
    assert CompareValues("K", "K") == Some(Equal) by {
      assert "K"[1..] == [];
    }
  }

  /** ... a difference at the fourth card, ... */
  lemma CompareExampleGreater()
    ensures CompareValues("32T4K", "32T3K") == Some(Greater)
  {
    assert "32T4K"[1..] == "2T4K" && "2T4K"[1..] == "T4K" && "T4K"[1..] == "4K";
    assert "32T3K"[1..] == "2T3K" && "2T3K"[1..] == "T3K" && "T3K"[1..] == "3K";
  }

  /** ... and one at the second card, which decides before the fourth. */
  lemma CompareExampleLess()
    ensures CompareValues("32T4K", "3AT3K") == Some(Less)
  {
    assert "32T4K"[1..] == "2T4K" && "3AT3K"[1..] == "AT3K";
  }

  // ---------------------------------------------------------------------
  // Hand types

  /** `HandType`, declared weakest first. */
  datatype HandType = HighCard | OnePair | TwoPair | ThreeOfAKind | FullHouse | FourOfAKind | FiveOfAKind

  /** The derived `Ord` of `HandType`: the declaration order. */
  function Rank(t: HandType): (n: nat)
    ensures n <= 6
  {
    match t
    case HighCard => 0
    case OnePair => 1
    case TwoPair => 2
    case ThreeOfAKind => 3
    case FullHouse => 4
    case FourOfAKind => 5
    case FiveOfAKind => 6
  }

  /** Different types have different ranks; the test compares five of a
      kind with a full house. */
  lemma RankOrder(s: HandType, t: HandType)
    ensures Rank(s) == Rank(t) <==> s == t
    ensures Rank(FiveOfAKind) > Rank(FullHouse)
  {
  }

  /** The count of each card of the hand, keyed by card: the `HashMap`
      filled by the `fold` over the characters. */
  function Tally(hand: string): (m: map<char, nat>)
    ensures forall c :: c in m <==> c in hand
  {
    if hand == [] then map[]
    else
      var init := hand[..|hand| - 1];
      var c := hand[|hand| - 1];
      assert hand == init + [c];
      var m := Tally(init);
      m[c := (if c in m then m[c] else 0) + 1]
  }

  /** Each entry of the tally is the number of times its card occurs. */
  lemma {:induction false} TallyCounts(hand: string)
    ensures forall c :: c in Tally(hand) ==> Tally(hand)[c] == multiset(hand)[c] >= 1
  {
    if hand != [] {
      var init := hand[..|hand| - 1];
      var c := hand[|hand| - 1];
      assert hand == init + [c];
      TallyCounts(init);
    }
  }

  /** The cards of the hand in the order their entries were created. */
  function Order(hand: string): (o: seq<char>)
    ensures forall c :: c in o <==> c in hand
  {
    if hand == [] then []
    else
      var init := hand[..|hand| - 1];
      var c := hand[|hand| - 1];
      assert hand == init + [c];
      var o := Order(init);
      if c in o then o else o + [c]
  }

  /** The counts stored under `keys`, in that order (a key without an
      entry would read as 0; the keys used below always have one). */
  function Values(m: map<char, nat>, keys: seq<char>): (vs: seq<nat>)
    ensures |vs| == |keys|
    ensures forall i :: 0 <= i < |keys| && keys[i] in m ==> vs[i] == m[keys[i]]
  {
    if keys == [] then [] else [if keys[0] in m then m[keys[0]] else 0] + Values(m, keys[1..])
  }

  function Sum(s: seq<nat>): nat
  {
    if s == [] then 0 else s[0] + Sum(s[1..])
  }

  lemma {:induction false} SumAppend(a: seq<nat>, b: seq<nat>)
    ensures Sum(a + b) == Sum(a) + Sum(b)
  {
    if a == [] {
      assert a + b == b;
    } else {
      assert (a + b)[1..] == a[1..] + b;
      SumAppend(a[1..], b);
    }
  }

  /** Raising the count under one of distinct keys raises the sum by one. */
  lemma {:induction false} SumBump(m: map<char, nat>, keys: seq<char>, c: char)
    requires Distinct(keys)
    requires c in keys && c in m
    ensures Sum(Values(m[c := m[c] + 1], keys)) == Sum(Values(m, keys)) + 1
  {
    if keys[0] == c {
      ValuesFrame(m, keys[1..], c, m[c] + 1);
    } else {
      SumBump(m, keys[1..], c);
    }
  }

  /** Values under keys other than `c` do not see an update of `c`. */
  lemma {:induction false} ValuesFrame(m: map<char, nat>, keys: seq<char>, c: char, v: nat)
    requires c !in keys
    ensures Values(m[c := v], keys) == Values(m, keys)
  {
    if keys != [] {
      ValuesFrame(m, keys[1..], c, v);
    }
  }

  lemma {:induction false} ValuesAppend(m: map<char, nat>, keys: seq<char>, c: char)
    requires c in m
    ensures Values(m, keys + [c]) == Values(m, keys) + [m[c]]
  {
    if keys == [] {
      assert keys + [c] == [c];
    } else {
      assert (keys + [c])[1..] == keys[1..] + [c];
      ValuesAppend(m, keys[1..], c);
    }
  }

  /** Reading one more card bumps its count, or gives it the count 1. */
  lemma TallySnoc(s: string, c: char)
    ensures c in s ==> Tally(s + [c]) == Tally(s)[c := Tally(s)[c] + 1]
    ensures c !in s ==> Tally(s + [c]) == Tally(s)[c := 1]
  {
    var h := s + [c];
    assert h[..|h| - 1] == s;
    if c in s {
      assert c in Tally(s);
    } else {
      assert c !in Tally(s);
    }
  }

  /** A card read for the first time goes to the end of the order. */
  lemma OrderSnoc(s: string, c: char)
    ensures c in s ==> Order(s + [c]) == Order(s)
    ensures c !in s ==> Order(s + [c]) == Order(s) + [c]
  {
    var h := s + [c];
    assert h[..|h| - 1] == s;
    if c in s {
      assert c in Order(s);
    } else {
      assert c !in Order(s);
    }
  }

  /** The same two steps, read off the last card of a hand. */
  lemma TallyLast(hand: string)
    requires hand != []
    ensures var init, c := hand[..|hand| - 1], hand[|hand| - 1];
      if c in init then Tally(hand) == Tally(init)[c := Tally(init)[c] + 1] && Order(hand) == Order(init)
      else Tally(hand) == Tally(init)[c := 1] && Order(hand) == Order(init) + [c]
  {
    var init, c := hand[..|hand| - 1], hand[|hand| - 1];
    if c in init {
      assert c in Tally(init) && c in Order(init);
    } else {
      assert c !in Tally(init) && c !in Order(init);
    }
  }

  /** No key occurs twice. */
  predicate Distinct(s: seq<char>)
  {
    s == [] || (s[0] !in s[1..] && Distinct(s[1..]))
  }

  /** A key not yet present keeps the keys distinct when appended. */
  lemma {:induction false} DistinctSnoc(s: seq<char>, c: char)
    requires Distinct(s) && c !in s
    ensures Distinct(s + [c])
  {
    if s == [] {
      assert [] + [c] == [c];
    } else {
      assert (s + [c])[1..] == s[1..] + [c];
      DistinctSnoc(s[1..], c);
    }
  }

  /** Each card appears once in the order. */
  lemma {:induction false} OrderDistinct(hand: string)
    ensures Distinct(Order(hand))
  {
    if hand != [] {
      var init, c := hand[..|hand| - 1], hand[|hand| - 1];
      OrderDistinct(init);
      TallyLast(hand);
      if c !in init {
        DistinctSnoc(Order(init), c);
      }
    }
  }

  /** Counting a new card appends a count of one. */
  lemma SumStepNew(m: map<char, nat>, o: seq<char>, c: char)
    requires c !in o
    ensures Sum(Values(m[c := 1], o + [c])) == Sum(Values(m, o)) + 1
  {
    ValuesFrame(m, o, c, 1);
    ValuesAppend(m[c := 1], o, c);
    SumAppend(Values(m, o), [1]);
  }

  /** A repeated last card adds one to the total of the counts. */
  lemma CountsStepSeen(hand: string)
    requires hand != [] && hand[|hand| - 1] in hand[..|hand| - 1]
    ensures Sum(Values(Tally(hand), Order(hand))) == Sum(Values(Tally(hand[..|hand| - 1]), Order(hand[..|hand| - 1]))) + 1
  {
    var init, c := hand[..|hand| - 1], hand[|hand| - 1];
    var m, o := Tally(init), Order(init);
    TallyLast(hand);
    assert c in m && c in o;
    OrderDistinct(init);
    SumBump(m, o, c);
    assert Values(Tally(hand), Order(hand)) == Values(m[c := m[c] + 1], o);
  }

  /** A new last card adds one to the total of the counts. */
  lemma CountsStepNew(hand: string)
    requires hand != [] && hand[|hand| - 1] !in hand[..|hand| - 1]
    ensures Sum(Values(Tally(hand), Order(hand))) == Sum(Values(Tally(hand[..|hand| - 1]), Order(hand[..|hand| - 1]))) + 1
  {
    var init, c := hand[..|hand| - 1], hand[|hand| - 1];
    var m, o := Tally(init), Order(init);
    TallyLast(hand);
    SumStepNew(m, o, c);
    assert Values(Tally(hand), Order(hand)) == Values(m[c := 1], o + [c]);
  }

  /** The counts add up to the length of the hand. */
  lemma {:induction false} CountsSumToLength(hand: string)
    ensures Sum(Values(Tally(hand), Order(hand))) == |hand|
  {
    if hand != [] {
      CountsSumToLength(hand[..|hand| - 1]);
      if hand[|hand| - 1] in hand[..|hand| - 1] {
        CountsStepSeen(hand);
      } else {
        CountsStepNew(hand);
      }
    }
  }

  // ---------------------------------------------------------------------
  // Classification

  predicate Descending(s: seq<nat>)
  {
    forall i, j :: 0 <= i < j < |s| ==> s[i] >= s[j]
  }

  /** `x` put into a descending sequence at its place. */
  function InsertDesc(x: nat, s: seq<nat>): (r: seq<nat>)
    ensures multiset(r) == multiset(s) + multiset{x}
  {
    if s == [] || x >= s[0] then [x] + s
    else
      assert s == [s[0]] + s[1..];
      [s[0]] + InsertDesc(x, s[1..])
  }

  /** A head no smaller than the first of a descending sequence keeps it
      descending. */
  lemma DescendingCons(h: nat, s: seq<nat>)
    requires Descending(s) && (s == [] || s[0] <= h)
    ensures Descending([h] + s)
  {
    forall i, j | 0 <= i < j < |[h] + s|
      ensures ([h] + s)[i] >= ([h] + s)[j]
    {
      if i == 0 {
        assert ([h] + s)[j] == s[j - 1] <= s[0];
      } else {
        assert ([h] + s)[i] == s[i - 1] && ([h] + s)[j] == s[j - 1];
      }
    }
  }

  /** The first element after an insertion: `x` or the old first. */
  lemma InsertDescHead(x: nat, s: seq<nat>)
    ensures InsertDesc(x, s)[0] == if s == [] || x >= s[0] then x else s[0]
  {
  }

  /** Inserting keeps a sequence descending. */
  lemma {:induction false} InsertDescSorted(x: nat, s: seq<nat>)
    requires Descending(s)
    ensures Descending(InsertDesc(x, s))
  {
    if s == [] || x >= s[0] {
      DescendingCons(x, s);
    } else {
      var rest := InsertDesc(x, s[1..]);
      assert Descending(s[1..]) by {
        forall i, j | 0 <= i < j < |s[1..]|
          ensures s[1..][i] >= s[1..][j]
        {
          assert s[1..][i] == s[i + 1] && s[1..][j] == s[j + 1];
        }
      }
      InsertDescSorted(x, s[1..]);
      InsertDescHead(x, s[1..]);
      if |s| > 1 {
        assert s[1..][0] == s[1] <= s[0];
      }
      DescendingCons(s[0], rest);
    }
  }

  lemma {:induction false} SumInsertDesc(x: nat, s: seq<nat>)
    ensures Sum(InsertDesc(x, s)) == x + Sum(s)
  {
    if s != [] && x < s[0] {
      SumInsertDesc(x, s[1..]);
    }
  }

  /** The counts sorted largest first: the `sort` and `reverse` of the
      collected values. */
  function SortDesc(s: seq<nat>): (r: seq<nat>)
    ensures Descending(r) && multiset(r) == multiset(s)
    ensures |r| == |s|
  {
    if s == [] then []
    else
      assert s == [s[0]] + s[1..];
      InsertDescSorted(s[0], SortDesc(s[1..]));
      InsertDesc(s[0], SortDesc(s[1..]))
  }

  lemma {:induction false} SumSortDesc(s: seq<nat>)
    ensures Sum(SortDesc(s)) == Sum(s)
  {
    if s != [] {
      SumSortDesc(s[1..]);
      SumInsertDesc(s[0], SortDesc(s[1..]));
    }
  }

  /** The chain of tests on the descending counts. */
  function Classify(vs: seq<nat>): HandType
    requires vs != []
  {
    if |vs| == 1 then FiveOfAKind
    else if vs[0] == 4 then FourOfAKind
    else if |vs| == 2 && vs[0] == 3 then FullHouse
    else if vs[0] == 3 then ThreeOfAKind
    else if vs[0] == 2 && vs[1] == 2 then TwoPair
    else if vs[0] == 2 then OnePair
    else HighCard
  }

  /** `get_hand_type`: the type from the descending counts; `None` is the
      out-of-range `values[0]` of the empty hand. */
  function HandTypeOf(hand: string): (r: Option<HandType>)
    ensures r.None? <==> hand == []
  {
    var vs := SortDesc(Values(Tally(hand), Order(hand)));
    if vs == [] then None
    else Some(Classify(vs))
  }

  /** The keys other than `c`, in order. */
  function Without(keys: seq<char>, c: char): (r: seq<char>)
    ensures forall k :: k in r <==> k in keys && k != c
  {
    if keys == [] then []
    else if keys[0] == c then Without(keys[1..], c)
    else [keys[0]] + Without(keys[1..], c)
  }

  lemma {:induction false} WithoutAppend(keys: seq<char>, c: char, k: char)
    ensures Without(keys + [k], c) == Without(keys, c) + (if k == c then [] else [k])
  {
    if keys == [] {
      assert keys + [k] == [k];
    } else {
      assert (keys + [k])[1..] == keys[1..] + [k];
      WithoutAppend(keys[1..], c, k);
    }
  }

  /** The joker count: the entry removed for `J`, or 0. */
  function Jokers(hand: string): nat
  {
    var m := Tally(hand);
    if 'J' in m then m['J'] else 0
  }

  /** The counts the joker rule classifies: the other cards' counts, largest
      first, with the jokers added to the largest; the jokers alone when no
      other card is left. */
  function JokerValues(hand: string): (vs: seq<nat>)
    ensures vs != []
  {
    AddJokers(SortDesc(Values(Tally(hand), Without(Order(hand), 'J'))), Jokers(hand))
  }

  /** The jokers join the largest count, or stand alone. */
  function AddJokers(others: seq<nat>, jokers: nat): (vs: seq<nat>)
    ensures |vs| == if others == [] then 1 else |others|
    ensures Sum(vs) == Sum(others) + jokers
  {
    if others != [] then [others[0] + jokers] + others[1..] else [jokers]
  }

  /** `get_hand_type_with_jokers`. */
  function HandTypeWithJokers(hand: string): HandType
  {
    Classify(JokerValues(hand))
  }

  /** A hand without jokers keeps its type under the joker rule. */
  lemma NoJokerSameType(hand: string)
    requires 'J' !in hand
    ensures HandTypeOf(hand) == if hand == [] then None else Some(HandTypeWithJokers(hand))
  {
    WithoutAbsent(Order(hand), 'J');
  }

  lemma {:induction false} WithoutAbsent(keys: seq<char>, c: char)
    requires c !in keys
    ensures Without(keys, c) == keys
  {
    if keys != [] {
      WithoutAbsent(keys[1..], c);
    }
  }

  /** A hand of jokers only (or no cards at all) is five of a kind. */
  lemma JokersOnlyFive(hand: string)
    requires forall i :: 0 <= i < |hand| ==> hand[i] == 'J'
    ensures HandTypeWithJokers(hand) == FiveOfAKind
  {
    var o := Without(Order(hand), 'J');
    assert forall k :: k !in o;
  }

  /** The joker counts and the counts of the other cards still add up to
      the length of the hand. */
  lemma JokerCountsSumToLength(hand: string)
    ensures Sum(JokerValues(hand)) == |hand|
  {
    var kept := Values(Tally(hand), Without(Order(hand), 'J'));
    KeptPlusJokers(hand);
    SumSortDesc(kept);
  }

  /** The counts of the cards other than `J` and the jokers make the hand. */
  lemma KeptPlusJokers(hand: string)
    ensures Sum(Values(Tally(hand), Without(Order(hand), 'J'))) + Jokers(hand) == |hand|
  {
    var m := Tally(hand);
    var o := Order(hand);
    CountsSumToLength(hand);
    OrderDistinct(hand);
    SumWithout(m, o, 'J');
    assert ('J' in o) == ('J' in m);
  }

  /** Leaving the key `c` out of distinct keys removes exactly its count. */
  lemma {:induction false} SumWithout(m: map<char, nat>, keys: seq<char>, c: char)
    requires Distinct(keys)
    ensures Sum(Values(m, keys)) == Sum(Values(m, Without(keys, c))) + (if c in keys && c in m then m[c] else 0)
  {
    if keys != [] {
        SumWithout(m, keys[1..], c);
    }
  }

  /** One card read onto a hand whose tally and order are known. */
  lemma CountStep(s: string, c: char, m: map<char, nat>, o: seq<char>)
    requires Tally(s) == m && Order(s) == o
    ensures Tally(s + [c]) == m[c := (if c in m then m[c] else 0) + 1]
    ensures Order(s + [c]) == if c in o then o else o + [c]
  {
    TallySnoc(s, c);
    OrderSnoc(s, c);
  }

  /** The first two cards of a hand shaped like `T55J5`. */
  lemma TallyTF(t: char, f: char, h: string)
    requires t != f && h == [t, f]
    ensures Tally(h) == map[t := 1, f := 1] && Order(h) == [t, f]
  {
    var s0: string := [];
    assert Tally(s0) == map[] && Order(s0) == [];
    CountStep(s0, t, map[], []);
    CountStep(s0 + [t], f, map[t := 1], [t]);
    assert s0 + [t] + [f] == h;
  }

  /** ... then the second `f`, ... */
  lemma TallyTFF(t: char, f: char, h: string)
    requires t != f && h == [t, f, f]
    ensures Tally(h) == map[t := 1, f := 2] && Order(h) == [t, f]
  {
    var s2 := h[..2];
    TallyTF(t, f, s2);
    CountStep(s2, f, map[t := 1, f := 1], [t, f]);
    assert s2 + [f] == h;
  }

  /** ... then the joker `j`, ... */
  lemma TallyTFFJ(t: char, f: char, j: char, h: string)
    requires t != f && f != j && t != j && h == [t, f, f, j]
    ensures Tally(h) == map[t := 1, f := 2, j := 1] && Order(h) == [t, f, j]
  {
    var s3 := h[..3];
    TallyTFF(t, f, s3);
    CountStep(s3, j, map[t := 1, f := 2], [t, f]);
    assert s3 + [j] == h;
  }

  /** The cards and counts of a hand shaped like `T55J5`, read card by card. */
  lemma TallyT55J5(t: char, f: char, j: char, h: string)
    requires t != f && f != j && t != j && h == [t, f, f, j, f]
    ensures Tally(h) == map[t := 1, f := 3, j := 1]
    ensures Order(h) == [t, f, j]
  {
    var s4 := h[..4];
    TallyTFFJ(t, f, j, s4);
    CountStep(s4, f, map[t := 1, f := 2, j := 1], [t, f, j]);
    assert s4 + [f] == h;
  }

  /** The test hand `T55J5`: three of a kind, and four of a kind once the
      joker joins the fives. */
  lemma HandExampleT55J5()
    ensures HandTypeOf("T55J5") == Some(ThreeOfAKind)
    ensures HandTypeWithJokers("T55J5") == FourOfAKind
  {
    var hand := "T55J5";
    TallyT55J5('T', '5', 'J', hand);
    SortPair(1, 3);
    SortTripleExample();
    CountsExample(Tally(hand));
    WithoutExample();
    var m, order := Tally(hand), Order(hand);
    assert SortDesc(Values(m, order)) == [3, 1, 1];
    FiveCardPatterns();
    JokersExample(m, order);
    assert Jokers(hand) == m['J'];
  }

  lemma CountsExample(m: map<char, nat>)
    requires m == map['T' := 1, '5' := 3, 'J' := 1]
    ensures Values(m, ['T', '5', 'J']) == [1, 3, 1]
    ensures Values(m, ['T', '5']) == [1, 3]
  {
    var order: seq<char> := ['T', '5', 'J'];
    assert order[1..] == ['5', 'J'] && order[1..][1..] == ['J'] && order[1..][1..][1..] == [];
    var kept: seq<char> := ['T', '5'];
    assert kept[1..] == ['5'] && kept[1..][1..] == [];
  }

  /** With one joker and the others counted `[1, 3]`, the joker rule
      classifies `[4, 1]`. */
  lemma JokersExample(m: map<char, nat>, order: seq<char>)
    requires m == map['T' := 1, '5' := 3, 'J' := 1] && order == ['T', '5', 'J']
    requires Values(m, Without(order, 'J')) == [1, 3] && SortDesc([1, 3]) == [3, 1]
    ensures Classify(AddJokers(SortDesc(Values(m, Without(order, 'J'))), m['J'])) == FourOfAKind
  {
  }

  lemma WithoutExample()
    ensures Without(['T', '5', 'J'], 'J') == ['T', '5']
  {
    var order: seq<char> := ['T', '5', 'J'];
    assert order[1..] == ['5', 'J'] && order[1..][1..] == ['J'] && order[1..][1..][1..] == [];
    assert Without(['J'], 'J') == [];
    assert Without(['5', 'J'], 'J') == ['5'];
  }

  /** Two counts sorted largest first. */
  lemma SortPair(x: nat, y: nat)
    ensures SortDesc([x, y]) == if x >= y then [x, y] else [y, x]
  {
    var s: seq<nat> := [x, y];
    assert s[1..] == [y];
    assert SortDesc([y]) == [y] by {
      assert [y][1..] == [];
    }
    if x < y {
      assert InsertDesc(x, [y]) == [y] + InsertDesc(x, []);
    }
  }

  /** The counts `[1, 3, 1]` sorted largest first. */
  lemma SortTripleExample()
    ensures SortDesc([1, 3, 1]) == [3, 1, 1]
  {
    var s: seq<nat> := [1, 3, 1];
    SortPair(3, 1);
    assert s[1..] == [3, 1];
    assert InsertDesc(1, [1]) == [1, 1];
    assert InsertDesc(1, [3, 1]) == [3] + InsertDesc(1, [1]);
  }



  /** The seven count patterns of a five-card hand and their types. */
  lemma FiveCardPatterns()
    ensures Classify([5]) == FiveOfAKind && Classify([4, 1]) == FourOfAKind
    ensures Classify([3, 2]) == FullHouse && Classify([3, 1, 1]) == ThreeOfAKind
    ensures Classify([2, 2, 1]) == TwoPair && Classify([2, 1, 1, 1]) == OnePair
    ensures Classify([1, 1, 1, 1, 1]) == HighCard
  {
  }

  // ---------------------------------------------------------------------
  // The counting loops

  /** The `fold` that fills the `HashMap`: one entry per card, created on
      its first occurrence and bumped on every occurrence. */
  method CountCards(hand: string) returns (counts: map<char, nat>, order: seq<char>)
    ensures counts == Tally(hand) && order == Order(hand)
  {
    counts := map[];
    order := [];
    ghost var seen: string := [];
    for i := 0 to |hand|
      invariant seen == hand[..i]
      invariant counts == Tally(seen) && order == Order(seen)
    {
      counts, order := AddCard(counts, order, hand[i], seen);
      PrefixSnoc(hand, i);
      seen := seen + [hand[i]];
    }
    assert hand[..|hand|] == hand;
  }

  lemma PrefixSnoc(s: string, i: nat)
    requires i < |s|
    ensures s[..i] + [s[i]] == s[..i + 1]
  {
  }

  /** One card of the counting loop: a card not yet seen goes to the end of
      the order, and its count goes up by one. */
  method AddCard(counts: map<char, nat>, order: seq<char>, c: char, ghost seen: string) returns (counts': map<char, nat>, order': seq<char>)
    requires counts == Tally(seen) && order == Order(seen)
    ensures counts' == Tally(seen + [c]) && order' == Order(seen + [c])
  {
    TallySnoc(seen, c);
    OrderSnoc(seen, c);
    assert c in counts <==> c in seen;
    if c in counts {
      counts' := counts[c := counts[c] + 1];
      order' := order;
    } else {
      counts' := counts[c := 1];
      order' := order + [c];
    }
  }

  /** `get_hand_type`: count, collect the counts, sort them largest first
      and run down the tests. */
  method GetHandType(hand: string) returns (r: Option<HandType>)
    ensures r == HandTypeOf(hand)
  {
    var counts, order := CountCards(hand);
    var values := seq(|order|, i requires 0 <= i < |order| => counts[order[i]]);
    assert values == Values(counts, order);
    values := SortDesc(values);
    if |values| == 0 {
      return None;
    }
    return Some(Classify(values));
  }

  /** The counts of the cards other than `J`, in first-seen order: the
      entries left in the `HashMap` once `J` is removed. */
  method KeptCounts(counts: map<char, nat>, order: seq<char>) returns (values: seq<nat>)
    requires forall k :: k in order ==> k in counts
    ensures values == Values(counts, Without(order, 'J'))
  {
    values := [];
    for i := 0 to |order|
      invariant values == Values(counts, Without(order[..i], 'J'))
    {
      assert order[..i + 1] == order[..i] + [order[i]];
      WithoutAppend(order[..i], 'J', order[i]);
      if order[i] != 'J' {
        assert Without(order[..i + 1], 'J') == Without(order[..i], 'J') + [order[i]];
        ValuesAppend(counts, Without(order[..i], 'J'), order[i]);
        values := values + [counts[order[i]]];
      } else {
        assert Without(order[..i], 'J') + [] == Without(order[..i], 'J');
      }
    }
    assert order[..|order|] == order;
  }

  /** The first half of `get_hand_type_with_jokers`: count the cards and
      take the `J` entry out of the `HashMap`. */
  method SplitJokers(hand: string) returns (kept: seq<nat>, jokers: nat)
    ensures kept == Values(Tally(hand), Without(Order(hand), 'J'))
    ensures jokers == Jokers(hand)
  {
    var counts, order := CountCards(hand);
    jokers := if 'J' in counts then counts['J'] else 0;
    kept := KeptCounts(counts, order);
  }

  /** `get_hand_type_with_jokers`: sort the other cards' counts largest
      first, give the jokers to the first (or keep the jokers alone) and run
      down the tests. */
  method GetHandTypeWithJokers(hand: string) returns (r: HandType)
    ensures r == HandTypeWithJokers(hand)
  {
    var kept, jokers := SplitJokers(hand);
    var others := SortDesc(kept);
    r := Classify(AddJokers(others, jokers));
  }

  // ---------------------------------------------------------------------
  // Ranking

  /** A parsed hand with the type the joker rule gives it. */
  datatype Hand = Hand(value: string, bid: nat, handType: HandType)

  /** The comparator of the `sort_by` in `main`: `a` may precede `b` unless
      it has the stronger type, or the same type and stronger cards. */
  predicate NotAfter(a: Hand, b: Hand)
  {
    Rank(a.handType) < Rank(b.handType) ||
    (a.handType == b.handType && CompareValues(a.value, b.value) != Some(Greater))
  }

  /** Either hand may come first of two. */
  lemma NotAfterTotal(a: Hand, b: Hand)
    ensures NotAfter(a, b) || NotAfter(b, a)
  {
    CompareFlips(a.value, b.value);
    RankOrder(a.handType, b.handType);
  }

  predicate SortedHands(s: seq<Hand>)
  {
    forall i :: 0 < i < |s| ==> NotAfter(s[i - 1], s[i])
  }

  /** `h` placed after every hand it may follow, from the back: a stable
      insertion. */
  function InsertHand(s: seq<Hand>, h: Hand): (r: seq<Hand>)
    ensures multiset(r) == multiset(s) + multiset{h}
    ensures |r| == |s| + 1
  {
    if s == [] || NotAfter(s[|s| - 1], h) then s + [h]
    else
      assert s == s[..|s| - 1] + [s[|s| - 1]];
      InsertHand(s[..|s| - 1], h) + [s[|s| - 1]]
  }

  /** The last hand after an insertion is the inserted one or the old last. */
  lemma {:induction false} InsertHandLast(s: seq<Hand>, h: Hand)
    ensures var r := InsertHand(s, h);
      r[|r| - 1] == h || (s != [] && r[|r| - 1] == s[|s| - 1])
  {
  }

  /** A stable insertion keeps the hands sorted. */
  lemma {:induction false} InsertHandSorted(s: seq<Hand>, h: Hand)
    requires SortedHands(s)
    ensures SortedHands(InsertHand(s, h))
    decreases |s|
  {
    if s != [] && !NotAfter(s[|s| - 1], h) {
      var init := s[..|s| - 1];
      var last := s[|s| - 1];
      assert SortedHands(init);
      InsertHandSorted(init, h);
      var r := InsertHand(init, h);
      InsertHandLast(init, h);
      NotAfterTotal(last, h);
      if init != [] {
        assert NotAfter(init[|init| - 1], last);
      }
      assert NotAfter(r[|r| - 1], last);
      assert InsertHand(s, h) == r + [last];
      SortedSnoc(r, last);
    }
  }

  /** A hand that may follow the last of sorted hands extends them. */
  lemma SortedSnoc(s: seq<Hand>, h: Hand)
    requires SortedHands(s) && (s == [] || NotAfter(s[|s| - 1], h))
    ensures SortedHands(s + [h])
  {
    forall i | 0 < i < |s + [h]|
      ensures NotAfter((s + [h])[i - 1], (s + [h])[i])
    {
      if i < |s| {
        assert (s + [h])[i - 1] == s[i - 1] && (s + [h])[i] == s[i];
      }
    }
  }

  /** The hands sorted by strength, weakest first; equal hands keep their
      input order (`sort_by` is stable). */
  function SortHands(hands: seq<Hand>): (r: seq<Hand>)
    ensures SortedHands(r) && multiset(r) == multiset(hands)
  {
    if hands == [] then []
    else
      var init := hands[..|hands| - 1];
      assert hands == init + [hands[|hands| - 1]];
      InsertHandSorted(SortHands(init), hands[|hands| - 1]);
      InsertHand(SortHands(init), hands[|hands| - 1])
  }

  /** The rank-weighted sum of the bids: the hand at 0-based position `i`
      wins `(i + 1) * bid`. */
  function Winnings(s: seq<Hand>): nat
  {
    if s == [] then 0 else Winnings(s[..|s| - 1]) + |s| * s[|s| - 1].bid
  }

  function Bids(s: seq<Hand>): nat
  {
    if s == [] then 0 else Bids(s[..|s| - 1]) + s[|s| - 1].bid
  }

  /** Every bid counts at least once: the weakest hand has rank 1. */
  lemma {:induction false} WinningsAtLeastBids(s: seq<Hand>)
    ensures Winnings(s) >= Bids(s)
  {
    if s != [] {
      WinningsAtLeastBids(s[..|s| - 1]);
    }
  }

  /** No bid counts more than once per hand: the strongest hand has rank
      `|s|`. */
  lemma {:induction false} WinningsAtMostRankTimesBids(s: seq<Hand>)
    ensures Winnings(s) <= |s| * Bids(s)
  {
    if s != [] {
      var init := s[..|s| - 1];
      var b := s[|s| - 1].bid;
      WinningsAtMostRankTimesBids(init);
      assert |init| * Bids(init) <= |s| * Bids(init) by {
        MulMonotone(|init|, |s|, Bids(init));
      }
      assert |s| * Bids(s) == |s| * Bids(init) + |s| * b;
    }
  }

  lemma MulMonotone(a: nat, b: nat, c: nat)
    requires a <= b
    ensures a * c <= b * c
  {
  }

  /** The hands of the input typed by the joker rule. */
  function Typed(input: seq<(string, nat)>): (hs: seq<Hand>)
    ensures |hs| == |input|
  {
    if input == [] then []
    else
      var (value, bid) := input[|input| - 1];
      Typed(input[..|input| - 1]) + [Hand(value, bid, HandTypeWithJokers(value))]
  }

  /** The loop of `main` that parses and types the hands. */
  method TypeHands(input: seq<(string, nat)>) returns (hands: seq<Hand>)
    ensures hands == Typed(input)
  {
    hands := [];
    for i := 0 to |input|
      invariant hands == Typed(input[..i])
    {
      assert input[..i + 1][..i] == input[..i];
      var t := GetHandTypeWithJokers(input[i].0);
      hands := hands + [Hand(input[i].0, input[i].1, t)];
    }
    assert input[..|input|] == input;
  }

  /** The `fold` of `main`: the hand at 0-based position `i` wins
      `(i + 1) * bid`. */
  method SumWinnings(sorted: seq<Hand>) returns (r: nat)
    ensures r == Winnings(sorted)
  {
    r := 0;
    for i := 0 to |sorted|
      invariant r == Winnings(sorted[..i])
    {
      assert sorted[..i + 1][..i] == sorted[..i];
      r := r + (i + 1) * sorted[i].bid;
    }
    assert sorted[..|sorted|] == sorted;
  }

  /** `main`: type every hand with the joker rule, sort the hands and sum
      the rank-weighted bids. */
  method TotalWinnings(input: seq<(string, nat)>) returns (r: nat)
    ensures r == Winnings(SortHands(Typed(input)))
  {
    var hands := TypeHands(input);
    r := SumWinnings(SortHands(hands));
  }
}
