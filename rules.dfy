/**
 * The fixed tables of the game (suits, ranks, rank values) and the pure
 * specification of a hand's value, stated over the sequence of its ranks.
 */
module Rules {

  /** The suits, in the order the deck is built: clubs, spades, hearts, diamonds. */
  const SUITS: seq<char> := ['C', 'S', 'H', 'D']

  /** The ranks, in the order the deck is built; 'T' is the ten. */
  const RANKS: seq<char> := ['A', '2', '3', '4', '5', '6', '7', '8', '9', 'T', 'J', 'Q', 'K']

  /** The value of each rank, with the ace counted as 1. */
  const VALUES: map<char, nat> := map['A' := 1, '2' := 2, '3' := 3, '4' := 4, '5' := 5, '6' := 6,
                                      '7' := 7, '8' := 8, '9' := 9, 'T' := 10, 'J' := 10,
                                      'Q' := 10, 'K' := 10]

  /** Every rank is a key of VALUES, worth between 1 and 10, and every key is a rank. */
  lemma RankTable()
    ensures forall r :: r in RANKS <==> r in VALUES
    ensures forall r :: r in VALUES ==> 1 <= VALUES[r] <= 10
    ensures VALUES['A'] == 1
  {
  }

  /** Every rank in the sequence has an entry in VALUES (no lookup raises). */
  predicate Known(ranks: seq<char>)
  {
    forall i :: 0 <= i < |ranks| ==> ranks[i] in VALUES
  }

  /** The hard total: the sum of VALUES over the ranks, accumulated left to right. */
  function RankSum(ranks: seq<char>): nat
    requires Known(ranks)
  {
    if ranks == [] then 0 else RankSum(ranks[..|ranks| - 1]) + VALUES[ranks[|ranks| - 1]]
  }

  /** The number of aces among the ranks. */
  function AceCount(ranks: seq<char>): nat
  {
    if ranks == [] then 0
    else AceCount(ranks[..|ranks| - 1]) + (if ranks[|ranks| - 1] == 'A' then 1 else 0)
  }

  /**
   * The value of a hand: the hard total, plus 10 (one ace promoted from 1 to 11)
   * when the hand holds an ace and the promotion does not take it past 21.
   */
  function HandValue(ranks: seq<char>): (v: nat)
    requires Known(ranks)
    ensures v == RankSum(ranks) || ('A' in ranks && v == RankSum(ranks) + 10)
    ensures v > 21 <==> RankSum(ranks) > 21
  {
    var hard := RankSum(ranks);
    if 'A' in ranks && hard + 10 <= 21 then hard + 10 else hard
  }

  /** The total obtained when `promoted` of the aces count 11 and the other cards their VALUES. */
  function Total(ranks: seq<char>, promoted: nat): nat
    requires Known(ranks)
  {
    RankSum(ranks) + 10 * promoted
  }

  lemma {:induction false} RankSumAppend(a: seq<char>, b: seq<char>)
    requires Known(a) && Known(b)
    ensures Known(a + b)
    ensures RankSum(a + b) == RankSum(a) + RankSum(b)
    decreases |b|
  {
    if b != [] {
      var n := |b| - 1;
      assert (a + b)[..|a + b| - 1] == a + b[..n];
      RankSumAppend(a, b[..n]);
    } else {
      assert a + b == a;
    }
  }

  /** Each card is worth at least 1 and at most 10, so the hard total lies between |ranks| and 10 * |ranks|. */
  lemma {:induction false} RankSumBounds(ranks: seq<char>)
    requires Known(ranks)
    ensures |ranks| <= RankSum(ranks) <= 10 * |ranks|
  {
    if ranks != [] {
      RankTable();
      RankSumBounds(ranks[..|ranks| - 1]);
    }
  }

  /** The ace count is at most the hard total, and the hand holds an ace exactly when it counts one. */
  lemma {:induction false} AceCountBounds(ranks: seq<char>)
    requires Known(ranks)
    ensures AceCount(ranks) <= RankSum(ranks)
    ensures 'A' in ranks <==> AceCount(ranks) > 0
  {
    if ranks != [] {
      var n := |ranks| - 1;
      assert ranks == ranks[..n] + [ranks[n]];
      RankTable();
      AceCountBounds(ranks[..n]);
    }
  }

  /** The worked values: {A,K} = 21, {A,A} = 12, {A,9,A} = 21 and {K,Q,5} = 25. */
  lemma ValueExamples()
    ensures HandValue(['A', 'K']) == 21
    ensures HandValue(['A', 'A']) == 12
    ensures HandValue(['A', '9', 'A']) == 21
    ensures HandValue(['K', 'Q', '5']) == 25
  {
    assert ['A', 'K'][..1] == ['A'] && ['A'][..0] == [];
    assert RankSum(['A']) == 1;
    assert RankSum(['A', 'K']) == 11;
    assert ['A', 'A'][..1] == ['A'];
    assert ['A', '9', 'A'][..2] == ['A', '9'] && ['A', '9'][..1] == ['A'];
    assert ['K', 'Q', '5'][..2] == ['K', 'Q'] && ['K', 'Q'][..1] == ['K'] && ['K'][..0] == [];
    assert RankSum(['K']) == 10 && RankSum(['K', 'Q']) == 20 && RankSum(['K', 'Q', '5']) == 25;
  }

  /**
   * The soft-ace rule picks the best count: HandValue is one of the totals
   * reachable by counting some of the aces as 11, and it is the largest such
   * total that does not exceed 21. A hand is bust only if every count busts.
   */
  lemma HandValueIsBestTotal(ranks: seq<char>)
    requires Known(ranks)
    ensures exists k :: 0 <= k <= AceCount(ranks) && HandValue(ranks) == Total(ranks, k)
    ensures forall k :: 0 <= k <= AceCount(ranks) && Total(ranks, k) <= 21 ==> Total(ranks, k) <= HandValue(ranks)
    ensures HandValue(ranks) > 21 ==> forall k :: 0 <= k <= AceCount(ranks) ==> Total(ranks, k) > 21
  {
    AceCountBounds(ranks);
    if 'A' in ranks && RankSum(ranks) + 10 <= 21 {
      assert HandValue(ranks) == Total(ranks, 1);
    } else {
      assert HandValue(ranks) == Total(ranks, 0);
    }
  }

  /** All ranks of a rearranged sequence are still known. */
  lemma KnownPermutation(a: seq<char>, b: seq<char>)
    requires Known(a) && multiset(a) == multiset(b)
    ensures Known(b)
  {
    forall i | 0 <= i < |b| ensures b[i] in VALUES {
      assert b[i] in multiset(a);
    }
  }

  /** Taking the element at position `j` out of a sequence takes one copy of it out of its multiset. */
  lemma MultisetRemove<T>(b: seq<T>, j: nat)
    requires j < |b|
    ensures multiset(b[..j] + b[j + 1..]) == multiset(b) - multiset{b[j]}
  {
    assert b == b[..j] + [b[j]] + b[j + 1..];
  }

  /** Taking one copy of an element out of a multiset and putting it back gives the same multiset. */
  lemma MultisetRestore<T>(m: multiset<T>, x: T)
    requires x in m
    ensures m - multiset{x} + multiset{x} == m
  {
  }

  /** Taking the rank at position `j` out lowers the hard total by its value. */
  lemma {:induction false} RankSumRemove(b: seq<char>, j: nat)
    requires Known(b) && j < |b|
    ensures Known(b[..j] + b[j + 1..])
    ensures RankSum(b) == RankSum(b[..j] + b[j + 1..]) + VALUES[b[j]]
    decreases |b|
  {
    var n := |b| - 1;
    if j == n {
      assert b[..j] + b[j + 1..] == b[..n];
    } else {
      var shorter := b[..n];
      RankSumRemove(shorter, j);
      var gap := b[..j] + b[j + 1..];
      assert gap == (shorter[..j] + shorter[j + 1..]) + [b[n]];
      assert gap[..|gap| - 1] == shorter[..j] + shorter[j + 1..];
    }
  }

  /** The hard total does not depend on the order of the cards. */
  lemma {:induction false} RankSumPermutation(a: seq<char>, b: seq<char>)
    requires Known(a) && multiset(a) == multiset(b)
    ensures Known(b) && RankSum(a) == RankSum(b)
    decreases |a|
  {
    KnownPermutation(a, b);
    if a == [] {
      assert |b| == |multiset(b)| == 0;
    } else {
      var n := |a| - 1;
      var x := a[n];
      assert x in multiset(b);
      var j :| 0 <= j < |b| && b[j] == x;
      RankSumRemove(b, j);
      MultisetRemove(b, j);
      assert a == a[..n] + [x];
      assert multiset(a[..n]) == multiset(a) - multiset{x};
      RankSumPermutation(a[..n], b[..j] + b[j + 1..]);
    }
  }

  /** The value of a hand does not depend on the order of its cards. */
  lemma HandValuePermutation(a: seq<char>, b: seq<char>)
    requires Known(a) && multiset(a) == multiset(b)
    ensures Known(b) && HandValue(a) == HandValue(b)
  {
    RankSumPermutation(a, b);
    assert 'A' in a <==> 'A' in multiset(a);
    assert 'A' in b <==> 'A' in multiset(b);
  }

  /** Two cards are worth at most 21: a freshly dealt hand is never bust. */
  lemma TwoCardsNeverBust(ranks: seq<char>)
    requires Known(ranks) && |ranks| == 2
    ensures HandValue(ranks) <= 21
  {
    RankSumBounds(ranks);
  }

  /** A hand worth v holds at most v cards, since every card is worth at least 1. */
  lemma CardsAtMostValue(ranks: seq<char>)
    requires Known(ranks)
    ensures |ranks| <= HandValue(ranks)
  {
    RankSumBounds(ranks);
  }

  /** No element occurs twice. */
  predicate NoDuplicates<T(==)>(s: seq<T>)
  {
    forall i, j :: 0 <= i < j < |s| ==> s[i] != s[j]
  }

  /** The cards of one suit: one (suit, rank) pair per rank, in rank order. */
  function Row(suit: char, ranks: seq<char>): (row: seq<(char, char)>)
    ensures |row| == |ranks|
    ensures forall k :: 0 <= k < |ranks| ==> row[k] == (suit, ranks[k])
  {
    if ranks == [] then [] else Row(suit, ranks[..|ranks| - 1]) + [(suit, ranks[|ranks| - 1])]
  }

  /** The (suit, rank) pairs with the suit in the outer loop and the rank in the inner one. */
  function Product(suits: seq<char>, ranks: seq<char>): seq<(char, char)>
  {
    if suits == [] then [] else Product(suits[..|suits| - 1], ranks) + Row(suits[|suits| - 1], ranks)
  }

  /** The fresh deck, in the order it is built. */
  function FullDeck(): seq<(char, char)>
  {
    Product(SUITS, RANKS)
  }

  lemma {:induction false} ProductLength(suits: seq<char>, ranks: seq<char>)
    ensures |Product(suits, ranks)| == |suits| * |ranks|
  {
    if suits != [] {
      var m := |suits| - 1;
      ProductLength(suits[..m], ranks);
      assert |suits| * |ranks| == m * |ranks| + |ranks|;
    }
  }

  lemma MultiplyMonotonic(a: nat, b: nat, n: nat)
    requires a <= b
    ensures a * n <= b * n
  {
  }

  /** Suit-major, rank-minor order: suits[i] with ranks[j] sits at position i * |ranks| + j. */
  lemma {:induction false} ProductAt(suits: seq<char>, ranks: seq<char>, i: nat, j: nat)
    requires i < |suits| && j < |ranks|
    ensures i * |ranks| + j < |Product(suits, ranks)|
    ensures Product(suits, ranks)[i * |ranks| + j] == (suits[i], ranks[j])
  {
    var m, n := |suits| - 1, |ranks|;
    var front, row := Product(suits[..m], ranks), Row(suits[m], ranks);
    assert Product(suits, ranks) == front + row;
    ProductLength(suits[..m], ranks);
    assert |front| == m * n;
    if i < m {
      MultiplyMonotonic(i + 1, m, n);
      assert (i + 1) * n == i * n + n;
      ProductAt(suits[..m], ranks, i, j);
      assert (front + row)[i * n + j] == front[i * n + j];
    } else {
      assert i * n + j == |front| + j;
      assert (front + row)[|front| + j] == row[j];
    }
  }

  /** A pair occurs in the product exactly when its suit and its rank occur in the factors. */
  lemma {:induction false} ProductMembers(suits: seq<char>, ranks: seq<char>, s: char, r: char)
    ensures (s, r) in Product(suits, ranks) <==> s in suits && r in ranks
  {
    if suits != [] {
      var m := |suits| - 1;
      ProductMembers(suits[..m], ranks, s, r);
      assert suits == suits[..m] + [suits[m]];
    }
  }

  /** Without repeated suits or ranks, the product repeats no pair. */
  lemma {:induction false} ProductNoDuplicates(suits: seq<char>, ranks: seq<char>)
    requires NoDuplicates(suits) && NoDuplicates(ranks)
    ensures NoDuplicates(Product(suits, ranks))
  {
    if suits != [] {
      var m := |suits| - 1;
      var front, row := Product(suits[..m], ranks), Row(suits[m], ranks);
      ProductNoDuplicates(suits[..m], ranks);
      forall i, j | 0 <= i < j < |front + row| ensures (front + row)[i] != (front + row)[j] {
        if i < |front| <= j {
          var x := front[i];
          assert x in front;
          ProductMembers(suits[..m], ranks, x.0, x.1);
          assert suits[m] !in suits[..m];
        }
      }
    }
  }

  /** The fresh deck has 52 cards, no pair twice, 13 * s + r holding suit SUITS[s] with rank RANKS[r]. */
  lemma FullDeckLayout(s: nat, r: nat)
    requires s < |SUITS| && r < |RANKS|
    ensures |FullDeck()| == 52 && NoDuplicates(FullDeck())
    ensures FullDeck()[13 * s + r] == (SUITS[s], RANKS[r])
  {
    ProductLength(SUITS, RANKS);
    assert NoDuplicates(SUITS) && NoDuplicates(RANKS);
    ProductNoDuplicates(SUITS, RANKS);
    ProductAt(SUITS, RANKS, s, r);
  }

  /** The fresh deck holds exactly the pairs of SUITS x RANKS. */
  lemma FullDeckCovers(s: char, r: char)
    ensures (s, r) in FullDeck() <==> s in SUITS && r in RANKS
  {
    ProductMembers(SUITS, RANKS, s, r);
  }
}
