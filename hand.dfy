/** A hand: the ordered list of cards held by the player or the dealer. */
module Hands {
  import opened Options
  import opened Rules
  import opened Cards

  /** Every card of the sequence has a rank with an entry in VALUES. */
  predicate AllScorable(cards: seq<Card>)
  {
    forall i :: 0 <= i < |cards| ==> cards[i].Scorable()
  }

  /** The ranks of the cards, in hand order. */
  function Ranks(cards: seq<Card>): (rs: seq<char>)
    requires AllScorable(cards)
    ensures |rs| == |cards| && Known(rs)
    ensures forall i :: 0 <= i < |cards| ==> rs[i] == cards[i].rank.value
  {
    seq(|cards|, i requires 0 <= i < |cards| => cards[i].rank.value)
  }

  /**
   * The value of a sequence of cards. It reads only the ranks, which are const
   * fields, so the `hidden` flags cannot affect it.
   */
  function ValueOf(cards: seq<Card>): nat
    requires AllScorable(cards)
  {
    HandValue(Ranks(cards))
  }

  /** The ranks of a non-empty sequence end with the rank of its last card. */
  lemma RanksLast(a: seq<Card>)
    requires AllScorable(a) && |a| > 0
    ensures AllScorable(a[..|a| - 1])
    ensures Ranks(a) == Ranks(a[..|a| - 1]) + [a[|a| - 1].rank.value]
  {
    assert AllScorable(a[..|a| - 1]);
  }

  /** Taking the card at position `j` out takes its rank out of the ranks. */
  lemma RanksRemove(b: seq<Card>, j: nat)
    requires AllScorable(b) && j < |b|
    ensures AllScorable(b[..j] + b[j + 1..])
    ensures Ranks(b[..j] + b[j + 1..]) == Ranks(b)[..j] + Ranks(b)[j + 1..]
  {
    var rest := b[..j] + b[j + 1..];
    assert forall i :: 0 <= i < |rest| ==> rest[i] == if i < j then b[i] else b[i + 1];
  }

  /**
   * The value reads only the ranks: cards with the same ranks, position by
   * position, are worth the same, whatever their `hidden` flags.
   */
  lemma ValueOnlyRanks(a: seq<Card>, b: seq<Card>)
    requires AllScorable(a) && |a| == |b|
    requires forall i :: 0 <= i < |a| ==> a[i].rank == b[i].rank
    ensures AllScorable(b) && ValueOf(a) == ValueOf(b)
  {
    assert AllScorable(b);
    assert Ranks(a) == Ranks(b);
  }

  /** Cards taken from a scorable collection are scorable. */
  lemma ScorableSubset(a: seq<Card>, b: seq<Card>)
    requires AllScorable(a) && multiset(b) <= multiset(a)
    ensures AllScorable(b)
  {
    forall i | 0 <= i < |b| ensures b[i].Scorable() {
      assert b[i] in multiset(a);
    }
  }

  /** The last card of `a` sits somewhere in its rearrangement `b`; without it, the rest still match. */
  lemma PickMatch(a: seq<Card>, b: seq<Card>) returns (j: nat)
    requires |a| > 0 && multiset(a) == multiset(b)
    ensures j < |b| && b[j] == a[|a| - 1]
    ensures multiset(a[..|a| - 1]) == multiset(b[..j] + b[j + 1..])
  {
    var n := |a| - 1;
    assert a[n] in multiset(b);
    j :| 0 <= j < |b| && b[j] == a[n];
    MultisetRemove(b, j);
    assert a == a[..n] + [a[n]];
    assert multiset(a[..n]) == multiset(a) - multiset{a[n]};
  }

  /** If the ranks match without the matched card, they match with it. */
  lemma RanksStep(a: seq<Card>, b: seq<Card>, j: nat)
    requires AllScorable(a) && AllScorable(b) && |a| > 0 && j < |b| && b[j] == a[|a| - 1]
    requires multiset(Ranks(a[..|a| - 1])) == multiset(Ranks(b[..j] + b[j + 1..]))
    ensures multiset(Ranks(a)) == multiset(Ranks(b))
  {
    RanksLast(a);
    RanksRemove(b, j);
    var rb := Ranks(b);
    MultisetRemove(rb, j);
    assert rb[j] in multiset(rb);
    MultisetRestore(multiset(rb), rb[j]);
  }

  /** Rearranging the cards rearranges their ranks. */
  lemma {:induction false} RanksPermutation(a: seq<Card>, b: seq<Card>)
    requires AllScorable(a) && multiset(a) == multiset(b)
    ensures AllScorable(b) && multiset(Ranks(a)) == multiset(Ranks(b))
    decreases |a|
  {
    ScorableSubset(a, b);
    if a == [] {
      assert |b| == |multiset(b)| == 0;
    } else {
      var j := PickMatch(a, b);
      RanksPermutation(a[..|a| - 1], b[..j] + b[j + 1..]);
      RanksStep(a, b, j);
    }
  }

  /** The value of a hand does not depend on the order of its cards. */
  lemma ValueOfPermutation(a: seq<Card>, b: seq<Card>)
    requires AllScorable(a) && multiset(a) == multiset(b)
    ensures AllScorable(b) && ValueOf(a) == ValueOf(b)
  {
    RanksPermutation(a, b);
    HandValuePermutation(Ranks(a), Ranks(b));
  }

  class Hand {
    /** The cards, in the order they were added. */
    var cards: seq<Card>

    /** A new hand is empty. */
    constructor ()
      ensures cards == []
    {
      cards := [];
    }

    /** Append a card at the end of the hand. */
    method AddCard(card: Card)
      modifies this
      ensures cards == old(cards) + [card]
    {
      cards := cards + [card];
    }

    /**
     * Sum the values of the ranks, then count one ace as 11 when the hand has
     * an ace and that keeps it at 21 or below. A card whose rank has no entry
     * in VALUES makes the lookup raise: the result is then None.
     */
    method GetValue() returns (v: Option<nat>)
      ensures v.Some? <==> AllScorable(cards)
      ensures v.Some? ==> v.value == HandValue(Ranks(cards))
    {
      var value := 0;
      var hasAce := false;
      var i := 0;
      while i < |cards|
        invariant 0 <= i <= |cards|
        invariant AllScorable(cards[..i])
        invariant value == RankSum(Ranks(cards[..i]))
        invariant hasAce <==> 'A' in Ranks(cards[..i])
      {
        var rank := cards[i].GetRank();
        if rank == Some('A') {
          hasAce := true;
        }
        if rank.None? || rank.value !in VALUES {
          return None;
        }
        ghost var before := Ranks(cards[..i]);
        assert Ranks(cards[..i + 1]) == before + [rank.value];
        assert Ranks(cards[..i + 1])[..i] == before;
        value := value + VALUES[rank.value];
        i := i + 1;
      }
      assert cards[..i] == cards;
      if hasAce && value + 10 <= 21 {
        value := value + 10;
      }
      return Some(value);
    }

    /**
     * The card at position `num`, with Python's indexing: a negative `num`
     * counts from the end; outside [-|cards|, |cards|) the lookup raises and
     * the result is None.
     */
    function FindCard(num: int): (r: Option<Card>)
      reads this
      ensures r.Some? <==> -|cards| <= num < |cards|
      ensures r.Some? ==> r.value in cards
      ensures 0 <= num < |cards| ==> r == Some(cards[num])
      ensures -|cards| <= num < 0 ==> r == Some(cards[|cards| + num])
    {
      if 0 <= num < |cards| then Some(cards[num])
      else if -|cards| <= num < 0 then Some(cards[|cards| + num])
      else None
    }
  }
}
