/** The deck: the 52 cards of SUITS x RANKS, shuffled and dealt from the end. */
module Decks {
  import opened Options
  import opened Rules
  import opened Cards

  /** The cards carry, position by position, the given (suit, rank) pairs. */
  predicate HasFaces(cards: seq<Card>, faces: seq<(char, char)>)
  {
    |cards| == |faces| &&
    forall k :: 0 <= k < |cards| ==> cards[k].suit == Some(faces[k].0) && cards[k].rank == Some(faces[k].1)
  }

  /** Cards that match two lists of faces, one after the other, match their concatenation. */
  lemma HasFacesAppend(a: seq<Card>, b: seq<Card>, fa: seq<(char, char)>, fb: seq<(char, char)>)
    requires HasFaces(a, fa) && HasFaces(b, fb)
    ensures HasFaces(a + b, fa + fb)
  {
  }

  /** Two sequences without repeats and with no card in common concatenate without repeats. */
  lemma NoDuplicatesAppend(a: seq<Card>, b: seq<Card>)
    requires NoDuplicates(a) && NoDuplicates(b)
    requires forall i, j :: 0 <= i < |a| && 0 <= j < |b| ==> a[i] != b[j]
    ensures NoDuplicates(a + b)
  {
  }

  /** Exchanging two positions keeps the same cards. */
  lemma SwapPermutes(s: seq<Card>, i: int, j: int)
    requires 0 <= j <= i < |s|
    ensures multiset(s[i := s[j]][j := s[i]]) == multiset(s)
  {
    var t1 := s[i := s[j]];
    assert multiset(t1) == multiset(s) - multiset{s[i]} + multiset{s[j]};
    assert t1[j] == s[j];
    assert multiset(t1[j := s[i]]) == multiset(t1) - multiset{s[j]} + multiset{s[i]};
  }

  /** Exchanging two positions of a sequence without repeats leaves it without repeats. */
  lemma SwapNoDuplicates(s: seq<Card>, i: int, j: int)
    requires 0 <= j <= i < |s| && NoDuplicates(s)
    ensures NoDuplicates(s[i := s[j]][j := s[i]])
  {
  }

  /** One new face-up card per rank of RANKS, in order, all of the given suit. */
  method NewRow(suit: char) returns (row: seq<Card>)
    requires suit in SUITS
    ensures HasFaces(row, Row(suit, RANKS))
    ensures NoDuplicates(row)
    ensures forall k :: 0 <= k < |row| ==> fresh(row[k]) && !row[k].hidden
  {
    row := [];
    var ri := 0;
    while ri < |RANKS|
      invariant 0 <= ri <= |RANKS|
      invariant HasFaces(row, Row(suit, RANKS[..ri]))
      invariant NoDuplicates(row)
      invariant forall k :: 0 <= k < |row| ==> fresh(row[k]) && !row[k].hidden
    {
      var card := new Card(suit, RANKS[ri]);
      assert RANKS[..ri + 1][..ri] == RANKS[..ri];
      row := row + [card];
      ri := ri + 1;
    }
    assert RANKS[..ri] == RANKS;
  }

  class Deck {
    /** The cards still in the deck; the last one is dealt next. */
    var deck: seq<Card>

    /**
     * Build one card per (suit, rank), suits outermost, each new and face up.
     */
    constructor ()
      ensures HasFaces(deck, FullDeck())
      ensures NoDuplicates(deck)
      ensures forall k :: 0 <= k < |deck| ==> fresh(deck[k]) && !deck[k].hidden
    {
      var cards: seq<Card> := [];
      var si := 0;
      while si < |SUITS|
        invariant 0 <= si <= |SUITS|
        invariant HasFaces(cards, Product(SUITS[..si], RANKS))
        invariant NoDuplicates(cards)
        invariant forall k :: 0 <= k < |cards| ==> fresh(cards[k]) && !cards[k].hidden
      {
        var row := NewRow(SUITS[si]);
        assert SUITS[..si + 1][..si] == SUITS[..si];
        assert Product(SUITS[..si + 1], RANKS) == Product(SUITS[..si], RANKS) + Row(SUITS[si], RANKS);
        HasFacesAppend(cards, row, Product(SUITS[..si], RANKS), Row(SUITS[si], RANKS));
        NoDuplicatesAppend(cards, row);
        cards := cards + row;
        si := si + 1;
      }
      assert SUITS[..si] == SUITS;
      deck := cards;
    }

    /**
     * Rearrange the cards as Python's random.shuffle does: from the last
     * position down to the second, exchange with a position at or below it.
     * The random choice of that position is left open.
     */
    method Shuffle()
      modifies this
      ensures multiset(deck) == multiset(old(deck))
      ensures NoDuplicates(old(deck)) ==> NoDuplicates(deck)
    {
      var i := |deck| - 1;
      while i > 0
        invariant i < |deck|
        invariant multiset(deck) == multiset(old(deck))
        invariant NoDuplicates(old(deck)) ==> NoDuplicates(deck)
      {
        var j :| 0 <= j <= i;
        SwapPermutes(deck, i, j);
        if NoDuplicates(old(deck)) {
          SwapNoDuplicates(deck, i, j);
        }
        deck := deck[i := deck[j]][j := deck[i]];
        i := i - 1;
      }
    }

    /** Remove and return the last card. */
    method DealCard() returns (card: Card)
      requires |deck| > 0
      modifies this
      ensures card == old(deck)[|old(deck)| - 1]
      ensures deck == old(deck)[..|old(deck)| - 1]
    {
      card := deck[|deck| - 1];
      deck := deck[..|deck| - 1];
    }
  }
}
