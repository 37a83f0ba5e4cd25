/**
 * The round state machine: the score, whether a round is in play, the outcome
 * message, the deck and the two hands, driven by Deal, Hit and Stand.
 */
module Round {
  import opened Options
  import opened Rules
  import opened Cards
  import opened Hands
  import opened Decks

  const BUSTED: string := "You have busted"
  const LOST: string := "You lost"
  const WON: string := "You won"

  /** The cards in the opposite order: the order in which repeated pops from the end deal them. */
  function Reversed(s: seq<Card>): (r: seq<Card>)
    ensures |r| == |s|
  {
    if s == [] then [] else Reversed(s[1..]) + [s[0]]
  }

  /** A deck built in suit-major order has only cards that can be scored. */
  lemma FacesScorable(cards: seq<Card>)
    requires HasFaces(cards, FullDeck())
    ensures AllScorable(cards)
  {
    forall k | 0 <= k < |cards| ensures cards[k].Scorable() {
      var face := FullDeck()[k];
      assert face in FullDeck();
      FullDeckCovers(face.0, face.1);
      ValidCardScorable(cards[k], face.1);
    }
  }

  /**
   * While the player is not bust and the dealer holds fewer than 31 cards,
   * a round's 52 cards cannot all be in the hands: the deck is not empty.
   */
  lemma DeckNotEmpty(d: seq<Card>, p: seq<Card>, q: seq<Card>)
    requires |d| + |p| + |q| == 52
    requires AllScorable(p) && ValueOf(p) <= 21 && |q| < 31
    ensures |d| > 0
  {
    CardsAtMostValue(Ranks(p));
  }

  /** Moving the deck's last card onto the end of a hand keeps every card scorable. */
  lemma MoveLastCard(d: seq<Card>, p: seq<Card>)
    requires |d| > 0 && AllScorable(d) && AllScorable(p)
    ensures AllScorable(d[..|d| - 1]) && AllScorable(p + [d[|d| - 1]])
  {
  }

  /**
   * The dealer draws only below 17: if every hand from `start` cards up to
   * `held` was worth less than 17, that stays so after one more draw.
   */
  lemma DrawnBelowSeventeen(held: seq<Card>, card: Card, start: nat)
    requires AllScorable(held) && card.Scorable() && start <= |held|
    requires forall n :: start <= n < |held| ==> ValueOf(held[..n]) < 17
    requires ValueOf(held) < 17
    ensures forall n :: start <= n < |held + [card]| ==> ValueOf((held + [card])[..n]) < 17
  {
    forall n | start <= n < |held + [card]| ensures ValueOf((held + [card])[..n]) < 17 {
      assert (held + [card])[..n] == held[..n];
    }
  }

  /**
   * The dealer's hand grew from `hand0` by the cards popped, one at a time,
   * from the end of `deck0`, leaving `rest`; it stopped at the first hand
   * worth 17 or more.
   */
  ghost predicate DealerDrew(hand0: seq<Card>, deck0: seq<Card>, hand: seq<Card>, rest: seq<Card>)
  {
    |rest| <= |deck0| && rest == deck0[..|rest|] &&
    hand == hand0 + Reversed(deck0[|rest|..]) &&
    AllScorable(hand) && ValueOf(hand) >= 17 &&
    forall n :: |hand0| <= n < |hand| ==> ValueOf(hand[..n]) < 17
  }

  /** A hand extended at the end still starts with the cards it had. */
  lemma KeepsPrefix(held: seq<Card>, drawn: seq<Card>)
    ensures (held + drawn)[..|held|] == held
  {
  }

  /** A dealer already worth 17 or more draws nothing. */
  lemma StandsOnSeventeen(hand0: seq<Card>, deck0: seq<Card>, hand: seq<Card>, rest: seq<Card>)
    requires DealerDrew(hand0, deck0, hand, rest)
    requires AllScorable(hand0) && ValueOf(hand0) >= 17
    ensures hand == hand0 && rest == deck0
  {
    if |hand| > |hand0| {
      KeepsPrefix(hand0, Reversed(deck0[|rest|..]));
      assert false;
    }
    assert |Reversed(deck0[|rest|..])| == 0;
  }

  lemma {:induction false} ReversedAppend(a: seq<Card>, b: seq<Card>)
    ensures Reversed(a + b) == Reversed(b) + Reversed(a)
    decreases |a|
  {
    if a == [] {
      assert a + b == b;
    } else {
      assert (a + b)[1..] == a[1..] + b;
      ReversedAppend(a[1..], b);
    }
  }

  /** Dealing in reverse order deals the same cards: nothing is lost or duplicated. */
  lemma {:induction false} ReversedMultiset(s: seq<Card>)
    ensures multiset(Reversed(s)) == multiset(s)
  {
    if s != [] {
      ReversedMultiset(s[1..]);
      assert s == [s[0]] + s[1..];
    }
  }

  /**
   * The dealer's play is determined by the hand and the deck: two outcomes
   * that both satisfy DealerDrew from the same start are the same.
   */
  lemma DealerDrewUnique(hand0: seq<Card>, deck0: seq<Card>, hand1: seq<Card>, rest1: seq<Card>,
                         hand2: seq<Card>, rest2: seq<Card>)
    requires DealerDrew(hand0, deck0, hand1, rest1) && DealerDrew(hand0, deck0, hand2, rest2)
    ensures hand1 == hand2 && rest1 == rest2
  {
    DrewFewer(hand0, deck0, rest1, rest2);
    DrewFewer(hand0, deck0, rest2, rest1);
  }

  /**
   * Of two draws from the same deck, the one that left more cards in the deck
   * holds a shorter prefix of the other's hand.
   */
  lemma DrewFewer(hand0: seq<Card>, deck0: seq<Card>, rest1: seq<Card>, rest2: seq<Card>)
    ensures |rest2| < |rest1| <= |deck0| ==>
      var hand1, hand2 := hand0 + Reversed(deck0[|rest1|..]), hand0 + Reversed(deck0[|rest2|..]);
      |hand0| <= |hand1| < |hand2| && hand2[..|hand1|] == hand1
  {
    if |rest2| < |rest1| <= |deck0| {
      var k1, k2 := |rest1|, |rest2|;
      var hand1 := hand0 + Reversed(deck0[k1..]);
      assert deck0[k2..] == deck0[k2..k1] + deck0[k1..];
      ReversedAppend(deck0[k2..k1], deck0[k1..]);
      assert hand0 + Reversed(deck0[k2..]) == hand1 + Reversed(deck0[k2..k1]);
    }
  }

  /**
   * Popping one more card from the end of a prefix of `deck0` leaves a
   * shorter prefix and extends the drawn cards by that card.
   */
  lemma DrawStep(deck0: seq<Card>, hand0: seq<Card>, d: seq<Card>, h: seq<Card>)
    requires 0 < |d| <= |deck0| && d == deck0[..|d|] && h == hand0 + Reversed(deck0[|d|..])
    ensures d[..|d| - 1] == deck0[..|d| - 1]
    ensures h + [d[|d| - 1]] == hand0 + Reversed(deck0[|d| - 1..])
  {
    var n := |d|;
    assert deck0[n - 1..][1..] == deck0[n..];
  }


  /**
   * Dealing the four last cards of `rest + [a, b, c, e]`, two to each hand
   * from the end, keeps the same cards.
   */
  lemma DealFour(rest: seq<Card>, a: Card, b: Card, c: Card, e: Card)
    ensures multiset(rest + [e, c] + [b, a]) == multiset(rest + [a, b, c, e])
  {
  }

  /** The cards dealt from a scorable deck, and the cards left, are scorable. */
  lemma DealFourScorable(s: seq<Card>)
    requires |s| >= 4 && AllScorable(s)
    ensures var n := |s|;
      AllScorable(s[..n - 4]) && AllScorable([s[n - 1], s[n - 2]]) && AllScorable([s[n - 3], s[n - 4]])
  {
  }

  /**
   * A new deck, shuffled: the 52 cards as built (`cards`), each new and face
   * up, in some order.
   */
  method NewShuffledDeck() returns (d: Deck, ghost cards: seq<Card>)
    ensures fresh(d) && HasFaces(cards, FullDeck())
    ensures multiset(d.deck) == multiset(cards)
    ensures |d.deck| == 52 && NoDuplicates(d.deck) && AllScorable(d.deck)
    ensures forall k :: 0 <= k < |d.deck| ==> fresh(d.deck[k]) && !d.deck[k].hidden
  {
    d := new Deck();
    cards := d.deck;
    d.Shuffle();
    FullDeckLayout(0, 0);
    assert |d.deck| == |multiset(d.deck)| == |cards| == 52;
    FacesScorable(cards);
    ScorableSubset(cards, d.deck);
    forall k | 0 <= k < |d.deck| ensures fresh(d.deck[k]) && !d.deck[k].hidden {
      assert d.deck[k] in multiset(cards);
    }
  }

  /**
   * The dealing part of deal(): two cards from the end of the deck to a new
   * player hand, then two to a new dealer hand, the dealer's first face down.
   */
  method DealHands(d: Deck) returns (p: Hand, q: Hand)
    requires |d.deck| >= 4
    modifies d, d.deck[|d.deck| - 3]
    ensures fresh(p) && fresh(q) && p != q
    ensures var s, n := old(d.deck), |old(d.deck)|;
      d.deck == s[..n - 4] && p.cards == [s[n - 1], s[n - 2]] && q.cards == [s[n - 3], s[n - 4]]
    ensures q.cards[0].hidden
  {
    p := new Hand();
    q := new Hand();
    var first := d.DealCard();
    p.AddCard(first);
    var second := d.DealCard();
    p.AddCard(second);
    var holeCard := d.DealCard();
    holeCard.Hide();
    q.AddCard(holeCard);
    var upCard := d.DealCard();
    q.AddCard(upCard);
  }

  /**
   * What deal() does: a new shuffled deck and two new hands, dealt as
   * DealHands says. `cards` is the deck as built, before the shuffle.
   */
  method StartRound() returns (d: Deck, p: Hand, q: Hand, ghost cards: seq<Card>)
    ensures fresh(d) && fresh(p) && fresh(q) && p != q
    ensures HasFaces(cards, FullDeck())
    ensures multiset(d.deck + p.cards + q.cards) == multiset(cards)
    ensures |d.deck| == 48 && |p.cards| == 2 && |q.cards| == 2
    ensures AllScorable(d.deck) && AllScorable(p.cards) && AllScorable(q.cards)
    ensures ValueOf(p.cards) <= 21
    ensures !p.cards[0].hidden && !p.cards[1].hidden
    ensures q.cards[0].hidden && !q.cards[1].hidden
    ensures fresh(p.cards[0]) && fresh(p.cards[1]) && fresh(q.cards[0]) && fresh(q.cards[1])
    ensures forall k :: 0 <= k < |d.deck| ==> fresh(d.deck[k]) && !d.deck[k].hidden
  {
    d, cards := NewShuffledDeck();
    ghost var s := d.deck;
    assert fresh(s[48]) && fresh(s[49]) && fresh(s[50]) && fresh(s[51]);
    DealFour(s[..48], s[48], s[49], s[50], s[51]);
    assert s == s[..48] + [s[48], s[49], s[50], s[51]];
    DealFourScorable(s);
    assert s[49] != s[48] && s[49] != s[50] && s[49] != s[51];
    assert !s[48].hidden && !s[50].hidden && !s[51].hidden;
    p, q := DealHands(d);
    TwoCardsNeverBust(Ranks(p.cards));
  }

  class Game {
    /** The running score: +1 per round won, -1 per round lost or abandoned. */
    var score: int
    /** True while a round is in progress. */
    var inPlay: bool
    /** The last outcome message; None until a round has been resolved. */
    var outcome: Option<string>
    var deck: Deck
    var playerHand: Hand
    var dealerHand: Hand
    /** The 52 cards the current round's deck was built with, in creation order. */
    ghost var roundCards: seq<Card>

    /**
     * The deck and the two hands hold 52 cards between them;
     * every card can be scored; both hands hold at least the two dealt cards;
     * while a round is in play the dealer has not drawn and the player is not bust.
     */
    ghost predicate Valid()
      reads this, deck, playerHand, dealerHand
    {
      playerHand != dealerHand &&
      |deck.deck| + |playerHand.cards| + |dealerHand.cards| == 52 &&
      AllScorable(deck.deck) && AllScorable(playerHand.cards) && AllScorable(dealerHand.cards) &&
      |playerHand.cards| >= 2 && |dealerHand.cards| >= 2 &&
      (inPlay ==> |dealerHand.cards| == 2 && ValueOf(playerHand.cards) <= 21)
    }

    /** Start-up: score 0 and no round in play, followed by the one deal() the program runs at start. */
    constructor ()
      ensures Valid()
      ensures score == 0 && inPlay && outcome == None
      ensures HasFaces(roundCards, FullDeck())
      ensures multiset(deck.deck + playerHand.cards + dealerHand.cards) == multiset(roundCards)
      ensures |deck.deck| == 48 && |playerHand.cards| == 2 && |dealerHand.cards| == 2
      ensures !playerHand.cards[0].hidden && !playerHand.cards[1].hidden
      ensures dealerHand.cards[0].hidden && !dealerHand.cards[1].hidden
      ensures fresh(deck) && fresh(playerHand) && fresh(dealerHand) && fresh(dealerHand.cards[0])
      ensures fresh(playerHand.cards[0]) && fresh(playerHand.cards[1]) && fresh(dealerHand.cards[1])
      ensures forall k :: 0 <= k < |deck.deck| ==> fresh(deck.deck[k]) && !deck.deck[k].hidden
    {
      score := 0;
      outcome := None;
      ghost var cards;
      var d, p, q;
      d, p, q, cards := StartRound();
      deck, playerHand, dealerHand, roundCards := d, p, q, cards;
      inPlay := true;
    }

    /**
     * Start a new round. Abandoning a round in play costs one point. The
     * outcome message is left as it was.
     */
    method Deal()
      modifies this
      ensures Valid()
      ensures score == old(score) - (if old(inPlay) then 1 else 0)
      ensures inPlay && outcome == old(outcome)
      ensures fresh(deck) && fresh(playerHand) && fresh(dealerHand)
      ensures HasFaces(roundCards, FullDeck())
      ensures multiset(deck.deck + playerHand.cards + dealerHand.cards) == multiset(roundCards)
      ensures |deck.deck| == 48 && |playerHand.cards| == 2 && |dealerHand.cards| == 2
      ensures !playerHand.cards[0].hidden && !playerHand.cards[1].hidden
      ensures dealerHand.cards[0].hidden && !dealerHand.cards[1].hidden
      ensures fresh(dealerHand.cards[0])
      ensures fresh(playerHand.cards[0]) && fresh(playerHand.cards[1]) && fresh(dealerHand.cards[1])
      ensures forall k :: 0 <= k < |deck.deck| ==> fresh(deck.deck[k]) && !deck.deck[k].hidden
    {
      if inPlay {
        score := score - 1;
      }
      inPlay := true;
      deck, playerHand, dealerHand, roundCards := StartRound();
    }

    /**
     * In play: deal the player the deck's last card; if that takes the hand
     * past 21 the round is lost. Out of play: nothing changes.
     */
    method Hit()
      requires Valid()
      modifies this, deck, playerHand
      ensures Valid()
      ensures deck == old(deck) && playerHand == old(playerHand) && dealerHand == old(dealerHand)
      ensures roundCards == old(roundCards) && dealerHand.cards == old(dealerHand.cards)
      ensures !old(inPlay) ==>
        deck.deck == old(deck.deck) && playerHand.cards == old(playerHand.cards) &&
        score == old(score) && !inPlay && outcome == old(outcome)
      ensures old(inPlay) ==>
        |old(deck.deck)| > 0 &&
        deck.deck == old(deck.deck)[..|old(deck.deck)| - 1] &&
        playerHand.cards == old(playerHand.cards) + [old(deck.deck)[|old(deck.deck)| - 1]] &&
        if ValueOf(playerHand.cards) > 21
        then outcome == Some(BUSTED) && score == old(score) - 1 && !inPlay
        else outcome == old(outcome) && score == old(score) && inPlay
    {
      if inPlay {
        DeckNotEmpty(deck.deck, playerHand.cards, dealerHand.cards);
        MoveLastCard(deck.deck, playerHand.cards);
        var card := deck.DealCard();
        playerHand.AddCard(card);
        var value := playerHand.GetValue();
        if value.value > 21 {
          outcome := Some(BUSTED);
          score := score - 1;
          inPlay := false;
        }
      }
    }

    /**
     * The dealer's loop: while the dealer's hand is worth less than 17, move
     * the deck's last card onto it. The deck does not run out.
     */
    method DealerDraws()
      requires Valid() && inPlay
      modifies deck, dealerHand
      ensures DealerDrew(old(dealerHand.cards), old(deck.deck), dealerHand.cards, deck.deck)
      ensures AllScorable(deck.deck)
      ensures |deck.deck| + |playerHand.cards| + |dealerHand.cards| == 52
    {
      ghost var deck0, hand0 := deck.deck, dealerHand.cards;
      var dealerValue := dealerHand.GetValue();
      while dealerValue.value < 17
        invariant AllScorable(deck.deck) && AllScorable(dealerHand.cards)
        invariant dealerValue == Some(ValueOf(dealerHand.cards))
        invariant |deck.deck| + |playerHand.cards| + |dealerHand.cards| == 52
        invariant |deck.deck| <= |deck0| && deck.deck == deck0[..|deck.deck|]
        invariant dealerHand.cards == hand0 + Reversed(deck0[|deck.deck|..])
        invariant forall n :: |hand0| <= n < |dealerHand.cards| ==> ValueOf(dealerHand.cards[..n]) < 17
        decreases |deck.deck|
      {
        CardsAtMostValue(Ranks(dealerHand.cards));
        DeckNotEmpty(deck.deck, playerHand.cards, dealerHand.cards);
        ghost var held := dealerHand.cards;
        DrawStep(deck0, hand0, deck.deck, dealerHand.cards);
        MoveLastCard(deck.deck, dealerHand.cards);
        var card := deck.DealCard();
        dealerHand.AddCard(card);
        DrawnBelowSeventeen(held, card, |hand0|);
        dealerValue := dealerHand.GetValue();
      }
    }

    /**
     * In play: the dealer draws (DealerDraws); then the dealer wins, ties
     * included, when worth at most 21 and at least the player's value, and
     * the score moves by one accordingly. In every case the round is over.
     */
    method Stand()
      requires Valid()
      modifies this, deck, dealerHand
      ensures Valid() && !inPlay
      ensures deck == old(deck) && playerHand == old(playerHand) && dealerHand == old(dealerHand)
      ensures roundCards == old(roundCards) && playerHand.cards == old(playerHand.cards)
      ensures !old(inPlay) ==>
        deck.deck == old(deck.deck) && dealerHand.cards == old(dealerHand.cards) &&
        score == old(score) && outcome == old(outcome)
      ensures old(inPlay) ==> DealerDrew(old(dealerHand.cards), old(deck.deck), dealerHand.cards, deck.deck)
      ensures old(inPlay) && ValueOf(old(dealerHand.cards)) >= 17 ==> dealerHand.cards == old(dealerHand.cards)
      ensures old(inPlay) ==>
        var dv, pv := ValueOf(dealerHand.cards), ValueOf(playerHand.cards);
        if dv <= 21 && dv >= pv
        then outcome == Some(LOST) && score == old(score) - 1
        else outcome == Some(WON) && score == old(score) + 1
    {
      if inPlay {
        ghost var deck0, hand0 := deck.deck, dealerHand.cards;
        DealerDraws();
        if ValueOf(hand0) >= 17 {
          StandsOnSeventeen(hand0, deck0, dealerHand.cards, deck.deck);
        }
        var dealerValue := dealerHand.GetValue();
        var playerValue := playerHand.GetValue();
        if dealerValue.value >= playerValue.value && dealerValue.value <= 21 {
          outcome := Some(LOST);
          score := score - 1;
        } else {
          outcome := Some(WON);
          score := score + 1;
        }
      }
      inPlay := false;
    }

    /**
     * Once no round is in play, turn the dealer's first card face up (the
     * display does this before drawing the dealer's hand).
     */
    method RevealHoleCard()
      requires Valid()
      modifies dealerHand.cards[0]
      ensures Valid()
      ensures !inPlay ==> !dealerHand.cards[0].hidden
      ensures inPlay ==> dealerHand.cards[0].hidden == old(dealerHand.cards[0].hidden)
    {
      if !inPlay {
        var first := dealerHand.FindCard(0);
        first.value.Show();
      }
    }
  }
}
