# Blackjack rules engine, modelled in Dafny

This project models the game logic of `blackjack.py`, a one-player blackjack game.

- **Cards** (`card.dfy`, module `Cards`): a card has a suit and a rank, checked against `SUITS` and `RANKS`, and a mutable `hidden` flag.
- **Hands** (`hand.dfy`, module `Hands`): a hand is an ordered list of cards. It supports adding a card, finding a card by position, and computing the hand's value under the soft-ace rule.
- **Decks** (`deck.dfy`, module `Decks`): the deck is the 52 cards of `SUITS × RANKS`, built suit by suit. It can be shuffled, and cards are dealt from its end.
- **Round state machine** (`game.dfy`, module `Round`): the module globals `score`, `in_play`, `outcome`, `deck`, `player_hand` and `dealer_hand` become the fields of one `Game` class, driven by `Deal`, `Hit` and `Stand`.

The tables and the pure specification of a hand's value are in `rules.dfy` (module `Rules`). `options.dfy` holds the `Option` type.

## How it is modelled

- **Suits and ranks** are one-character strings in the source. The model uses `char`: `'C' 'S' 'H' 'D'` and `'A' '2' … '9' 'T' 'J' 'Q' 'K'`.
- **A card is a class.**
  - Its suit and rank are `const` fields of type `Option<char>`. An invalid suit or rank stores `None` in both fields, as the source does.
  - `hidden` is a `var`, changed by `Hide` and `Show`.
- **Hand value.**
  - `Hand.GetValue` is the source's loop, with its accumulators `value` and `has_ace`.
  - A card whose rank has no `VALUES` entry makes the Python lookup raise `KeyError`. `GetValue` then returns `None`.
  - The pure function `Rules.HandValue` over the sequence of ranks is the specification. `GetValue` is proved to return `HandValue` of the hand's ranks exactly when every card can be scored.
- **Deck.**
  - The constructor turns the list comprehension into two nested loops (the inner one is `Decks.NewRow`). It is proved to produce the faces `Rules.FullDeck()`: 52 distinct pairs in suit-major order, each card new and face up.
  - `Shuffle` is the Fisher–Yates loop behind `random.shuffle`. The random index is chosen nondeterministically (`:|`), so everything proved holds for every possible shuffle.
  - `DealCard` pops the last card.
- **Game.**
  - `Game.Valid()` is the invariant kept by every transition:
    - the two hands are distinct objects;
    - the deck and the hands hold 52 cards between them;
    - every card can be scored;
    - while a round is in play, the dealer has not drawn and the player is not bust.
  - From this invariant the model proves that the deck never runs out. That is why the pops in `hit` and in the dealer loop never fail.
  - The dealer's loop is a separate method, `DealerDraws`. Its result is described by the predicate `Round.DealerDrew`: the cards popped from the deck's end, stopping at the first hand worth 17 or more.
  - The constructor is the module's initial state (`score = 0`, `in_play = False`) followed by the one `deal()` run at start-up (blackjack.py:288).
- **Outcome and the hole card.**
  - `deal()` leaves `outcome` as it was, so `Deal` keeps it.
  - The dealer's hole card is turned face up by the render handler `draw` (blackjack.py:266-272) whenever no round is in play. It is modelled as the separate step `Round.Game.RevealHoleCard`.
  - `outcome` is unbound before the first resolved round, so it starts as `None`.

## Model

| member | source | states |
|---|---|---|
| Rules.RankTable | blackjack.py:43-46 | `RANKS` and the keys of `VALUES` are the same characters. Each value lies between 1 and 10, and the ace is worth 1. |
| Rules.HandValue | blackjack.py:138-141 | The value is the hard total, or the hard total plus 10 when the hand holds an ace. It is over 21 exactly when the hard total is. |
| Rules.ValueExamples | blackjack.py:120-141 | {A,K} is worth 21, {A,A} 12, {A,9,A} 21 and {K,Q,5} 25. |
| Rules.HandValueIsBestTotal | blackjack.py:138-141 | The value is one of the totals reached by counting some aces as 11. It is the largest such total that does not pass 21. If the value is bust, every such total is bust. |
| Rules.RankSumBounds | blackjack.py:136 | The hard total lies between the number of cards and 10 times that number. |
| Rules.AceCountBounds | blackjack.py:132-136 | The hand holds an ace exactly when its ace count is positive. The ace count is at most the hard total. |
| Rules.RankSumPermutation | blackjack.py:126-136 | The hard total does not depend on the order of the ranks. |
| Rules.HandValuePermutation | blackjack.py:126-141 | The value does not depend on the order of the ranks. |
| Rules.TwoCardsNeverBust | blackjack.py:197-199 | A hand of two cards is worth at most 21, so a newly dealt player is never bust. |
| Rules.CardsAtMostValue | blackjack.py:136 | A hand is worth at least its number of cards. |
| Rules.FullDeckLayout | blackjack.py:159 | The deck as built has 52 faces and no repeats. Position 13·s + r holds suit s with rank r, so the order is suit-major and rank-minor. |
| Rules.FullDeckCovers | blackjack.py:159 | A pair of a suit and a rank is among the deck's faces exactly when the suit is in SUITS and the rank is in RANKS. |
| Cards.Card.constructor | blackjack.py:52-61 | A valid suit and rank are stored. Otherwise both fields become `None`. A new card is face up. |
| Cards.Card.GetSuit | blackjack.py:67-69 | Returns the suit stored at construction. |
| Cards.Card.GetRank | blackjack.py:71-73 | Returns the rank stored at construction. |
| Cards.Card.Hide | blackjack.py:93-95 | The card is face down afterwards. |
| Cards.Card.Show | blackjack.py:97-99 | The card is face up afterwards. |
| Cards.ValidCardScorable | blackjack.py:54-56 | A card built from a valid rank has a `VALUES` entry. |
| Hands.ValueOnlyRanks | blackjack.py:126-136 | Cards with the same ranks, position by position, have the same value, whatever their `hidden` flags. |
| Hands.RanksPermutation | blackjack.py:126-136 | A rearranged hand has its ranks rearranged. |
| Hands.ValueOfPermutation | blackjack.py:126-141 | A hand's value does not depend on the order of its cards. |
| Hands.Hand.constructor | blackjack.py:105-107 | A new hand is empty. |
| Hands.Hand.AddCard | blackjack.py:116-118 | The card is appended at the end, and the earlier cards are kept. |
| Hands.Hand.GetValue | blackjack.py:120-141 | Returns a value exactly when every card has a `VALUES` entry; otherwise `None`, modelling the `KeyError`. The value equals `HandValue` of the hand's ranks. |
| Hands.Hand.FindCard | blackjack.py:149-151 | Python list indexing: positions 0 to n-1 count from the front, -n to -1 from the back, and anything else fails with `None`. |
| Decks.NewRow | blackjack.py:159 | The inner loop of the comprehension: 13 new face-up cards of one suit, in RANKS order, all distinct. |
| Decks.Deck.constructor | blackjack.py:157-159 | The deck holds one new face-up card per face of `FullDeck()`, in that order, with no card repeated. |
| Decks.SwapPermutes | blackjack.py:163 | Exchanging two positions keeps the same cards. |
| Decks.SwapNoDuplicates | blackjack.py:163 | Exchanging two positions of a deck without repeats keeps it without repeats. |
| Decks.Deck.Shuffle | blackjack.py:161-163 | The shuffled deck holds the same cards, and still none twice. |
| Decks.Deck.DealCard | blackjack.py:165-168 | Returns the last card. The deck loses exactly that card, and the others keep their positions. |
| Round.DeckNotEmpty | blackjack.py:213-214 | While the player is not bust and the dealer holds fewer than 31 cards, the deck is not empty. |
| Round.StandsOnSeventeen | blackjack.py:230-231 | A dealer already worth 17 or more draws nothing. |
| Round.DealerDrewUnique | blackjack.py:230-231 | The dealer's play is determined: two results satisfying `DealerDrew` from the same start are equal. |
| Round.ReversedMultiset | blackjack.py:229-231 | The cards the dealer receives, in reverse order of the deck, are exactly the cards popped: none lost, none repeated. |
| Round.NewShuffledDeck | blackjack.py:189-191 | A new deck is built and shuffled. It holds the 52 built cards in some order, each new, face up and scorable. |
| Round.DealHands | blackjack.py:193-205 | Two new hands. The player gets the deck's last two cards, then the dealer the next two, the first of them face down. The deck keeps the rest. |
| Round.StartRound | blackjack.py:189-205 | The deck keeps 48 cards and each hand gets 2. Together they hold the 52 built cards. The deck, the hands and every card are new objects. Every card is scorable and the player is not bust. The dealer's first card is face down; both player cards, the dealer's second card and every card left in the deck are face up. |
| Round.Game.constructor | blackjack.py:288 | The initial state (score 0, blackjack.py:36-40) followed by the start-up `deal()`: a round in play, no outcome, hands of 2 cards and a deck of 48. Together they hold the 52 built cards. The deck, the hands and the cards are new, so the later transitions may change them. The dealer's first card is face down; the player's cards, the dealer's second card and the deck's cards are face up. |
| Round.Game.Deal | blackjack.py:178-205 | Abandoning a round in play costs exactly one point. Afterwards a round is in play and `outcome` is unchanged. The new deck and hands are as in `StartRound`: new objects holding the 52 built cards, new and face up except the dealer's first card. |
| Round.Game.Hit | blackjack.py:208-220 | Out of play, nothing changes. In play, the deck is not empty and its last card moves to the player's hand. Past 21 the outcome is "You have busted", the score drops by 1 and the round ends. Otherwise the score and round status stay. The dealer's hand is untouched. |
| Round.Game.DealerDraws | blackjack.py:229-231 | The loop ends. The dealer receives the cards popped from the deck's end and stops at the first hand worth at least 17, every earlier hand having been worth less. The deck does not run out, and the player's hand is untouched. |
| Round.Game.Stand | blackjack.py:223-245 | In play: the dealer draws as `DealerDraws` states, and nothing is drawn if the dealer is already at 17 or more. The dealer wins exactly when worth at most 21 and at least the player's value, ties included: "You lost", score -1. Otherwise "You won", score +1. The round is over in every case. Out of play, nothing else changes. |
| Round.Game.RevealHoleCard | blackjack.py:266-272 | When no round is in play, the dealer's first card is turned face up. Otherwise its flag is unchanged. |

## Left out

- Display is not modelled because it is presentation or foreign library calls. This covers:
  - simplegui image loading, the frame, buttons and canvas;
  - `Card.draw`, `Hand.draw`, and the text drawing in `draw`;
  - the sprite geometry constants and the `__str__` methods;
  - the `print` of an invalid card.
- From `draw` only the hole-card reveal is kept, as `Round.Game.RevealHoleCard`.
- Decks.Deck.Shuffle: the uniform distribution of `random.shuffle` is not modelled. The model states only that the result is some rearrangement of the deck.
- Decks.Deck.DealCard: on an empty deck the Python `pop` raises `IndexError`. The model makes a non-empty deck a precondition and proves that `Hit` and `DealerDraws` always meet it.
- Round.Game.Valid: between transitions it tracks card counts and scorability, not the identity of every card. `Deal` and `StartRound` state card conservation (the multiset of the 52 built cards). `Hit` and `DealerDraws` state exactly which card moves where.
- Threads and event dispatch are not modelled. The button handlers run one at a time, so each transition is one method call.
