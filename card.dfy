/**
 * A playing card: a suit and a rank fixed at construction, and a `hidden`
 * flag (face down) that only the display reads.
 */
module Cards {
  import opened Options
  import opened Rules

  class Card {
    /** The suit, or None when the card was built from an invalid suit or rank. */
    const suit: Option<char>
    /** The rank, or None when the card was built from an invalid suit or rank. */
    const rank: Option<char>
    /** True while the card is drawn face down. */
    var hidden: bool

    /**
     * A valid suit and rank are kept; if either is invalid, both become None
     * (the source reports this on the console and carries on). A new card is face up.
     */
    constructor (s: char, r: char)
      ensures s in SUITS && r in RANKS ==> suit == Some(s) && rank == Some(r)
      ensures !(s in SUITS && r in RANKS) ==> suit == None && rank == None
      ensures !hidden
    {
      if s in SUITS && r in RANKS {
        suit, rank := Some(s), Some(r);
      } else {
        suit, rank := None, None;
      }
      hidden := false;
    }

    /** The suit given at construction; no later call changes it. */
    function GetSuit(): (s: Option<char>)
      ensures s == suit
    {
      suit
    }

    /** The rank given at construction; no later call changes it. */
    function GetRank(): (r: Option<char>)
      ensures r == rank
    {
      rank
    }

    /** True when looking the rank up in VALUES succeeds. */
    predicate Scorable()
    {
      rank.Some? && rank.value in VALUES
    }

    /** Turn the card face down. */
    method Hide()
      modifies this
      ensures hidden
    {
      hidden := true;
    }

    /** Turn the card face up. */
    method Show()
      modifies this
      ensures !hidden
    {
      hidden := false;
    }
  }

  /** A card built by the constructor from a valid suit and rank can be scored. */
  lemma ValidCardScorable(c: Card, r: char)
    requires c.rank == Some(r) && r in RANKS
    ensures c.Scorable()
  {
    RankTable();
  }
}
