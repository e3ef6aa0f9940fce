/**
 * The Euchre table: four players seated 0..3, each with a hand and a
 * partner two seats away, and the deal that shuffles the deck and hands
 * out five passes of one card per player in seat order.
 */
module Table {
  import opened Cards
  import opened Decks
  import opened Dealing

  /** The seat opposite `seat`, two places round a four-seat table. */
  function PartnerSeat(seat: int): (partner: int)
    ensures 0 <= partner < 4
    ensures (partner - seat) % 4 == 2
  {
    (seat + 2) % 4
  }

  /**
   * Partnership pairs the seats off: nobody partners themselves and the
   * partner of one's partner is oneself (seats taken modulo 4).
   */
  lemma PartnerInvolution(seat: int)
    ensures PartnerSeat(seat) != seat % 4
    ensures PartnerSeat(PartnerSeat(seat)) == seat % 4
  {
  }

  class Player {
    /** The cards held, in the order received. */
    var hand: seq<Card>
    const seat: int
    const partner: int

    /** A player at `seatNumber` with an empty hand; the partner seat is derived. */
    constructor (seatNumber: int)
      ensures hand == []
      ensures seat == seatNumber && partner == PartnerSeat(seatNumber)
    {
      hand := [];
      seat := seatNumber;
      partner := (seatNumber + 2) % 4;
    }

    /** Puts `card` at the end of the hand, leaving the earlier cards as they were. */
    method AddCard(card: Card)
      modifies this
      ensures hand == old(hand) + [card]
    {
      hand := hand + [card];
    }
  }

  class EuchreTable {
    /** The players by seat number; the table visits them in this order. */
    const players: seq<Player>
    const deck: Deck

    /** Four players seated 0..3 with their partners, and the table's 24-card deck. */
    ghost predicate Valid()
      reads this, players, deck
    {
      |players| == 4
      && (forall p :: 0 <= p < 4 ==> players[p].seat == p && players[p].partner == PartnerSeat(p))
      && deck.base == SuitMajor(Values, Suits)
    }

    /** Seats players 0..3 with empty hands and builds the deck from the table's values and suits. */
    constructor ()
      ensures Valid()
      ensures fresh(deck) && forall p :: 0 <= p < 4 ==> fresh(players[p])
      ensures forall p :: 0 <= p < 4 ==> players[p].hand == []
      ensures deck.current == []
    {
      var p0 := new Player(0);
      var p1 := new Player(1);
      var p2 := new Player(2);
      var p3 := new Player(3);
      players := [p0, p1, p2, p3];
      deck := new Deck(Values, Suits);
    }

    /** Seat p's partner sits at a different seat whose partner is p again. */
    lemma PartnersPairUp(p: int)
      requires Valid() && 0 <= p < 4
      ensures 0 <= players[p].partner < 4 && players[p].partner != p
      ensures players[players[p].partner].partner == p
    {
      PartnerInvolution(p);
    }

    /** The hands of seats 0..3. */
    ghost function Hands(): (hands: seq<seq<Card>>)
      reads this, players
      requires |players| == 4
      ensures |hands| == 4
    {
      [players[0].hand, players[1].hand, players[2].hand, players[3].hand]
    }

    /**
     * One pass of the deal: every player, seats 0..3 in order, gets the card
     * popped off the end of the deck, so seat p gets the card p places above
     * the deck's last one.
     */
    method DealPass()
      requires Valid() && |deck.current| >= 4
      modifies deck, players
      ensures Valid()
      ensures var c := old(deck.current);
              deck.current == c[..|c| - 4] && Hands() == WithPass(old(Hands()), c)
    {
      ghost var c := deck.current;
      for p := 0 to 4
        invariant Valid()
        invariant deck.current == c[..|c| - p]
        invariant forall q :: 0 <= q < p ==> players[q].hand == old(players[q].hand) + [c[|c| - 1 - q]]
        invariant forall q :: p <= q < 4 ==> players[q].hand == old(players[q].hand)
      {
        var card := deck.DealOneCard();
        players[p].AddCard(card);
      }
    }

    /**
     * Shuffles the deck and deals five passes. `shuffled` names the order
     * the shuffle produced; seat p's card of pass k is the one 4 * k + p
     * places from its end.
     */
    method DealCards() returns (ghost shuffled: seq<Card>)
      requires Valid()
      modifies deck, players
      ensures Valid()
      ensures |shuffled| == 24 && multiset(shuffled) == multiset(deck.base)
      ensures Hands() == DealtHands(old(Hands()), shuffled, 5)
      ensures deck.current == shuffled[..4]
    {
      ghost var before := Hands();
      assert |deck.base| == |Suits| * |Values| == 24;
      deck.Shuffle();
      shuffled := deck.current;
      var numCards := 0;
      DealtHandsZero(before, shuffled);
      while numCards < 5
        invariant 0 <= numCards <= 5
        invariant Valid()
        invariant deck.current == shuffled[..24 - 4 * numCards]
        invariant Hands() == DealtHands(before, shuffled, numCards)
      {
        DealtHandsStep(before, shuffled, numCards);
        DealPass();
        numCards := numCards + 1;
      }
    }
  }
}
