/**
 * The deck: a base list built once, suit by suit, and a current list that
 * shuffling refills from the base and dealing pops from the end.
 */
module Decks {
  import opened Cards

  class Deck {
    /** Every card of the deck, in the order it was built. */
    var base: seq<Card>
    /** The cards still to be dealt; the next card dealt is the last one. */
    var current: seq<Card>

    /**
     * Builds the base list by appending, for each suit in turn, one card of
     * every value; the current list starts empty.
     */
    constructor (values: seq<string>, suits: seq<Suit>)
      ensures base == SuitMajor(values, suits)
      ensures current == []
    {
      base := [];
      new;
      for i := 0 to |suits|
        invariant base == SuitMajor(values, suits[..i])
      {
        for j := 0 to |values|
          invariant base == SuitMajor(values, suits[..i]) + SuitRow(values, suits[i])[..j]
        {
          base := base + [Card(values[j], suits[i])];
        }
        assert SuitRow(values, suits[i])[..|values|] == SuitRow(values, suits[i]);
        assert suits[..i + 1] == suits[..i] + [suits[i]];
        SuitMajorSnoc(values, suits[..i], suits[i]);
      }
      assert suits[..|suits|] == suits;
      current := [];
    }

    /**
     * Refills the current list with a copy of the base list in some order:
     * any permutation of the base may come out, and the base is untouched.
     */
    method Shuffle()
      modifies this
      ensures base == old(base)
      ensures multiset(current) == multiset(base)
      ensures |current| == |base|
    {
      var shuffled: seq<Card> :| multiset(shuffled) == multiset(base);
      current := shuffled;
      assert |multiset(current)| == |multiset(base)|;
    }

    /** Removes and returns the last card of the current list. */
    method DealOneCard() returns (card: Card)
      requires current != []
      modifies this
      ensures card == old(current[|current| - 1])
      ensures current == old(current[..|current| - 1])
      ensures |current| == old(|current|) - 1
      ensures base == old(base)
    {
      card := current[|current| - 1];
      current := current[..|current| - 1];
    }
  }
}
