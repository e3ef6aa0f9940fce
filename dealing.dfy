/**
 * What a deal hands out, as values: five passes over seats 0..3, each pass
 * taking one card per seat off the end of the shuffled list. The table's
 * deal method is proved to produce exactly these hands.
 */
module Dealing {
  import opened Cards

  /**
   * The cards seat `seat` receives in the first `passes` passes of a deal
   * from `deck`: each pass pops one card per seat, seats 0..3 in turn, off
   * the end of the list, so a seat's card of pass k sits 4 * k + seat
   * places from the end.
   */
  function DealtTo(deck: seq<Card>, seat: nat, passes: nat): (cards: seq<Card>)
    requires seat < 4 && 4 * passes <= |deck|
    ensures |cards| == passes
  {
    seq(passes, k requires 0 <= k < passes => deck[|deck| - 1 - (4 * k + seat)])
  }

  /** One more pass adds to a seat's cards the one 4 * passes + seat places from the end. */
  lemma DealtToSnoc(deck: seq<Card>, seat: nat, passes: nat)
    requires seat < 4 && 4 * (passes + 1) <= |deck|
    ensures DealtTo(deck, seat, passes + 1)
            == DealtTo(deck, seat, passes) + [deck[|deck| - 1 - (4 * passes + seat)]]
  {
  }

  /** The card a seat takes in pass `passes` is the one `seat` places above the end of the undealt prefix. */
  lemma DealtToNext(deck: seq<Card>, seat: nat, passes: nat, remaining: seq<Card>)
    requires seat < 4 && 4 * (passes + 1) <= |deck|
    requires remaining == deck[..|deck| - 4 * passes]
    ensures DealtTo(deck, seat, passes + 1)
            == DealtTo(deck, seat, passes) + [remaining[|remaining| - 1 - seat]]
  {
    DealtToSnoc(deck, seat, passes);
  }

  /** The four hands `before` with one pass dealt off the end of `deck`. */
  function WithPass(before: seq<seq<Card>>, deck: seq<Card>): (after: seq<seq<Card>>)
    requires |before| == 4 && |deck| >= 4
    ensures |after| == 4
  {
    seq(4, p requires 0 <= p < 4 => before[p] + [deck[|deck| - 1 - p]])
  }

  /** The four hands `before` with `passes` passes dealt from `deck`. */
  function DealtHands(before: seq<seq<Card>>, deck: seq<Card>, passes: nat): (after: seq<seq<Card>>)
    requires |before| == 4 && 4 * passes <= |deck|
    ensures |after| == 4
  {
    seq(4, p requires 0 <= p < 4 => before[p] + DealtTo(deck, p, passes))
  }

  /** Before the first pass nobody has received anything. */
  lemma DealtHandsZero(before: seq<seq<Card>>, deck: seq<Card>)
    requires |before| == 4
    ensures DealtHands(before, deck, 0) == before
  {
    forall p | 0 <= p < 4 ensures DealtHands(before, deck, 0)[p] == before[p] {
      assert DealtTo(deck, p, 0) == [];
    }
  }

  /** Dealing one more pass from the undealt prefix takes `passes` passes to `passes + 1`. */
  lemma DealtHandsStep(before: seq<seq<Card>>, deck: seq<Card>, passes: nat)
    requires |before| == 4 && 4 * (passes + 1) <= |deck|
    ensures WithPass(DealtHands(before, deck, passes), deck[..|deck| - 4 * passes])
            == DealtHands(before, deck, passes + 1)
  {
    var remaining := deck[..|deck| - 4 * passes];
    forall p | 0 <= p < 4
      ensures WithPass(DealtHands(before, deck, passes), remaining)[p] == DealtHands(before, deck, passes + 1)[p]
    {
      DealtToNext(deck, p, passes, remaining);
    }
  }

  /** Everything the four seats have received in the first `passes` passes. */
  function AllDealt(deck: seq<Card>, passes: nat): multiset<Card>
    requires 4 * passes <= |deck|
  {
    multiset(DealtTo(deck, 0, passes)) + multiset(DealtTo(deck, 1, passes))
      + multiset(DealtTo(deck, 2, passes)) + multiset(DealtTo(deck, 3, passes))
  }

  /**
   * No card is lost or duplicated by dealing: what the seats received plus
   * what is left of the list is exactly the list that was dealt from.
   */
  lemma {:induction false} DealConserves(deck: seq<Card>, passes: nat)
    requires 4 * passes <= |deck|
    ensures AllDealt(deck, passes) + multiset(deck[..|deck| - 4 * passes]) == multiset(deck)
  {
    if passes == 0 {
      assert deck[..|deck|] == deck;
    } else {
      var n := passes - 1;
      var m := |deck| - 4 * n;
      var last := multiset{deck[m - 1], deck[m - 2], deck[m - 3], deck[m - 4]};
      var rest := multiset(deck[..m - 4]);
      DealConserves(deck, n);
      AllDealtStep(deck, n);
      LastFour(deck[..m]);
      assert deck[..m][..m - 4] == deck[..m - 4];
      calc {
        AllDealt(deck, passes) + rest;
        AllDealt(deck, n) + last + rest;
        AllDealt(deck, n) + (rest + last);
        multiset(deck);
      }
    }
  }

  /** A list of at least four cards is its prefix plus its last four. */
  lemma LastFour(s: seq<Card>)
    requires |s| >= 4
    ensures var m := |s|;
            multiset(s) == multiset(s[..m - 4]) + multiset{s[m - 1], s[m - 2], s[m - 3], s[m - 4]}
  {
    var m := |s|;
    assert s == s[..m - 4] + [s[m - 4], s[m - 3], s[m - 2], s[m - 1]];
  }

  /** One more pass adds one card, 4 * passes + seat places from the end, to a seat's multiset. */
  lemma DealtToStep(deck: seq<Card>, seat: nat, passes: nat)
    requires seat < 4 && 4 * (passes + 1) <= |deck|
    ensures multiset(DealtTo(deck, seat, passes + 1))
            == multiset(DealtTo(deck, seat, passes)) + multiset{deck[|deck| - 1 - (4 * passes + seat)]}
  {
    DealtToSnoc(deck, seat, passes);
  }

  /** One more pass hands out exactly the four cards just below the undealt prefix. */
  lemma AllDealtStep(deck: seq<Card>, passes: nat)
    requires 4 * (passes + 1) <= |deck|
    ensures var m := |deck| - 4 * passes;
            AllDealt(deck, passes + 1)
            == AllDealt(deck, passes) + multiset{deck[m - 1], deck[m - 2], deck[m - 3], deck[m - 4]}
  {
    var m := |deck| - 4 * passes;
    DealtToStep(deck, 0, passes);
    DealtToStep(deck, 1, passes);
    DealtToStep(deck, 2, passes);
    DealtToStep(deck, 3, passes);
    var a, b, c, d := multiset(DealtTo(deck, 0, passes)), multiset(DealtTo(deck, 1, passes)),
                      multiset(DealtTo(deck, 2, passes)), multiset(DealtTo(deck, 3, passes));
    assert AllDealt(deck, passes) == a + b + c + d;
    assert AllDealt(deck, passes + 1)
        == (a + multiset{deck[m - 1]}) + (b + multiset{deck[m - 2]})
         + (c + multiset{deck[m - 3]}) + (d + multiset{deck[m - 4]});
    RegroupFour(a, b, c, d, deck[m - 1], deck[m - 2], deck[m - 3], deck[m - 4]);
  }

  /** Adding one element to each of four multisets adds all four to their union. */
  lemma RegroupFour(a: multiset<Card>, b: multiset<Card>, c: multiset<Card>, d: multiset<Card>,
                    w: Card, x: Card, y: Card, z: Card)
    ensures (a + multiset{w}) + (b + multiset{x}) + (c + multiset{y}) + (d + multiset{z})
            == a + b + c + d + multiset{w, x, y, z}
  {
  }

  /**
   * The outcome of the table's deal from a 24-card list: every hand keeps
   * what it held and grows by exactly five cards, and four cards remain.
   */
  lemma DealGrowsHands(before: seq<seq<Card>>, deck: seq<Card>)
    requires |before| == 4 && |deck| == 24
    ensures forall p :: 0 <= p < 4 ==>
              |DealtHands(before, deck, 5)[p]| == |before[p]| + 5
              && DealtHands(before, deck, 5)[p][..|before[p]|] == before[p]
    ensures |deck[..|deck| - 4 * 5]| == 4
  {
    forall p | 0 <= p < 4
      ensures DealtHands(before, deck, 5)[p][..|before[p]|] == before[p]
    {
      assert DealtHands(before, deck, 5)[p] == before[p] + DealtTo(deck, p, 5);
    }
  }

  /**
   * Deal order: seat p's k-th new card is the one at position 23 - (4 * k + p)
   * of the list dealt from.
   */
  lemma DealOrder(before: seq<seq<Card>>, deck: seq<Card>)
    requires |before| == 4 && |deck| == 24
    ensures forall p, k :: 0 <= p < 4 && |before[p]| <= k < |DealtHands(before, deck, 5)[p]| ==>
              DealtHands(before, deck, 5)[p][k] == deck[23 - (4 * (k - |before[p]|) + p)]
  {
    forall p, k | 0 <= p < 4 && |before[p]| <= k < |DealtHands(before, deck, 5)[p]|
      ensures DealtHands(before, deck, 5)[p][k] == deck[23 - (4 * (k - |before[p]|) + p)]
    {
      assert DealtHands(before, deck, 5)[p] == before[p] + DealtTo(deck, p, 5);
      assert DealtHands(before, deck, 5)[p][k] == DealtTo(deck, p, 5)[k - |before[p]|];
    }
  }

  /**
   * Conservation: the four hands after the deal plus the four cards left
   * hold exactly the cards of the hands before plus the list dealt from.
   */
  lemma DealConservesHands(before: seq<seq<Card>>, deck: seq<Card>)
    requires |before| == 4 && |deck| == 24
    ensures var after := DealtHands(before, deck, 5);
            multiset(after[0]) + multiset(after[1]) + multiset(after[2]) + multiset(after[3])
              + multiset(deck[..4])
            == multiset(before[0]) + multiset(before[1]) + multiset(before[2]) + multiset(before[3])
              + multiset(deck)
  {
    var after := DealtHands(before, deck, 5);
    var d0, d1, d2, d3 := DealtTo(deck, 0, 5), DealtTo(deck, 1, 5), DealtTo(deck, 2, 5), DealtTo(deck, 3, 5);
    assert after[0] == before[0] + d0 && after[1] == before[1] + d1;
    assert after[2] == before[2] + d2 && after[3] == before[3] + d3;
    DealConserves(deck, 5);
    assert AllDealt(deck, 5) == multiset(d0) + multiset(d1) + multiset(d2) + multiset(d3);
  }

  /**
   * When the list dealt from has no repeats, no card reaches two seats and
   * no seat receives a card twice.
   */
  lemma DealtDisjoint(deck: seq<Card>, passes: nat)
    requires 4 * passes <= |deck| && NoDuplicates(deck)
    ensures forall p :: 0 <= p < 4 ==> NoDuplicates(DealtTo(deck, p, passes))
    ensures forall p, q, k, l :: 0 <= p < q < 4 && 0 <= k < passes && 0 <= l < passes ==>
              DealtTo(deck, p, passes)[k] != DealtTo(deck, q, passes)[l]
  {
  }

}
