/**
 * Cards of the Euchre table and the suit-major layout in which a deck is
 * built: every value of the first suit, then every value of the second
 * suit, and so on.
 */
module Cards {

  /** The four suits, in the order the table passes them to the deck. */
  datatype Suit = Spades | Hearts | Clubs | Diamonds

  /** A card is a pair of a value label ("9", "10", "J", ...) and a suit. */
  datatype Card = Card(value: string, suit: Suit)

  /** The value labels the table uses, weakest first. */
  const Values: seq<string> := ["9", "10", "J", "Q", "K", "A"]

  /** The suits the table uses, in the order the deck is built. */
  const Suits: seq<Suit> := [Spades, Hearts, Clubs, Diamonds]

  /** No element occurs twice in `s`. */
  predicate NoDuplicates<T(==)>(s: seq<T>)
  {
    forall i, j :: 0 <= i < j < |s| ==> s[i] != s[j]
  }

  /** One card of every value in `values`, all of suit `suit`, in the order of `values`. */
  function SuitRow(values: seq<string>, suit: Suit): seq<Card>
  {
    seq(|values|, j requires 0 <= j < |values| => Card(values[j], suit))
  }

  /**
   * The deck laid out suit by suit: the row of the first suit, then the row
   * of the second, and so on. This is the list the deck's nested loops build.
   */
  function SuitMajor(values: seq<string>, suits: seq<Suit>): (deck: seq<Card>)
    ensures |deck| == |suits| * |values|
  {
    if suits == [] then []
    else
      var prefix := SuitMajor(values, suits[..|suits| - 1]);
      assert |prefix| == (|suits| - 1) * |values|;
      prefix + SuitRow(values, suits[|suits| - 1])
  }

  /** Extending the suit list by one suit appends that suit's row. */
  lemma SuitMajorSnoc(values: seq<string>, suits: seq<Suit>, suit: Suit)
    ensures SuitMajor(values, suits + [suit]) == SuitMajor(values, suits) + SuitRow(values, suit)
  {
    assert (suits + [suit])[..|suits|] == suits;
  }

  /** Position i * |values| + j of the suit-major deck holds value j of suit i. */
  lemma {:induction false} SuitMajorAt(values: seq<string>, suits: seq<Suit>, i: nat, j: nat)
    requires i < |suits| && j < |values|
    ensures i * |values| + j < |SuitMajor(values, suits)|
    ensures SuitMajor(values, suits)[i * |values| + j] == Card(values[j], suits[i])
  {
    var n := |suits| - 1;
    var prefix := SuitMajor(values, suits[..n]);
    assert SuitMajor(values, suits) == prefix + SuitRow(values, suits[n]);
    assert |prefix| == n * |values|;
    if i < n {
      SuitMajorAt(values, suits[..n], i, j);
      assert i * |values| + j < (i + 1) * |values| <= n * |values| by {
        MulMonotone(i + 1, n, |values|);
      }
    } else {
      assert i * |values| + j == |prefix| + j;
    }
  }

  /** Multiplication by a natural number does not decrease a larger factor's product. */
  lemma MulMonotone(a: nat, b: nat, c: nat)
    requires a <= b
    ensures a * c <= b * c
  {
  }

  /** Every card of the suit-major deck is a value of `values` paired with a suit of `suits`. */
  lemma {:induction false} SuitMajorMembers(values: seq<string>, suits: seq<Suit>, k: nat)
    requires k < |SuitMajor(values, suits)|
    ensures SuitMajor(values, suits)[k].value in values
    ensures SuitMajor(values, suits)[k].suit in suits
  {
    var n := |suits| - 1;
    var prefix := SuitMajor(values, suits[..n]);
    assert SuitMajor(values, suits) == prefix + SuitRow(values, suits[n]);
    if k < |prefix| {
      SuitMajorMembers(values, suits[..n], k);
      assert prefix[k].suit in suits[..n];
    }
  }

  /**
   * When neither the value list nor the suit list repeats an element, the
   * suit-major deck holds no card twice.
   */
  lemma {:induction false} SuitMajorDistinct(values: seq<string>, suits: seq<Suit>)
    requires NoDuplicates(values) && NoDuplicates(suits)
    ensures NoDuplicates(SuitMajor(values, suits))
  {
    if suits != [] {
      var n := |suits| - 1;
      var prefix := SuitMajor(values, suits[..n]);
      var row := SuitRow(values, suits[n]);
      var deck := SuitMajor(values, suits);
      assert deck == prefix + row;
      SuitMajorDistinct(values, suits[..n]);
      forall a, b | 0 <= a < b < |deck| ensures deck[a] != deck[b] {
        if b < |prefix| {
          assert deck[a] == prefix[a] && deck[b] == prefix[b];
        } else if a < |prefix| {
          SuitMajorMembers(values, suits[..n], a);
          assert deck[a].suit in suits[..n];
          assert deck[b].suit == suits[n];
        } else {
          assert deck[a] == row[a - |prefix|] && deck[b] == row[b - |prefix|];
        }
      }
    }
  }

  /** The table's 24-card deck: 6 values times 4 suits, suit-major, no card twice. */
  lemma StandardDeck()
    ensures |SuitMajor(Values, Suits)| == 24
    ensures forall i, j :: 0 <= i < 4 && 0 <= j < 6 ==>
              SuitMajor(Values, Suits)[i * 6 + j] == Card(Values[j], Suits[i])
    ensures NoDuplicates(SuitMajor(Values, Suits))
  {
    forall i, j | 0 <= i < 4 && 0 <= j < 6
      ensures SuitMajor(Values, Suits)[i * 6 + j] == Card(Values[j], Suits[i])
    {
      SuitMajorAt(Values, Suits, i, j);
    }
    SuitMajorDistinct(Values, Suits);
  }

  /** A multiset with no repeated element counts each element at most once. */
  lemma {:induction false} DistinctCountsOnce(s: seq<Card>, c: Card)
    requires NoDuplicates(s)
    ensures multiset(s)[c] <= 1
  {
    if s != [] {
      assert s == [s[0]] + s[1..];
      DistinctCountsOnce(s[1..], c);
      if s[0] == c {
        assert c !in s[1..];
      }
    }
  }

  /** A permutation of a list without repeats has no repeats either. */
  lemma PermutationKeepsDistinct(s: seq<Card>, t: seq<Card>)
    requires NoDuplicates(s) && multiset(t) == multiset(s)
    ensures NoDuplicates(t)
  {
    forall i, j | 0 <= i < j < |t| ensures t[i] != t[j] {
      if t[i] == t[j] {
        assert t == t[..i] + [t[i]] + t[i + 1..j] + [t[j]] + t[j + 1..];
        assert multiset(t)[t[i]] >= 2;
        DistinctCountsOnce(s, t[i]);
      }
    }
  }

  /** Whatever order a shuffle leaves the table's deck in, no card occurs twice in it. */
  lemma ShuffledDeckDistinct(shuffled: seq<Card>)
    requires multiset(shuffled) == multiset(SuitMajor(Values, Suits))
    ensures NoDuplicates(shuffled)
  {
    SuitMajorDistinct(Values, Suits);
    PermutationKeepsDistinct(SuitMajor(Values, Suits), shuffled);
  }
}
