# Euchre deck and deal

A Dafny model of the card deck and the opening deal of a four-player Euchre
table (`main.py`). The model covers:

- the cards: a value label (`"9"`, `"10"`, `"J"`, `"Q"`, `"K"`, `"A"`) paired with one of
  four suits;
- the deck: it builds its base list suit by suit, refills its current list
  from the base in shuffled order, and pops cards off the end of that list;
- the players: each has a hand that cards are appended to, and a partner
  seat derived from the player's own seat;
- the table: four players in seats 0..3 plus the 24-card deck; the deal shuffles
  the deck and then makes five passes round the table. Each pass gives
  every player, in seat order, the card popped off the end of the deck.

Files:

- `cards.dfy` (module `Cards`): suits, cards, the suit-major layout of a deck, and the
  facts about it: its size, the card at each position, and that no card occurs twice.
- `deck.dfy` (module `Decks`): the `Deck` class.
- `dealing.dfy` (module `Dealing`): what a deal hands out, as values, and the
  lemmas about the deal's outcome: hand growth, deal order, conservation and disjointness.
- `table.dfy` (module `Table`): partner seats, the `Player` and `EuchreTable` classes,
  with the deal method proved to produce exactly the hands `Dealing` describes.

A shuffle is modelled as a nondeterministic choice of *any* permutation
of the base list. `DealCards` returns the chosen order as the ghost value
`shuffled`, so its postcondition can name it. Call it D. Then seat p's k-th new card
is `D[23 - (4 * k + p)]`, and the last four cards `D[..4]` stay in the deck.

The game rules describe the deal differently from what the code does. The rules have
the dealer deal in packets of 3 and 2, starting left of the dealer, and set
aside a 21st card as the up-card. `main.py` has no dealer. It deals one card per
player per pass, starting at seat 0, and leaves four cards in the deck. The
model follows the code.

Python's `%` floors and Dafny's `%` is Euclidean. The two agree when the divisor is 4,
so `PartnerSeat` matches `(seat_number + 2) % 4` for every integer seat.

## Model

| member | source | states |
|---|---|---|
| `Cards.SuitMajor` | main.py:17-21 | the suit-major deck has exactly (number of suits) × (number of values) cards |
| `Cards.SuitMajorAt` | main.py:19-21 | position i × (number of values) + j holds the card with value j and suit i |
| `Cards.SuitMajorDistinct` | main.py:19-21 | if neither the values nor the suits repeat, no card of the deck occurs twice |
| `Cards.StandardDeck` | main.py:48-50 | the table's deck has 24 cards, `base[i*6 + j] == Card(Values[j], Suits[i])`, and all 24 are pairwise distinct |
| `Cards.ShuffledDeckDistinct` | main.py:24-26 | any permutation of the table's deck still holds no card twice |
| `Decks.Deck.constructor` | main.py:17-22 | the base is the suit-major deck of the given values and suits, built by the nested append loops; current starts empty |
| `Decks.Deck.Shuffle` | main.py:24-26 | current becomes some permutation of the base (same multiset, same length); the base is unchanged |
| `Decks.Deck.DealOneCard` | main.py:28-29 | returns the old last card; current becomes the old list without it, one shorter; the base is unchanged |
| `Table.PartnerSeat` | main.py:35 | the partner seat is in 0..3 and sits two places on, modulo 4 |
| `Table.PartnerInvolution` | main.py:35 | a seat is never its own partner, and the partner's partner is the seat itself (modulo 4) |
| `Table.Player.constructor` | main.py:32-35 | a new player has an empty hand, the given seat and partner seat `(seat + 2) % 4` |
| `Table.Player.AddCard` | main.py:37-38 | the card goes at the end of the hand and earlier cards are unchanged |
| `Table.EuchreTable.constructor` | main.py:41-50 | players 0..3 sit at seats 0..3 with empty hands and their partners; the deck is the 24-card suit-major deck with an empty current list |
| `Table.EuchreTable.PartnersPairUp` | main.py:42-47 | at the table, each player's partner is another seat in 0..3 whose partner is that player |
| `Table.EuchreTable.DealPass` | main.py:56-57 | one pass pops four cards; seat p gets the card p places above the end of the deck |
| `Table.EuchreTable.DealCards` | main.py:52-58 | the deck is shuffled into some permutation D of the base; each hand becomes its old contents plus its five cards dealt from D; four cards `D[..4]` remain; the table stays valid |
| `Dealing.DealGrowsHands` | main.py:52-58 | after the deal each hand keeps its earlier cards and has exactly 5 more, and 24 − 20 = 4 cards remain |
| `Dealing.DealOrder` | main.py:55-58 | seat p's k-th new card is `D[23 - (4*k + p)]` |
| `Dealing.DealConserves` | main.py:55-58 | after any number of passes, the cards dealt to the four seats plus the undealt prefix make up exactly the list dealt from |
| `Dealing.DealConservesHands` | main.py:52-58 | the four hands after the deal plus the remaining four cards hold exactly the cards of the hands before plus the shuffled deck |
| `Dealing.DealtDisjoint` | main.py:55-58 | when D has no repeated card, no seat gets a card twice and no card reaches two seats |

## Left out

- `EuchreTable.print_state` and `main` (main.py:60-73): console output only.
- The Unicode symbols that are the values of the `Suit` enum (main.py:5-9) are used only for display. The model keeps the four suits and drops the symbols.
- `random.shuffle` (main.py:26): the model allows any permutation of the base. It does not model the random source or the distribution over permutations.
- `copy.deepcopy` and card identity (main.py:11-14, 25): Python's `Card` defines no equality, so Python compares cards by object identity, and the copy creates new card objects. The model treats a card as a value, its (value, suit) pair.
- The players dictionary (main.py:42-47) is modelled as a sequence indexed by seat. Iterating over the dictionary's values visits seats in insertion order 0..3, and that is the order of the sequence.
- Decks.Deck.DealOneCard: in the source, popping from an empty list raises `IndexError`. The model makes a non-empty list a precondition instead. `DealCards` proves that 24 cards always cover the 20 pops.
- Table.EuchreTable.DealCards: the inner loop over the players (main.py:56-57) is a separate method, `DealPass`. The outer `while` loop and its counter stay in `DealCards`.
- write_test_state.py is not part of this model. It is an interactive input loop for setting up tests, and it imports names that main.py does not define.
- Trump resolution, the left bower, hand sorting, legal play, trick winner, bidding, dealer selection and scoring do not appear in main.py, so the model has nothing to model for them.
