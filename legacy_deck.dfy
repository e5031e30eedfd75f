/**
 * The legacy SpriteKit deck (SolitareDeck.swift): a fixed table of the 52
 * card records and a shuffled copy of it.
 */
module LegacyDeck {
  import opened LegacyCard
  import opened Permutations

  /** `SolitareDeck.cards`: thirteen records per suit, hearts, diamonds, clubs, spades. */
  const Cards: seq<CardDTO> :=
    // Hearts
    [
      CardDTO(Hearts, Red, 1),
      CardDTO(Hearts, Red, 2),
      CardDTO(Hearts, Red, 3),
      CardDTO(Hearts, Red, 4),
      CardDTO(Hearts, Red, 5),
      CardDTO(Hearts, Red, 6),
      CardDTO(Hearts, Red, 7),
      CardDTO(Hearts, Red, 8),
      CardDTO(Hearts, Red, 9),
      CardDTO(Hearts, Red, 10),
      CardDTO(Hearts, Red, 11),
      CardDTO(Hearts, Red, 12),
      CardDTO(Hearts, Red, 13)
    ] +
    // Diamonds
    [
      CardDTO(Diamonds, Red, 1),
      CardDTO(Diamonds, Red, 2),
      CardDTO(Diamonds, Red, 3),
      CardDTO(Diamonds, Red, 4),
      CardDTO(Diamonds, Red, 5),
      CardDTO(Diamonds, Red, 6),
      CardDTO(Diamonds, Red, 7),
      CardDTO(Diamonds, Red, 8),
      CardDTO(Diamonds, Red, 9),
      CardDTO(Diamonds, Red, 10),
      CardDTO(Diamonds, Red, 11),
      CardDTO(Diamonds, Red, 12),
      CardDTO(Diamonds, Red, 13)
    ] +
    // Clubs
    [
      CardDTO(Clubs, Black, 1),
      CardDTO(Clubs, Black, 2),
      CardDTO(Clubs, Black, 3),
      CardDTO(Clubs, Black, 4),
      CardDTO(Clubs, Black, 5),
      CardDTO(Clubs, Black, 6),
      CardDTO(Clubs, Black, 7),
      CardDTO(Clubs, Black, 8),
      CardDTO(Clubs, Black, 9),
      CardDTO(Clubs, Black, 10),
      CardDTO(Clubs, Black, 11),
      CardDTO(Clubs, Black, 12),
      CardDTO(Clubs, Black, 13)
    ] +
    // Spades
    [
      CardDTO(Spades, Black, 1),
      CardDTO(Spades, Black, 2),
      CardDTO(Spades, Black, 3),
      CardDTO(Spades, Black, 4),
      CardDTO(Spades, Black, 5),
      CardDTO(Spades, Black, 6),
      CardDTO(Spades, Black, 7),
      CardDTO(Spades, Black, 8),
      CardDTO(Spades, Black, 9),
      CardDTO(Spades, Black, 10),
      CardDTO(Spades, Black, 11),
      CardDTO(Spades, Black, 12),
      CardDTO(Spades, Black, 13)
    ]

  /** The suits of the table's four blocks, and the colour each is given. */
  const BlockSuits: seq<LegacySuit> := [Hearts, Diamonds, Clubs, Spades]

  function BlockColour(suit: LegacySuit): Colour {
    if suit == Hearts || suit == Diamonds then Red else Black
  }

  /** The thirteen records of one suit, numbers 1 to 13. */
  function Block(suit: LegacySuit): (r: seq<CardDTO>)
    ensures |r| == 13 && forall k :: 0 <= k < 13 ==> r[k] == CardDTO(suit, BlockColour(suit), k + 1)
  {
    seq(13, k requires 0 <= k < 13 => CardDTO(suit, BlockColour(suit), k + 1))
  }

  /** The table is the four suit blocks one after another. */
  lemma CardsAreBlocks()
    ensures Cards == Block(Hearts) + Block(Diamonds) + Block(Clubs) + Block(Spades)
  {
  }

  function BlockIndex(suit: LegacySuit): (b: nat)
    requires suit != NoSuit
    ensures b < 4 && BlockSuits[b] == suit
  {
    match suit
    case Hearts => 0
    case Diamonds => 1
    case Clubs => 2
    case Spades => 3
  }

  /** Entry `i` of the table: suit block `i / 13`, number `i % 13 + 1`. */
  lemma CardsEntry(i: nat)
    requires i < 52
    ensures |Cards| == 52
    ensures Cards[i] == CardDTO(BlockSuits[i / 13], BlockColour(BlockSuits[i / 13]), i % 13 + 1)
  {
    CardsAreBlocks();
    var b := Block(Hearts) + Block(Diamonds) + Block(Clubs) + Block(Spades);
    if i < 13 { assert b[i] == Block(Hearts)[i]; }
    else if i < 26 { assert b[i] == Block(Diamonds)[i - 13]; }
    else if i < 39 { assert b[i] == Block(Clubs)[i - 26]; }
    else { assert b[i] == Block(Spades)[i - 39]; }
  }

  /**
   * The table holds 52 records; every one has a real suit and a number from
   * 1 to 13, never the defaults `.none` and -1; and it is red exactly for
   * hearts and diamonds, black otherwise.
   */
  lemma CardsWellFormed()
    ensures |Cards| == 52
    ensures forall i :: 0 <= i < |Cards| ==>
      && Cards[i].suit != NoSuit && 1 <= Cards[i].number <= 13
      && Cards[i].suit != DefaultDTO.suit && Cards[i].number != DefaultDTO.number
      && (Cards[i].color == Red <==> Cards[i].suit in {Hearts, Diamonds})
      && (Cards[i].color == Black <==> Cards[i].suit in {Clubs, Spades})
  {
    CardsEntry(0);
    forall i | 0 <= i < |Cards|
      ensures && Cards[i].suit != NoSuit && 1 <= Cards[i].number <= 13
              && Cards[i].suit != DefaultDTO.suit && Cards[i].number != DefaultDTO.number
              && (Cards[i].color == Red <==> Cards[i].suit in {Hearts, Diamonds})
              && (Cards[i].color == Black <==> Cards[i].suit in {Clubs, Spades})
    {
      CardsEntry(i);
    }
  }

  /** Each suit and number from 1 to 13 has exactly one record in the table. */
  lemma CardsExactlyOnce(suit: LegacySuit, n: int)
    requires suit != NoSuit && 1 <= n <= 13
    ensures var i := 13 * BlockIndex(suit) + n - 1;
      && 0 <= i < |Cards|
      && Cards[i] == CardDTO(suit, BlockColour(suit), n)
      && forall j :: 0 <= j < |Cards| && Cards[j].suit == suit && Cards[j].number == n ==> j == i
  {
    var i := 13 * BlockIndex(suit) + n - 1;
    CardsEntry(i);
    forall j | 0 <= j < |Cards| && Cards[j].suit == suit && Cards[j].number == n ensures j == i {
      CardsEntry(j);
      assert BlockSuits[j / 13] == suit;
      assert j / 13 == BlockIndex(suit);
    }
  }

  /** `shuffled()`: a copy of the table in the order `perm`; the table itself is a constant. */
  function ShuffledCards(perm: seq<nat>): (r: seq<CardDTO>)
    requires IsPermutation(perm, |Cards|)
    ensures |r| == |Cards| && multiset(r) == multiset(Cards)
  {
    Shuffled(Cards, perm)
  }
}
