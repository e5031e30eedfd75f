/**
 * Building and dealing the SwiftUI solitaire's deck (GameView.swift,
 * `buildDeck` and `dealKlondike`): 52 face-down cards in suit-major order,
 * shuffled, then dealt into seven tableau columns in one forward pass; the
 * rest becomes the stock.
 */
module KlondikeDeck {
  import opened Wrappers
  import opened Cards
  import opened Suits
  import opened Permutations
  import Numerals

  /** The suit order of `buildDeck`. */
  const DeckSuits: seq<Suit> := [Spades, Clubs, Hearts, Diamonds]

  /** The rank texts of `buildDeck`, Ace to King. */
  const RankTexts: seq<string> := ["A", "2", "3", "4", "5", "6", "7", "8", "9", "10", "J", "Q", "K"]

  const DeckSize: nat := 52
  const ColumnCount: nat := 7

  /**
   * The card `buildDeck` makes in position `i`: rank text `i % 13`, suit
   * `i / 13`, face down. Its `UUID()` is modelled by its creation index.
   */
  function DeckCard(i: nat): Card
    requires i < DeckSize
  {
    Card(i, RankTexts[i % 13] + DeckSuits[i / 13].RawValue(), false)
  }

  function FullDeck(): (d: seq<Card>)
    ensures |d| == DeckSize && forall i :: 0 <= i < DeckSize ==> d[i] == DeckCard(i)
  {
    seq(DeckSize, i requires 0 <= i < DeckSize => DeckCard(i))
  }

  /** `buildDeck`: for each suit, for each rank, append a new face-down card. */
  method BuildDeck() returns (deck: seq<Card>)
    ensures deck == FullDeck()
  {
    deck := [];
    for s := 0 to |DeckSuits|
      invariant |deck| == 13 * s
      invariant forall i :: 0 <= i < |deck| ==> deck[i] == DeckCard(i)
    {
      for r := 0 to |RankTexts|
        invariant |deck| == 13 * s + r
        invariant forall i :: 0 <= i < |deck| ==> deck[i] == DeckCard(i)
      {
        var face := RankTexts[r] + DeckSuits[s].RawValue();
        deck := deck + [Card(|deck|, face, false)];
      }
    }
  }

  /** The number texts "2" to "10" are what `String(n)` prints for them. */
  lemma NumberText(k: nat)
    requires 1 <= k <= 9
    ensures RankTexts[k] == Numerals.DecimalString(k + 1)
  {
    match k
    case 1 => assert Numerals.DecimalString(2) == "2";
    case 2 => assert Numerals.DecimalString(3) == "3";
    case 3 => assert Numerals.DecimalString(4) == "4";
    case 4 => assert Numerals.DecimalString(5) == "5";
    case 5 => assert Numerals.DecimalString(6) == "6";
    case 6 => assert Numerals.DecimalString(7) == "7";
    case 7 => assert Numerals.DecimalString(8) == "8";
    case 8 => assert Numerals.DecimalString(9) == "9";
    case 9 => assert Numerals.DecimalString(10) == "10";
  }

  /** Every rank text is free of suit symbols and ranks as its position + 1. */
  lemma RankText(k: nat, id: nat, symbols: string, up: bool)
    requires k < |RankTexts| && AllSuitSymbols(symbols)
    ensures RankTexts[k] != [] && NoSuitSymbols(RankTexts[k])
    ensures Rank(Card(id, RankTexts[k] + symbols, up)) == k + 1
  {
    if k == 0 {
      assert RankTexts[k] == "A" && NoSuitSymbols("A");
      RankOfCourtFace(id, "A", symbols, up);
    } else if k == 10 {
      assert RankTexts[k] == "J" && NoSuitSymbols("J");
      RankOfCourtFace(id, "J", symbols, up);
    } else if k == 11 {
      assert RankTexts[k] == "Q" && NoSuitSymbols("Q");
      RankOfCourtFace(id, "Q", symbols, up);
    } else if k == 12 {
      assert RankTexts[k] == "K" && NoSuitSymbols("K");
      RankOfCourtFace(id, "K", symbols, up);
    } else {
      NumberText(k);
      RankOfNumberFace(id, k + 1, symbols, up);
      DecimalNoSuitSymbols(k + 1);
    }
  }

  lemma DecimalNoSuitSymbols(n: nat)
    ensures NoSuitSymbols(Numerals.DecimalString(n))
  {
    var t := Numerals.DecimalString(n);
    assert Numerals.AllDigits(t);
    forall i | 0 <= i < |t| ensures !IsSuitSymbol(t[i]) {
      assert Numerals.IsDigit(t[i]);
    }
  }

  /**
   * Every card of the built deck is face down, has rank `i % 13 + 1` in 1..13,
   * belongs to suit `i / 13` of `allCases` and has that suit's colour.
   */
  lemma FullDeckFaces()
    ensures DeckSuits == AllCases
    ensures forall i :: 0 <= i < DeckSize ==> FaceOf(FullDeck()[i], i)
  {
    forall i | 0 <= i < DeckSize ensures FaceOf(FullDeck()[i], i) {
      FullDeckFace(i);
    }
  }

  /** What `buildDeck` promises of the card in position `i`. */
  predicate FaceOf(c: Card, i: nat)
    requires i < DeckSize
  {
    && !c.faceUp && c.id == i
    && Rank(c) == i % 13 + 1
    && SuitOf(c.value) == Some(AllCases[i / 13])
    && IsRed(c) == AllCases[i / 13].IsRed()
  }

  lemma FullDeckFace(i: nat)
    requires i < DeckSize
    ensures FaceOf(FullDeck()[i], i)
  {
    var s := DeckSuits[i / 13];
    assert s == AllCases[i / 13];
    SymbolIsSuitSymbol(s);
    RankText(i % 13, i, s.RawValue(), false);
    SuitOfFace(RankTexts[i % 13], s);
    CardColourMatchesSuit(i, RankTexts[i % 13], s, false);
  }

  /** A deck position is determined by the rank and suit of its card. */
  lemma PositionOfFace(i: nat, j: nat)
    requires i < DeckSize && j < DeckSize
    requires i % 13 == j % 13 && AllCases[i / 13] == AllCases[j / 13]
    ensures i == j
  {
    assert i / 13 == j / 13 by {
      assert SuitIndex(AllCases[i / 13]) == i / 13;
      assert SuitIndex(AllCases[j / 13]) == j / 13;
    }
  }

  /**
   * The deck is a full deck: each (rank, suit) pair of 1..13 x the four suits
   * occurs exactly once, at position 13 * suit + rank - 1.
   */
  lemma FullDeckExactlyOnce(s: Suit, r: int)
    requires 1 <= r <= 13
    ensures var i := 13 * SuitIndex(s) + r - 1;
      && 0 <= i < DeckSize
      && Rank(FullDeck()[i]) == r && SuitOf(FullDeck()[i].value) == Some(s)
      && forall j :: 0 <= j < DeckSize ==>
           (Rank(FullDeck()[j]) == r && SuitOf(FullDeck()[j].value) == Some(s) ==> j == i)
  {
    var i := 13 * SuitIndex(s) + r - 1;
    assert i / 13 == SuitIndex(s) && i % 13 == r - 1;
    assert Rank(FullDeck()[i]) == r && SuitOf(FullDeck()[i].value) == Some(s) by {
      FullDeckFace(i);
    }
    forall j | 0 <= j < DeckSize && Rank(FullDeck()[j]) == r && SuitOf(FullDeck()[j].value) == Some(s)
      ensures j == i
    {
      assert j % 13 == r - 1 && AllCases[j / 13] == s by {
        FullDeckFace(j);
      }
      PositionOfFace(i, j);
    }
  }

  /** No two cards of the built deck show the same face. */
  lemma FullDeckDistinct()
    ensures forall i, j :: 0 <= i < j < DeckSize ==> FullDeck()[i].value != FullDeck()[j].value
  {
    forall i, j | 0 <= i < j < DeckSize ensures FullDeck()[i].value != FullDeck()[j].value {
      FullDeckFace(i);
      FullDeckFace(j);
      if FullDeck()[i].value == FullDeck()[j].value {
        assert Rank(FullDeck()[i]) == Rank(FullDeck()[j]);
        PositionOfFace(i, j);
      }
    }
  }

  /** Cards dealt to the columns before column `col`: 0 + 1 + ... + col. */
  function Dealt(col: nat): nat {
    if col == 0 then 0 else Dealt(col - 1) + col
  }

  lemma {:induction false} DealtBound(col: nat)
    requires col <= ColumnCount
    ensures Dealt(col) <= Dealt(ColumnCount) == 28
    decreases ColumnCount - col
  {
    if col < ColumnCount { DealtBound(col + 1); }
  }

  /** The seven columns take 28 cards, and column `col` ends before the stock begins. */
  lemma DealtBounds()
    ensures Dealt(ColumnCount) == 28
    ensures forall col :: 0 <= col < ColumnCount ==> Dealt(col) + col < Dealt(ColumnCount)
  {
    forall col | 0 <= col < ColumnCount ensures Dealt(col) + col < Dealt(ColumnCount) {
      DealtBound(col + 1);
    }
  }

  /** All cards of the columns, column 0 first. */
  function Flatten(columns: seq<seq<Card>>): (r: seq<Card>) {
    if columns == [] then [] else Flatten(columns[..|columns| - 1]) + columns[|columns| - 1]
  }

  /** The shape `dealKlondike` leaves: column `col` holds the next `col + 1` shuffled cards, only the last face up. */
  ghost predicate DealtFrom(shuffled: seq<Card>, columns: seq<seq<Card>>) {
    && |shuffled| == DeckSize
    && |columns| == ColumnCount
    && (forall col :: 0 <= col < ColumnCount ==> |columns[col]| == col + 1)
    && (forall col, row :: 0 <= col < ColumnCount && 0 <= row < |columns[col]| ==>
          Dealt(col) + row < DeckSize && columns[col][row] == shuffled[Dealt(col) + row].(faceUp := row == col))
  }

  /**
   * `dealKlondike` with the shuffled deck as input: column `col` receives the
   * next `col + 1` cards of the deck, only the last of them face up, and the
   * remaining cards, in deck order, form the stock.
   */
  method DealKlondike(shuffled: seq<Card>) returns (columns: seq<seq<Card>>, stock: seq<Card>)
    requires |shuffled| == DeckSize
    ensures Dealt(ColumnCount) == 28
    ensures forall col :: 0 <= col < ColumnCount ==> Dealt(col) + col < Dealt(ColumnCount)
    ensures DealtFrom(shuffled, columns)
    ensures stock == shuffled[Dealt(ColumnCount)..]
  {
    DealtBounds();
    var cursor := 0;
    columns := seq(ColumnCount, _ => []);
    for col := 0 to ColumnCount
      invariant |columns| == ColumnCount && cursor == Dealt(col)
      invariant forall k :: 0 <= k < col ==> |columns[k]| == k + 1
      invariant forall k :: col <= k < ColumnCount ==> columns[k] == []
      invariant forall k, row :: 0 <= k < col && 0 <= row < |columns[k]| ==>
        columns[k][row] == shuffled[Dealt(k) + row].(faceUp := row == k)
    {
      for row := 0 to col + 1
        invariant |columns| == ColumnCount && cursor == Dealt(col) + row && |columns[col]| == row
        invariant forall k :: col < k < ColumnCount ==> columns[k] == []
        invariant forall k :: 0 <= k < col ==> |columns[k]| == k + 1
        invariant forall k, r :: 0 <= k < col && 0 <= r < |columns[k]| ==>
          columns[k][r] == shuffled[Dealt(k) + r].(faceUp := r == k)
        invariant forall r :: 0 <= r < row ==> columns[col][r] == shuffled[Dealt(col) + r].(faceUp := r == col)
      {
        var card := shuffled[cursor];
        card := card.(faceUp := row == col);
        columns := columns[col := columns[col] + [card]];
        cursor := cursor + 1;
      }
    }
    stock := shuffled[cursor..];
  }

  /** The first `c` dealt columns, read in order and turned down, are the first cards of the deck. */
  lemma {:induction false} DealtPrefix(shuffled: seq<Card>, columns: seq<seq<Card>>, c: nat)
    requires DealtFrom(shuffled, columns) && c <= ColumnCount
    ensures Dealt(c) <= DeckSize
    ensures Turned(Flatten(columns[..c]), false) == Turned(shuffled[..Dealt(c)], false)
  {
    DealtBound(c);
    if c > 0 {
      DealtPrefix(shuffled, columns, c - 1);
      assert columns[..c][..c - 1] == columns[..c - 1];
      var col := columns[c - 1];
      var lo, hi := Dealt(c - 1), Dealt(c);
      DealtColumn(shuffled, col, c - 1, lo);
      assert shuffled[..hi] == shuffled[..lo] + shuffled[lo..hi];
      TurnedAppend(Flatten(columns[..c - 1]), col);
      TurnedAppend(shuffled[..lo], shuffled[lo..hi]);
    }
  }

  /** Column `k`, turned face down, is the `k + 1` deck cards from `lo` on. */
  lemma DealtColumn(shuffled: seq<Card>, col: seq<Card>, k: nat, lo: nat)
    requires |col| == k + 1 && lo + k < |shuffled|
    requires forall row :: 0 <= row < |col| ==> col[row] == shuffled[lo + row].(faceUp := row == k)
    ensures Turned(col, false) == Turned(shuffled[lo..lo + k + 1], false)
  {
    forall row | 0 <= row < |col| ensures Turned(col, false)[row] == Turned(shuffled[lo..lo + k + 1], false)[row] {
      assert col[row] == shuffled[lo + row].(faceUp := row == k);
    }
  }

  lemma TurnedAppend(a: seq<Card>, b: seq<Card>)
    ensures Turned(a + b, false) == Turned(a, false) + Turned(b, false)
  {
  }

  /**
   * The deal keeps every card of the deck: the tableau takes 28 of them and
   * the stock the other 24, and together they are the deck, card for card.
   */
  lemma DealKeepsDeck(shuffled: seq<Card>, columns: seq<seq<Card>>, stock: seq<Card>)
    requires DealtFrom(shuffled, columns) && stock == shuffled[28..]
    ensures |Flatten(columns)| == 28 && |stock| == 24
    ensures Identities(Flatten(columns) + stock) == Identities(shuffled)
  {
    DealtBound(0);
    DealtPrefix(shuffled, columns, ColumnCount);
    assert columns[..ColumnCount] == columns;
    assert |Turned(Flatten(columns), false)| == |Flatten(columns)|;
    IdentitiesTurned(Flatten(columns), false);
    IdentitiesTurned(shuffled[..28], false);
    IdentitiesAppend(Flatten(columns), stock);
    IdentitiesAppend(shuffled[..28], stock);
    assert shuffled[..28] + stock == shuffled;
  }
}
