/**
 * The SwiftUI solitaire screen (GameView.swift) as an object whose pile
 * arrays are updated in place. Each handler is proved to leave the piles as
 * the matching function of KlondikeRules says, so the properties proved
 * there hold of the screen.
 */
module KlondikeGame {
  import opened Wrappers
  import opened Cards
  import opened Suits
  import opened Permutations
  import opened KlondikeDeck
  import opened KlondikeRules

  /** The cards of a shuffled pile are the cards of the pile. */
  lemma IdentitiesShuffled(s: seq<Card>, perm: seq<nat>)
    requires IsPermutation(perm, |s|)
    ensures Identities(Shuffled(s, perm)) == Identities(s)
  {
    PermutationBounds(perm, |s|);
    assert Keys(Shuffled(s, perm)) == Shuffled(Keys(s), perm);
  }

  /** A shuffle of face-down cards holds face-down cards only. */
  lemma ShuffledFaceDown(s: seq<Card>, perm: seq<nat>)
    requires IsPermutation(perm, |s|) && AllFaceDown(s)
    ensures AllFaceDown(Shuffled(s, perm))
  {
    var r := Shuffled(s, perm);
    forall i | 0 <= i < |r| ensures !r[i].faceUp {
      assert r[i] in multiset(s);
    }
  }

  /** The tableau's cards counted column by column are the cards of its flattening. */
  lemma {:induction false} ColumnIdentitiesFlatten(columns: seq<seq<Card>>)
    ensures ColumnIdentities(columns) == Identities(Flatten(columns))
  {
    if columns != [] {
      var n := |columns|;
      ColumnIdentitiesFlatten(columns[..n - 1]);
      IdentitiesAppend(Flatten(columns[..n - 1]), columns[n - 1]);
    }
  }

  /** The shape the deal leaves a column in: face-down cards under one face-up card. */
  lemma DealtColumnStacked(col: seq<Card>, k: nat)
    requires |col| == k + 1
    requires forall row :: 0 <= row < |col| ==> col[row].faceUp == (row == k)
    ensures Stacked(col)
  {
  }

  lemma {:induction false} EmptyPiles(piles: seq<FoundationPile>)
    requires forall f :: 0 <= f < |piles| ==> piles[f].cards == []
    ensures PileIdentities(piles) == multiset{}
  {
    if piles != [] {
      EmptyPiles(piles[..|piles| - 1]);
    }
  }

  /** Dealing a shuffle of any 52 cards into columns and stock keeps exactly those cards. */
  lemma DealtIdentities(deck: seq<Card>, perm: seq<nat>, shuffled: seq<Card>, columns: seq<seq<Card>>, stock: seq<Card>)
    requires |deck| == DeckSize && IsPermutation(perm, DeckSize) && shuffled == Shuffled(deck, perm)
    requires DealtFrom(shuffled, columns) && stock == shuffled[28..]
    ensures ColumnIdentities(columns) + Identities(stock) == Identities(deck)
  {
    assert Identities(Flatten(columns) + stock) == Identities(deck) by {
      DealKeepsDeck(shuffled, columns, stock);
      IdentitiesShuffled(deck, perm);
    }
    ColumnIdentitiesFlatten(columns);
    IdentitiesAppend(Flatten(columns), stock);
  }

  /** With the waste and the foundations empty, the table holds what the deal holds. */
  lemma DealtTable(deck: seq<Card>, columns: seq<seq<Card>>, stock: seq<Card>, piles: seq<FoundationPile>)
    requires ColumnIdentities(columns) + Identities(stock) == Identities(deck)
    requires forall f :: 0 <= f < |piles| ==> piles[f].cards == []
    ensures TableIdentities(Table(columns, stock, [], piles)) == Identities(deck)
  {
    EmptyPiles(piles);
    assert Identities([]) == multiset{};
  }

  /**
   * A table as a new game starts: seven stacked columns of 1 to 7 cards with
   * only the last face up, a face-down stock of 24, an empty waste, empty
   * foundations, and the cards of `deck` among them.
   */
  ghost predicate Opening(t: Table, deck: seq<Card>) {
    && |t.columns| == ColumnCount
    && (forall col :: 0 <= col < ColumnCount ==> |t.columns[col]| == col + 1)
    && (forall col, row :: 0 <= col < ColumnCount && 0 <= row < |t.columns[col]| ==>
          t.columns[col][row].faceUp == (row == col))
    && (forall col :: 0 <= col < ColumnCount ==> Stacked(t.columns[col]))
    && |t.stock| == 24 && AllFaceDown(t.stock)
    && t.waste == []
    && (forall f :: 0 <= f < |t.foundations| ==> t.foundations[f].cards == [])
    && TableIdentities(t) == Identities(deck)
  }

  /** What the deal of a shuffled face-down deck leaves on the table is an opening table. */
  lemma InitialTable(deck: seq<Card>, perm: seq<nat>, shuffled: seq<Card>, columns: seq<seq<Card>>, stock: seq<Card>,
                     piles: seq<FoundationPile>)
    requires |deck| == DeckSize && AllFaceDown(deck)
    requires IsPermutation(perm, DeckSize) && shuffled == Shuffled(deck, perm)
    requires DealtFrom(shuffled, columns) && stock == shuffled[28..]
    requires forall f :: 0 <= f < |piles| ==> piles[f].cards == []
    ensures Opening(Table(columns, stock, [], piles), deck)
  {
    DealtColumns(shuffled, columns);
    ShuffledFaceDown(deck, perm);
    DealtIdentities(deck, perm, shuffled, columns, stock);
    DealtTable(deck, columns, stock, piles);
  }

  /** The dealt columns hold 1 to 7 cards, only the last face up, and so are stacked. */
  lemma DealtColumns(shuffled: seq<Card>, columns: seq<seq<Card>>)
    requires DealtFrom(shuffled, columns)
    ensures |columns| == ColumnCount && forall col :: 0 <= col < ColumnCount ==> |columns[col]| == col + 1
    ensures forall col, row :: 0 <= col < ColumnCount && 0 <= row < |columns[col]| ==>
      columns[col][row].faceUp == (row == col)
    ensures forall col :: 0 <= col < ColumnCount ==> Stacked(columns[col])
  {
    forall col | 0 <= col < ColumnCount ensures Stacked(columns[col]) {
      DealtColumnStacked(columns[col], col);
    }
  }

  /** Flipping the last card in place, as the handlers do, is `Expose`. */
  lemma FlipLast(col: seq<Card>)
    requires col != [] && !col[|col| - 1].faceUp
    ensures col[|col| - 1 := col[|col| - 1].(faceUp := true)] == Expose(col)
  {
  }

  class Game {
    var columns: seq<seq<Card>>
    var stock: seq<Card>
    var waste: seq<Card>
    var foundations: seq<FoundationPile>

    /** The piles as a value. */
    function Snapshot(): Table
      reads this
    {
      Table(columns, stock, waste, foundations)
    }

    /** Seven columns and one foundation per suit, in `Suit.allCases` order. */
    predicate Valid()
      reads this
    {
      |columns| == ColumnCount &&
      |foundations| == |AllCases| &&
      forall f :: 0 <= f < |foundations| ==> foundations[f].suit == AllCases[f]
    }

    /**
     * `init`: build the deck, shuffle it in the order `perm`, deal it, and
     * start with an empty waste and four empty foundations.
     */
    constructor(perm: seq<nat>)
      requires IsPermutation(perm, DeckSize)
      ensures Valid() && Opening(Snapshot(), FullDeck())
    {
      var deck := BuildDeck();
      var shuffled := Shuffled(deck, perm);
      var dealt, rest := DealKlondike(shuffled);
      columns := dealt;
      stock := rest;
      waste := [];
      foundations := seq(|AllCases|, i requires 0 <= i < |AllCases| => FoundationPile(AllCases[i], []));
      new;
      assert AllFaceDown(deck);
      InitialTable(deck, perm, shuffled, columns, stock, foundations);
    }

    /**
     * `handleDrop` with the target column given: refuse a drop onto the
     * origin or one `canDrop` rejects; otherwise remove the last
     * `|dragged|` cards of the origin, turn its new last card face up, and
     * append `dragged` to the target.
     */
    method HandleDrop(dragged: seq<Card>, origin: nat, target: Option<nat>)
      requires Valid()
      requires target.Some? ==> DropPossible(Snapshot(), dragged, origin, target.value)
      modifies this
      ensures Valid()
      ensures Snapshot() == Drop(old(Snapshot()), dragged, origin, target)
    {
      if target.None? {
        return;
      }
      var to := target.value;
      if to == origin {
        return;
      }
      if !CanDrop(dragged, columns[to]) {
        return;
      }
      var from := columns[origin];
      from := from[..|from| - |dragged|];
      ghost var kept := from;
      if |from| > 0 && !from[|from| - 1].faceUp {
        FlipLast(from);
        from := from[|from| - 1 := from[|from| - 1].(faceUp := true)];
      }
      assert from == Expose(kept);
      columns := columns[origin := from];
      columns := columns[to := columns[to] + dragged];
      assert columns == MoveRun(old(columns), dragged, origin, to);
    }

    /**
     * `handleDoubleTap`: when the card's suit has a foundation that takes it,
     * remove the column's last card, turn the new last card face up, and
     * append the tapped card to that foundation.
     */
    method HandleDoubleTap(card: Card, column: nat)
      requires Valid()
      requires TapTarget(Snapshot(), card).Some? ==> column < |columns| && columns[column] != []
      modifies this
      ensures Valid()
      ensures DistinctSuits(old(foundations))
      ensures Snapshot() == DoubleTap(old(Snapshot()), card, column)
    {
      assert DistinctSuits(foundations) by {
        forall i, j | 0 <= i < j < |foundations| ensures foundations[i].suit != foundations[j].suit {
          assert SuitIndex(AllCases[i]) == i && SuitIndex(AllCases[j]) == j;
        }
      }
      var suit := SuitOf(card.value);
      if suit.None? {
        return;
      }
      var index := FoundationIndex(foundations, suit.value);
      if index.None? {
        return;
      }
      var f := index.value;
      var pile := foundations[f];
      if !CanPlaceOnFoundation(card, pile) {
        return;
      }
      var col := columns[column];
      col := col[..|col| - 1];
      ghost var kept := col;
      if |col| > 0 && !col[|col| - 1].faceUp {
        FlipLast(col);
        col := col[|col| - 1 := col[|col| - 1].(faceUp := true)];
      }
      assert col == Expose(kept);
      columns := columns[column := col];
      assert columns == Pop(old(columns), column);
      foundations := foundations[f := foundations[f].(cards := foundations[f].cards + [card])];
    }

    /**
     * `dealFromStock`: with an empty stock, the waste becomes the stock, each
     * card turned face down, and the waste is emptied; otherwise the last
     * `min(dealCount, |stock|)` stock cards move face up onto the waste.
     */
    method DealFromStock()
      requires Valid()
      modifies this
      ensures Valid()
      ensures Snapshot() == DealStock(old(Snapshot()))
    {
      if stock == [] {
        stock := Turned(waste, false);
        waste := [];
        return;
      }
      var count := Min(DealCount, |stock|);
      var dealt := stock[|stock| - count..];
      stock := stock[..|stock| - count];
      waste := waste + Turned(dealt, true);
    }
  }
}
