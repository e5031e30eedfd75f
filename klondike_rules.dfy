/**
 * The rules of the SwiftUI solitaire screen (GameView.swift) on a value
 * snapshot of its piles: the drop and foundation predicates, the lookup of a
 * suit's foundation, and the three moves `handleDrop`, `handleDoubleTap` and
 * `dealFromStock` as functions from the piles before to the piles after.
 * The screen object in KlondikeGame performs the same moves in place.
 */
module KlondikeRules {
  import opened Wrappers
  import opened Cards
  import opened Suits
  import opened KlondikeDeck

  /** `dealCount`: cards moved from the stock to the waste per tap. */
  const DealCount: nat := 3

  /** The screen's piles: tableau columns, stock, waste and foundations. */
  datatype Table = Table(
    columns: seq<seq<Card>>,
    stock: seq<Card>,
    waste: seq<Card>,
    foundations: seq<FoundationPile>)

  function Last(s: seq<Card>): Card
    requires s != []
  {
    s[|s| - 1]
  }

  /**
   * `canDrop`: an empty drag is refused; onto an empty column only a run led
   * by a King; otherwise the run's first card must be one rank below the
   * column's last card and of the other colour.
   */
  predicate CanDrop(dragged: seq<Card>, target: seq<Card>) {
    if dragged == [] then false
    else if target == [] then Rank(dragged[0]) == 13
    else Rank(dragged[0]) == Rank(Last(target)) - 1 && IsRed(dragged[0]) != IsRed(Last(target))
  }

  /** `canPlaceOnFoundation`: an Ace on an empty pile, otherwise exactly one above the top. */
  predicate CanPlaceOnFoundation(card: Card, pile: FoundationPile) {
    if pile.cards == [] then Rank(card) == 1
    else match pile.TopCard()
      case None => false
      case Some(top) => Rank(card) == Rank(top) + 1
  }

  /** No suit has two foundations, so `Dictionary(uniqueKeysWithValues:)` does not trap. */
  predicate DistinctSuits(piles: seq<FoundationPile>) {
    forall i, j :: 0 <= i < j < |piles| ==> piles[i].suit != piles[j].suit
  }

  /** `foundationIndex[suit]`: the position of the pile of that suit, if any. */
  function FoundationIndex(piles: seq<FoundationPile>, suit: Suit): (r: Option<nat>)
    requires DistinctSuits(piles)
    ensures r.Some? ==> r.value < |piles| && piles[r.value].suit == suit
    ensures r.None? <==> forall i :: 0 <= i < |piles| ==> piles[i].suit != suit
  {
    if piles == [] then None
    else if piles[|piles| - 1].suit == suit then Some(|piles| - 1)
    else FoundationIndex(piles[..|piles| - 1], suit)
  }

  /**
   * Flip the column's new last card face up: the flag of the last card is
   * set, everything else stays as it was.
   */
  function Expose(col: seq<Card>): (r: seq<Card>)
    ensures |r| == |col| && forall i :: 0 <= i < |col| - 1 ==> r[i] == col[i]
    ensures col != [] ==> Last(r) == Last(col).(faceUp := true)
    ensures Identities(r) == Identities(col)
  {
    if col != [] && !Last(col).faceUp then
      var r := col[..|col| - 1] + [Last(col).(faceUp := true)];
      assert Keys(r) == Keys(col);
      r
    else col
  }

  /** `columns[origin].removeLast(k)` traps when the column holds fewer than k cards. */
  predicate DropPossible(t: Table, dragged: seq<Card>, origin: nat, target: nat) {
    target < |t.columns| &&
    (target != origin && CanDrop(dragged, t.columns[target]) ==>
      origin < |t.columns| && |dragged| <= |t.columns[origin]|)
  }

  /**
   * `handleDrop` with the column nearest the drop point given as `target`
   * (None when no column frame is known): on a legal drop the origin loses
   * its last `|dragged|` cards and exposes its new last card, and the target
   * gains `dragged`.
   */
  function Drop(t: Table, dragged: seq<Card>, origin: nat, target: Option<nat>): Table
    requires target.Some? ==> DropPossible(t, dragged, origin, target.value)
  {
    match target
    case None => t
    case Some(to) =>
      if to == origin || !CanDrop(dragged, t.columns[to]) then t
      else t.(columns := MoveRun(t.columns, dragged, origin, to))
  }

  /**
   * The column updates of a legal drop: the origin drops its last `|run|`
   * cards and exposes its new last card, the target column gains `run`.
   */
  function MoveRun(columns: seq<seq<Card>>, run: seq<Card>, origin: nat, to: nat): seq<seq<Card>>
    requires origin < |columns| && to < |columns| && origin != to && |run| <= |columns[origin]|
  {
    var from := columns[origin];
    var exposed := columns[origin := Expose(from[..|from| - |run|])];
    exposed[to := exposed[to] + run]
  }

  /**
   * The foundation a double tap on `card` would place it on: the pile of the
   * card's suit, when the card may be placed there.
   */
  function TapTarget(t: Table, card: Card): (r: Option<nat>)
    requires DistinctSuits(t.foundations)
    ensures r.Some? ==>
      && r.value < |t.foundations|
      && SuitOf(card.value) == Some(t.foundations[r.value].suit)
      && CanPlaceOnFoundation(card, t.foundations[r.value])
  {
    match SuitOf(card.value)
    case None => None
    case Some(suit) =>
      match FoundationIndex(t.foundations, suit)
      case None => None
      case Some(f) => if CanPlaceOnFoundation(card, t.foundations[f]) then Some(f) else None
  }

  /** `columns[column].removeLast()` traps on an empty column. */
  predicate TapPossible(t: Table, card: Card, column: nat) {
    DistinctSuits(t.foundations) &&
    (TapTarget(t, card).Some? ==> column < |t.columns| && t.columns[column] != [])
  }

  /**
   * `handleDoubleTap`: when the card may go to its suit's foundation, the
   * column's last card is removed, the new last card exposed, and the tapped
   * card appended to the foundation. The source does not check that the
   * tapped card is the one removed.
   */
  function DoubleTap(t: Table, card: Card, column: nat): Table
    requires TapPossible(t, card, column)
  {
    match TapTarget(t, card)
    case None => t
    case Some(f) =>
      var pile := t.foundations[f];
      t.(columns := Pop(t.columns, column),
         foundations := t.foundations[f := pile.(cards := pile.cards + [card])])
  }

  /** The column update of a double tap: drop the last card, expose the new last one. */
  function Pop(columns: seq<seq<Card>>, column: nat): seq<seq<Card>>
    requires column < |columns| && columns[column] != []
  {
    var col := columns[column];
    columns[column := Expose(col[..|col| - 1])]
  }

  function Min(a: nat, b: nat): nat {
    if a <= b then a else b
  }

  /**
   * `dealFromStock`: an empty stock takes the waste back face down in the
   * same order; otherwise the last `min(dealCount, |stock|)` cards of the
   * stock go, face up and in order, to the end of the waste.
   */
  function DealStock(t: Table): Table {
    if t.stock == [] then t.(stock := Turned(t.waste, false), waste := [])
    else
      var count := Min(DealCount, |t.stock|);
      var dealt := t.stock[|t.stock| - count..];
      t.(stock := t.stock[..|t.stock| - count], waste := t.waste + Turned(dealt, true))
  }

  // ---------------------------------------------------------------------------
  // Card conservation
  // ---------------------------------------------------------------------------

  function ColumnIdentities(columns: seq<seq<Card>>): multiset<(nat, string)> {
    if columns == [] then multiset{}
    else ColumnIdentities(columns[..|columns| - 1]) + Identities(columns[|columns| - 1])
  }

  function PileIdentities(piles: seq<FoundationPile>): multiset<(nat, string)> {
    if piles == [] then multiset{}
    else PileIdentities(piles[..|piles| - 1]) + Identities(piles[|piles| - 1].cards)
  }

  /** Every card on the table, whichever pile holds it and whichever way up. */
  function TableIdentities(t: Table): multiset<(nat, string)> {
    ColumnIdentities(t.columns) + Identities(t.stock) + Identities(t.waste) + PileIdentities(t.foundations)
  }

  /** Replacing one column changes the cards of the tableau by the difference. */
  lemma {:induction false} ColumnIdentitiesUpdate(columns: seq<seq<Card>>, i: nat, c: seq<Card>)
    requires i < |columns|
    ensures ColumnIdentities(columns[i := c]) + Identities(columns[i])
         == ColumnIdentities(columns) + Identities(c)
  {
    var n := |columns|;
    var updated := columns[i := c];
    if i == n - 1 {
      assert updated[..n - 1] == columns[..n - 1];
    } else {
      var front := columns[..n - 1];
      assert updated[..n - 1] == front[i := c];
      ColumnIdentitiesUpdate(front, i, c);
      var a, b, last := ColumnIdentities(front[i := c]), ColumnIdentities(front), Identities(columns[n - 1]);
      calc {
        ColumnIdentities(updated) + Identities(columns[i]);
        a + last + Identities(front[i]);
        (a + Identities(front[i])) + last;
        (b + Identities(c)) + last;
        ColumnIdentities(columns) + Identities(c);
      }
    }
  }

  /** Replacing one foundation pile changes the cards of the foundations by the difference. */
  lemma {:induction false} PileIdentitiesUpdate(piles: seq<FoundationPile>, i: nat, p: FoundationPile)
    requires i < |piles|
    ensures PileIdentities(piles[i := p]) + Identities(piles[i].cards)
         == PileIdentities(piles) + Identities(p.cards)
  {
    var n := |piles|;
    var updated := piles[i := p];
    if i == n - 1 {
      assert updated[..n - 1] == piles[..n - 1];
    } else {
      var front := piles[..n - 1];
      assert updated[..n - 1] == front[i := p];
      PileIdentitiesUpdate(front, i, p);
      var a, b, last := PileIdentities(front[i := p]), PileIdentities(front), Identities(piles[n - 1].cards);
      calc {
        PileIdentities(updated) + Identities(piles[i].cards);
        a + last + Identities(front[i].cards);
        (a + Identities(front[i].cards)) + last;
        (b + Identities(p.cards)) + last;
        PileIdentities(piles) + Identities(p.cards);
      }
    }
  }

  // ---------------------------------------------------------------------------
  // handleDrop
  // ---------------------------------------------------------------------------

  /** `canDrop` in words: both directions of each of its three cases. */
  lemma CanDropCases(dragged: seq<Card>, target: seq<Card>)
    ensures dragged == [] ==> !CanDrop(dragged, target)
    ensures dragged != [] && target == [] ==> (CanDrop(dragged, target) <==> Rank(dragged[0]) == 13)
    ensures dragged != [] && target != [] ==>
      (CanDrop(dragged, target) <==>
        Rank(dragged[0]) + 1 == Rank(target[|target| - 1]) && IsRed(dragged[0]) != IsRed(target[|target| - 1]))
  {
  }

  /** A drop onto the origin itself, an illegal drop, or one with no target changes nothing. */
  lemma DropRefused(t: Table, dragged: seq<Card>, origin: nat, target: Option<nat>)
    requires target.Some? ==> DropPossible(t, dragged, origin, target.value)
    requires target.None? || target.value == origin || !CanDrop(dragged, t.columns[target.value])
    ensures Drop(t, dragged, origin, target) == t
  {
  }

  /** Multiset bookkeeping of a move: what one pile loses the other gains. */
  lemma Shift<K>(before: multiset<K>, mid: multiset<K>, after: multiset<K>, keep: multiset<K>,
                 moved: multiset<K>, onto: multiset<K>)
    requires mid + (keep + moved) == before + keep
    requires after + onto == mid + (onto + moved)
    ensures after == before
  {
    forall x ensures after[x] == before[x] {
      assert (mid + (keep + moved))[x] == (before + keep)[x];
      assert (after + onto)[x] == (mid + (onto + moved))[x];
    }
  }

  /**
   * The columns after a drop: the origin keeps all but its last `|run|`
   * cards, of which only the new last one may turn face up; the target gains
   * `run` in order; and no other column changes.
   */
  lemma MoveRunEffect(columns: seq<seq<Card>>, run: seq<Card>, origin: nat, to: nat)
    requires origin < |columns| && to < |columns| && origin != to && |run| <= |columns[origin]|
    ensures var after := MoveRun(columns, run, origin, to);
      var from := columns[origin];
      var keep := |from| - |run|;
      && |after| == |columns|
      && |after[origin]| == keep
      && (forall i :: 0 <= i < keep - 1 ==> after[origin][i] == from[i])
      && (keep > 0 ==> after[origin][keep - 1] == from[keep - 1].(faceUp := true))
      && after[to] == columns[to] + run
      && (forall k :: 0 <= k < |columns| && k != origin && k != to ==> after[k] == columns[k])
  {
    var from := columns[origin];
    var keep := |from| - |run|;
    assert keep > 0 ==> Last(from[..keep]) == from[keep - 1];
  }

  /** When `run` is the origin's own last cards, the tableau holds the same cards after the move. */
  lemma MoveRunKeepsCards(columns: seq<seq<Card>>, run: seq<Card>, origin: nat, to: nat)
    requires origin < |columns| && to < |columns| && origin != to && |run| <= |columns[origin]|
    requires run == columns[origin][|columns[origin]| - |run|..]
    ensures ColumnIdentities(MoveRun(columns, run, origin, to)) == ColumnIdentities(columns)
  {
    var from := columns[origin];
    var prefix := from[..|from| - |run|];
    var mid := columns[origin := Expose(prefix)];
    var after := MoveRun(columns, run, origin, to);
    ColumnIdentitiesUpdate(columns, origin, Expose(prefix));
    ColumnIdentitiesUpdate(mid, to, columns[to] + run);
    assert from == prefix + run;
    IdentitiesAppend(prefix, run);
    IdentitiesAppend(columns[to], run);
    Shift(ColumnIdentities(columns), ColumnIdentities(mid), ColumnIdentities(after),
          Identities(prefix), Identities(run), Identities(columns[to]));
  }

  /** A table whose columns hold the same cards as before holds the same cards. */
  lemma ColumnsKeepCards(t: Table, columns: seq<seq<Card>>)
    requires ColumnIdentities(columns) == ColumnIdentities(t.columns)
    ensures TableIdentities(t.(columns := columns)) == TableIdentities(t)
  {
  }

  /**
   * A legal drop changes the columns as `MoveRun` says and no other pile;
   * when `dragged` is the origin's own last cards, the table holds the same
   * cards as before.
   */
  lemma DropMoves(t: Table, dragged: seq<Card>, origin: nat, to: nat)
    requires DropPossible(t, dragged, origin, to)
    requires to != origin && CanDrop(dragged, t.columns[to])
    ensures var t' := Drop(t, dragged, origin, Some(to));
      var from := t.columns[origin];
      && t'.columns == MoveRun(t.columns, dragged, origin, to)
      && t'.stock == t.stock && t'.waste == t.waste && t'.foundations == t.foundations
      && (dragged == from[|from| - |dragged|..] ==> TableIdentities(t') == TableIdentities(t))
  {
    var moved := t.(columns := MoveRun(t.columns, dragged, origin, to));
    assert Drop(t, dragged, origin, Some(to)) == moved;
    var from := t.columns[origin];
    if dragged == from[|from| - |dragged|..] {
      MoveRunKeepsCards(t.columns, dragged, origin, to);
      ColumnsKeepCards(t, moved.columns);
    }
  }

  /**
   * A column lies as the source keeps it: face-down cards, then face-up
   * ones, and a non-empty column ends face up.
   */
  predicate Stacked(col: seq<Card>) {
    (col != [] ==> Last(col).faceUp) &&
    forall i, j :: 0 <= i < j < |col| && col[i].faceUp ==> col[j].faceUp
  }

  predicate AllFaceUp(s: seq<Card>) {
    forall i :: 0 <= i < |s| ==> s[i].faceUp
  }

  predicate AllFaceDown(s: seq<Card>) {
    forall i :: 0 <= i < |s| ==> !s[i].faceUp
  }

  /** A prefix of a stacked column, once exposed, is stacked again. */
  lemma ExposePrefix(col: seq<Card>, keep: nat)
    requires Stacked(col) && keep <= |col|
    ensures Stacked(Expose(col[..keep]))
  {
    var r := Expose(col[..keep]);
    forall i, j | 0 <= i < j < |r| && r[i].faceUp ensures r[j].faceUp {
      if j == |r| - 1 {
      } else {
        assert r[i] == col[i] && r[j] == col[j];
      }
    }
  }

  /** A face-up run dropped on a stacked column leaves it stacked. */
  lemma AppendFaceUp(col: seq<Card>, run: seq<Card>)
    requires Stacked(col) && AllFaceUp(run) && run != []
    ensures Stacked(col + run)
  {
    var r := col + run;
    forall i, j | 0 <= i < j < |r| && r[i].faceUp ensures r[j].faceUp {
      if j < |col| { assert r[i] == col[i] && r[j] == col[j]; }
      else { assert r[j] == run[j - |col|]; }
    }
  }

  lemma MoveRunKeepsStacked(columns: seq<seq<Card>>, run: seq<Card>, origin: nat, to: nat)
    requires origin < |columns| && to < |columns| && origin != to && |run| <= |columns[origin]|
    requires forall k :: 0 <= k < |columns| ==> Stacked(columns[k])
    requires AllFaceUp(run) && run != []
    ensures var after := MoveRun(columns, run, origin, to);
      |after| == |columns| && forall k :: 0 <= k < |after| ==> Stacked(after[k])
  {
    var from := columns[origin];
    ExposePrefix(from, |from| - |run|);
    AppendFaceUp(columns[to], run);
  }

  /** Dropping a face-up run keeps every column stacked. */
  lemma DropKeepsStacked(t: Table, dragged: seq<Card>, origin: nat, target: Option<nat>)
    requires target.Some? ==> DropPossible(t, dragged, origin, target.value)
    requires forall k :: 0 <= k < |t.columns| ==> Stacked(t.columns[k])
    requires AllFaceUp(dragged)
    ensures var t' := Drop(t, dragged, origin, target);
      |t'.columns| == |t.columns| && forall k :: 0 <= k < |t'.columns| ==> Stacked(t'.columns[k])
  {
    if target.Some? && target.value != origin && CanDrop(dragged, t.columns[target.value]) {
      MoveRunKeepsStacked(t.columns, dragged, origin, target.value);
    }
  }

  // ---------------------------------------------------------------------------
  // handleDoubleTap
  // ---------------------------------------------------------------------------

  /** `canPlaceOnFoundation` in words. */
  lemma CanPlaceCases(card: Card, pile: FoundationPile)
    ensures pile.cards == [] ==> (CanPlaceOnFoundation(card, pile) <==> Rank(card) == 1)
    ensures pile.cards != [] ==>
      (CanPlaceOnFoundation(card, pile) <==> Rank(card) == Rank(pile.cards[|pile.cards| - 1]) + 1)
  {
  }

  /** A tap that no foundation accepts changes nothing. */
  lemma DoubleTapRefused(t: Table, card: Card, column: nat)
    requires TapPossible(t, card, column) && TapTarget(t, card).None?
    ensures DoubleTap(t, card, column) == t
  {
  }

  /**
   * A tap is refused exactly when the card names no suit or its suit's
   * foundation does not take it.
   */
  lemma TapTargetExact(t: Table, card: Card)
    requires DistinctSuits(t.foundations)
    ensures TapTarget(t, card).None? <==>
      forall f :: 0 <= f < |t.foundations| ==>
        !(SuitOf(card.value) == Some(t.foundations[f].suit) && CanPlaceOnFoundation(card, t.foundations[f]))
  {
    if TapTarget(t, card).None? {
      forall f | 0 <= f < |t.foundations|
        ensures !(SuitOf(card.value) == Some(t.foundations[f].suit) && CanPlaceOnFoundation(card, t.foundations[f]))
      {
        if SuitOf(card.value) == Some(t.foundations[f].suit) {
          var g := FoundationIndex(t.foundations, t.foundations[f].suit);
          assert g.Some? && g.value == f;
        }
      }
    }
  }

  /**
   * A legal double tap on the column's last card: the column loses it and
   * exposes its new last card, the foundation of the card's suit gains it,
   * nothing else changes and the table holds the same cards.
   */
  lemma DoubleTapMoves(t: Table, card: Card, column: nat)
    requires TapPossible(t, card, column) && TapTarget(t, card).Some?
    ensures var t' := DoubleTap(t, card, column);
      var f := TapTarget(t, card).value;
      var col := t.columns[column];
      && SuitOf(card.value) == Some(t.foundations[f].suit)
      && t'.foundations == t.foundations[f := t.foundations[f].(cards := t.foundations[f].cards + [card])]
      && t'.columns == Pop(t.columns, column)
      && t'.stock == t.stock && t'.waste == t.waste
      && (card == Last(col) ==> TableIdentities(t') == TableIdentities(t))
  {
    var f := TapTarget(t, card).value;
    if card == Last(t.columns[column]) {
      MoveLastToPile(t, column, f);
    }
  }

  /**
   * The columns after a double tap: the tapped column loses its last card,
   * only its new last card may turn face up, and no other column changes.
   */
  lemma PopEffect(columns: seq<seq<Card>>, column: nat)
    requires column < |columns| && columns[column] != []
    ensures var after := Pop(columns, column);
      var col := columns[column];
      && |after| == |columns|
      && |after[column]| == |col| - 1
      && (forall i :: 0 <= i < |col| - 2 ==> after[column][i] == col[i])
      && (|col| >= 2 ==> after[column][|col| - 2] == col[|col| - 2].(faceUp := true))
      && (forall k :: 0 <= k < |columns| && k != column ==> after[k] == columns[k])
  {
    var col := columns[column];
    assert |col| >= 2 ==> Last(col[..|col| - 1]) == col[|col| - 2];
  }

  /** Moving a column's last card onto a foundation keeps every card on the table. */
  lemma MoveLastToPile(t: Table, column: nat, f: nat)
    requires column < |t.columns| && t.columns[column] != [] && f < |t.foundations|
    ensures var pile := t.foundations[f];
      var t' := t.(columns := Pop(t.columns, column),
                   foundations := t.foundations[f := pile.(cards := pile.cards + [Last(t.columns[column])])]);
      TableIdentities(t') == TableIdentities(t)
  {
    var col := t.columns[column];
    var card := Last(col);
    var prefix := col[..|col| - 1];
    var pile := t.foundations[f];
    var columns' := t.columns[column := Expose(prefix)];
    var piles' := t.foundations[f := pile.(cards := pile.cards + [card])];
    ColumnIdentitiesUpdate(t.columns, column, Expose(prefix));
    PileIdentitiesUpdate(t.foundations, f, pile.(cards := pile.cards + [card]));
    assert col == prefix + [card];
    IdentitiesAppend(prefix, [card]);
    IdentitiesAppend(pile.cards, [card]);
    Transfer(ColumnIdentities(t.columns), ColumnIdentities(columns'), Identities(prefix), Identities([card]),
             PileIdentities(t.foundations), PileIdentities(piles'), Identities(pile.cards),
             Identities(t.stock), Identities(t.waste));
  }

  /** Multiset bookkeeping of a card going from the tableau to a foundation. */
  lemma Transfer<K>(columns: multiset<K>, columns': multiset<K>, keep: multiset<K>, moved: multiset<K>,
                    piles: multiset<K>, piles': multiset<K>, pile: multiset<K>,
                    stock: multiset<K>, waste: multiset<K>)
    requires columns' + (keep + moved) == columns + keep
    requires piles' + pile == piles + (pile + moved)
    ensures columns' + stock + waste + piles' == columns + stock + waste + piles
  {
    forall x ensures (columns' + stock + waste + piles')[x] == (columns + stock + waste + piles)[x] {
      assert (columns' + (keep + moved))[x] == (columns + keep)[x];
      assert (piles' + pile)[x] == (piles + (pile + moved))[x];
    }
  }

  /** A foundation built from the Ace up in its own suit. */
  predicate Ascending(pile: FoundationPile) {
    forall i :: 0 <= i < |pile.cards| ==>
      Rank(pile.cards[i]) == i + 1 && SuitOf(pile.cards[i].value) == Some(pile.suit)
  }

  /** Double taps keep every foundation ascending in its own suit. */
  lemma DoubleTapKeepsAscending(t: Table, card: Card, column: nat)
    requires TapPossible(t, card, column)
    requires forall f :: 0 <= f < |t.foundations| ==> Ascending(t.foundations[f])
    ensures var t' := DoubleTap(t, card, column);
      |t'.foundations| == |t.foundations| && forall f :: 0 <= f < |t'.foundations| ==> Ascending(t'.foundations[f])
  {
    if TapTarget(t, card).Some? {
      var f := TapTarget(t, card).value;
      var pile := t.foundations[f];
      var cards := pile.cards + [card];
      forall i | 0 <= i < |cards| ensures Rank(cards[i]) == i + 1 && SuitOf(cards[i].value) == Some(pile.suit) {
        if i < |pile.cards| { assert cards[i] == pile.cards[i]; }
      }
    }
  }

  /** A double tap on a stacked column's last card keeps every column stacked. */
  lemma DoubleTapKeepsStacked(t: Table, card: Card, column: nat)
    requires TapPossible(t, card, column)
    requires forall k :: 0 <= k < |t.columns| ==> Stacked(t.columns[k])
    ensures var t' := DoubleTap(t, card, column);
      |t'.columns| == |t.columns| && forall k :: 0 <= k < |t'.columns| ==> Stacked(t'.columns[k])
  {
    if TapTarget(t, card).Some? {
      ExposePrefix(t.columns[column], |t.columns[column]| - 1);
    }
  }

  // ---------------------------------------------------------------------------
  // dealFromStock
  // ---------------------------------------------------------------------------

  /**
   * A deal from a non-empty stock moves its last min(3, |stock|) cards, in
   * the same order and face up, to the end of the waste.
   */
  lemma DealStockDraws(t: Table)
    requires t.stock != []
    ensures var t' := DealStock(t);
      var n := |t.stock|;
      var count := if n < DealCount then n else DealCount;
      && 1 <= count <= DealCount
      && t'.stock + t.stock[n - count..] == t.stock
      && |t'.waste| == |t.waste| + count
      && t'.waste[..|t.waste|] == t.waste
      && t'.waste[|t.waste|..] == Turned(t.stock[n - count..], true)
      && t'.columns == t.columns && t'.foundations == t.foundations
  {
    var t' := DealStock(t);
    var n := |t.stock|;
    var count := Min(DealCount, n);
    assert t'.stock + t.stock[n - count..] == t.stock;
  }

  /**
   * A deal from an empty stock turns the waste over as it is: same cards,
   * same order, all face down, and leaves the waste empty; with both piles
   * empty it changes nothing.
   */
  lemma DealStockRecycles(t: Table)
    requires t.stock == []
    ensures var t' := DealStock(t);
      && |t'.stock| == |t.waste|
      && (forall i :: 0 <= i < |t.waste| ==> t'.stock[i] == t.waste[i].(faceUp := false))
      && t'.waste == []
      && t'.columns == t.columns && t'.foundations == t.foundations
      && (t.waste == [] ==> t' == t)
  {
  }

  /** Dealing from the stock keeps every card on the table. */
  lemma DealStockKeepsCards(t: Table)
    ensures TableIdentities(DealStock(t)) == TableIdentities(t)
  {
    if t.stock == [] {
      IdentitiesTurned(t.waste, false);
    } else {
      var count := Min(DealCount, |t.stock|);
      var k := |t.stock| - count;
      assert t.stock == t.stock[..k] + t.stock[k..];
      IdentitiesAppend(t.stock[..k], t.stock[k..]);
      IdentitiesAppend(t.waste, Turned(t.stock[k..], true));
      IdentitiesTurned(t.stock[k..], true);
    }
  }

  /** The stock stays face down and the waste face up. */
  lemma DealStockKeepsFaces(t: Table)
    requires AllFaceDown(t.stock) && AllFaceUp(t.waste)
    ensures AllFaceDown(DealStock(t).stock) && AllFaceUp(DealStock(t).waste)
  {
    if t.stock != [] {
      var t' := DealStock(t);
      forall i | 0 <= i < |t'.waste| ensures t'.waste[i].faceUp {
        if i < |t.waste| { assert t'.waste[i] == t.waste[i]; }
      }
    }
  }

  /**
   * Because the waste comes back in the same order, the first deal after a
   * recycle hands out again the cards that were on top of the waste, last
   * dealt first.
   */
  lemma RecycleRedealsTop(t: Table)
    requires t.stock == [] && |t.waste| >= DealCount
    ensures var t' := DealStock(DealStock(t));
      var n := |t.waste|;
      t'.waste == Turned(t.waste[n - DealCount..], true)
  {
    var t1 := DealStock(t);
    var n := |t.waste|;
    assert t1.stock[n - DealCount..] == Turned(t.waste[n - DealCount..], false);
  }

  // ---------------------------------------------------------------------------
  // The rules on the cards of the deck
  // ---------------------------------------------------------------------------

  /**
   * For the cards `buildDeck` makes, lying either way up: an empty column
   * takes exactly a run led by a King.
   */
  lemma DeckCardOnEmpty(i: nat, up: bool, run: seq<Card>)
    requires i < DeckSize
    ensures CanDrop([FullDeck()[i].(faceUp := up)] + run, []) <==> i % 13 == 12
  {
    FullDeckFace(i);
    TurningKeepsFace(FullDeck()[i], up);
    assert ([FullDeck()[i].(faceUp := up)] + run)[0] == FullDeck()[i].(faceUp := up);
  }

  /**
   * For the cards `buildDeck` makes, lying either way up: a run led by deck
   * card `i` goes on deck card `j` exactly when `i` is one rank below `j`
   * and their suits differ in colour.
   */
  lemma DeckCardOnCard(i: nat, j: nat, up: bool, run: seq<Card>, col: seq<Card>, down: bool)
    requires i < DeckSize && j < DeckSize
    ensures CanDrop([FullDeck()[i].(faceUp := up)] + run, col + [FullDeck()[j].(faceUp := down)]) <==>
      i % 13 + 1 == j % 13 && AllCases[i / 13].IsRed() != AllCases[j / 13].IsRed()
  {
    var a := FullDeck()[i].(faceUp := up);
    var b := FullDeck()[j].(faceUp := down);
    assert Rank(a) == i % 13 + 1 && IsRed(a) == AllCases[i / 13].IsRed() by {
      FullDeckFace(i);
      TurningKeepsFace(FullDeck()[i], up);
    }
    assert Rank(b) == j % 13 + 1 && IsRed(b) == AllCases[j / 13].IsRed() by {
      FullDeckFace(j);
      TurningKeepsFace(FullDeck()[j], down);
    }
    assert ([a] + run)[0] == a;
    assert Last(col + [b]) == b;
  }

  /**
   * For the cards `buildDeck` makes: an empty foundation takes exactly an
   * Ace, and one topped by deck card `j` takes deck card `i` exactly when
   * `i` is one rank above `j`.
   */
  lemma DeckCardPlace(i: nat, j: nat, up: bool, suit: Suit, below: seq<Card>, down: bool)
    requires i < DeckSize && j < DeckSize
    ensures CanPlaceOnFoundation(FullDeck()[i].(faceUp := up), FoundationPile(suit, [])) <==> i % 13 == 0
    ensures CanPlaceOnFoundation(FullDeck()[i].(faceUp := up), FoundationPile(suit, below + [FullDeck()[j].(faceUp := down)]))
      <==> i % 13 == j % 13 + 1
  {
    var a := FullDeck()[i].(faceUp := up);
    var b := FullDeck()[j].(faceUp := down);
    assert Rank(a) == i % 13 + 1 by {
      FullDeckFace(i);
      TurningKeepsFace(FullDeck()[i], up);
    }
    assert Rank(b) == j % 13 + 1 by {
      FullDeckFace(j);
      TurningKeepsFace(FullDeck()[j], down);
    }
    assert Last(below + [b]) == b;
  }
}
