# Games: Klondike, Minesweeper and the SpriteKit card pieces

A Dafny model of the game logic of the `Games` iOS app. It covers five parts.

- **The SwiftUI Klondike screen** (`GameView.swift`, with `Card.swift` and `Suit.swift`):
  - a card's rank and colour parsed from its face text;
  - building the 52-card deck, shuffling it and dealing seven columns and a stock;
  - dropping a run of cards onto a column;
  - double-tapping a card onto its suit's foundation;
  - dealing from the stock or recycling the waste.
- **The Minesweeper screen** (`MineSweeperGameView.swift`):
  - laying the mines and counting each tile's neighbouring mines;
  - the flood-filling `reveal`, flag toggling and the win check;
  - the flag counter and the zoom clamp.
- **The SpriteKit card node** (`SKCard.swift`): choosing a card record's image name and the tap highlight.
- **The SpriteKit deck table** (`SolitareDeck.swift`): the fixed table of 52 records and its shuffled copy.
- **The generic linked list** (`GLinkedList.swift`): append, clear, walk, and its iterator.

## How the model is built

Pure Swift helpers become Dafny functions. Their properties are stated as lemmas.

Objects whose fields change in place become classes:
- the Klondike screen is `KlondikeGame.Game`;
- the Minesweeper screen is `Minesweeper.Game`;
- the card node is `LegacyCard.SKCard`;
- the list, its nodes and its iterator are the classes of `LinkedList`.

Each Klondike handler is proved to leave the piles exactly as a pure transition function of `KlondikeRules` says. Everything proved about that function therefore holds of the screen:
- `HandleDrop` follows `Drop`;
- `HandleDoubleTap` follows `DoubleTap`;
- `DealFromStock` follows `DealStock`.

The Minesweeper board is the Swift value `[[Tile]]`. Its tiles are replaced one at a time, which `Put` models. Two ghost sets are tied to the board by the invariant `Playable`:
- `mines`, the mined cells;
- `hidden`, the cells not yet revealed.

Randomness is an input to the model:
- `deck.shuffle()` and `SolitareDeck.shuffled()` take a permutation of positions;
- the random mine draws are a sequence of picked cells.

Swift's `UUID` card identity is a natural number. The deck builder gives each card its creation index.

The Klondike code reads `card.suit`, but `Card.swift` has no such member. The model derives it with `Suits.SuitOf`: the first suit, in `Suit.allCases` order, whose symbol occurs in the face text.

`canDrop` refuses a red 6 on a red 7, because the colours must differ (GameView.swift:136-137).

## Model

| member | source | states |
|---|---|---|
| Numerals.ParseDecimalRoundTrip | Games/SKCard.swift:70-71 | For every 64-bit integer, Swift's `Int(String)` parse of `String(n)` gives back `n`. |
| Numerals.DigitsValueOfDigits | Games/Card.swift:31 | The decimal digits of a natural number read back to that number. |
| Numerals.ParseInt | Games/Card.swift:31 | Swift's `Int(String)`: an optional sign and at least one digit, nothing else; a result is always a 64-bit value. Its agreement with `String(n)` is `ParseDecimalRoundTrip`, and its nil cases are `ParseOverflow` and `ParseRejectsNonDigit`. |
| Numerals.ParseOverflow | Games/Card.swift:31 | The decimal text of a number outside 64 bits parses to nil. |
| Numerals.ParseRejectsNonDigit | Games/Card.swift:31 | Text with a non-digit anywhere after its first character parses to nil. |
| Cards.TrimSuitSymbols | Games/Card.swift:24-25 | The trimmed text is the face with a run of suit symbols removed from each end, and it neither starts nor ends with a suit symbol. |
| Cards.RankOfNumberFace | Games/Card.swift:22-31 | A face made of the decimal text of a 64-bit number followed by suit symbols has that number as its rank. |
| Cards.RankOfCourtFace | Games/Card.swift:26-30 | A, J, Q and K followed by suit symbols have ranks 1, 11, 12 and 13. |
| Cards.RankOfUnreadableFace | Games/Card.swift:31 | A rank text that is not A, J, Q or K and does not parse, the empty text included, ranks 0. |
| Cards.RankOfOverflowFace | Games/Card.swift:31 | The decimal text of a number beyond 64 bits, followed by suit symbols, ranks 0. |
| Cards.Rank | Games/Card.swift:22-33 | `rank`: the suit-trimmed face looked up as A, J, Q, K, else parsed, else 0. Defined without a contract; its meaning is stated by `RankOfCourtFace`, `RankOfNumberFace`, `RankOfUnreadableFace` and `RankOfOverflowFace`. |
| Cards.IsRed | Games/Card.swift:35-37 | `isRed`: the face contains a heart or a diamond. Defined without a contract; stated by `IsRedFace` and `Suits.CardColourMatchesSuit`. |
| Cards.IsRedFace | Games/Card.swift:35-37 | A face whose name has no suit symbol is red exactly when its symbols include a heart or a diamond. |
| Cards.DistinctIdsDistinctCards | Games/Card.swift:16-19 | Two cards with equal face and side but different identities are different cards, with equal rank and colour. |
| Cards.TurningKeepsFace | Games/Card.swift:19-37 | Turning a card over changes neither its rank nor its colour. |
| Cards.IdentitiesTurned | Games/GameView.swift:222-226 | Turning every card of a pile keeps the same cards. |
| Suits.SuitIndex | Games/Suit.swift:11-15 | Every suit appears in `allCases` exactly once, at the returned position. |
| Suits.FoundationPile.TopCard | Games/Suit.swift:24 | The top card is absent exactly when the pile is empty, and is otherwise its last card. |
| Suits.SuitOf | Games/GameView.swift:141 | A suit is found only when its symbol occurs in the face text; none is found only when no suit symbol occurs there. |
| Suits.SuitOfFace | Games/Suit.swift:11-15 | A rank name followed by a suit's raw value has that suit. |
| Suits.CardColourMatchesSuit | Games/Suit.swift:17 | A card's colour parsed from its face agrees with its suit's `isRed`. |
| Permutations.Shuffled | Games/GameView.swift:178 | A shuffle keeps the length and the multiset of the cards. |
| Permutations.ShuffledMembers | Games/SolitareDeck.swift:10-14 | A shuffle holds exactly the elements of what it shuffled. |
| KlondikeDeck.BuildDeck | Games/GameView.swift:196-208 | The deck built suit by suit, then rank by rank, is `FullDeck`, all cards face down. |
| KlondikeDeck.FullDeckFaces | Games/GameView.swift:196-208 | Card `i` of the deck has suit `allCases[i / 13]` and rank `i % 13 + 1`, parsed back from its face text. |
| KlondikeDeck.FullDeckExactlyOnce | Games/GameView.swift:201-205 | Each suit and rank from 1 to 13 occurs exactly once, at position `13 * suit + rank - 1`. |
| KlondikeDeck.FullDeckDistinct | Games/GameView.swift:203 | No two cards of the deck share a face text. |
| KlondikeDeck.DealKlondike | Games/GameView.swift:180-193 | Column `col` receives the next `col + 1` cards of the shuffled deck, only its last face up, and the remaining 24 cards form the stock. |
| KlondikeDeck.DealtPrefix | Games/GameView.swift:183-190 | Ignoring which side is up, the first `c` columns are the first `Dealt(c)` cards of the shuffled deck. |
| KlondikeDeck.DealKeepsDeck | Games/GameView.swift:176-194 | The 28 column cards and the 24 stock cards are exactly the cards of the shuffled deck. |
| KlondikeGame.DealtIdentities | Games/GameView.swift:176-194 | Dealing a shuffle of a deck keeps exactly the deck's cards. |
| KlondikeGame.InitialTable | Games/GameView.swift:176-214 | The deal of a shuffled face-down deck gives seven stacked columns of 1 to 7 cards with only the last face up, and a face-down stock of 24. The waste and foundations are empty, and the deck's cards are all on the table. |
| KlondikeGame.Game.constructor | Games/GameView.swift:210-214 | A new game starts from such an opening table of the full deck, with one foundation per suit in `allCases` order. |
| KlondikeRules.FoundationIndex | Games/GameView.swift:22-25 | The index found holds a pile of that suit; none is found exactly when no pile has that suit. |
| KlondikeRules.Expose | Games/GameView.swift:125-128 | Only the last card changes, and it ends face up; the cards are the same. |
| KlondikeRules.CanDrop | Games/GameView.swift:132-138 | `canDrop`, defined without a contract; its three cases are stated in both directions by `CanDropCases`, and for deck cards by `DeckCardOnEmpty` and `DeckCardOnCard`. |
| KlondikeRules.Drop | Games/GameView.swift:114-130 | `handleDrop` on the piles, defined without a contract; stated by `DropRefused`, `DropMoves`, `MoveRunEffect` and `DropKeepsStacked`, and tied to the screen by `Game.HandleDrop`. |
| KlondikeRules.CanDropCases | Games/GameView.swift:132-138 | An empty run is refused. On an empty column only a King is accepted. Otherwise a card exactly one rank below and of the other colour is accepted, and only such a card. |
| KlondikeRules.DropRefused | Games/GameView.swift:117-122 | A drop with no target, onto its own column, or one `canDrop` refuses leaves the table unchanged. |
| KlondikeRules.MoveRunEffect | Games/GameView.swift:124-129 | The origin loses its last `|run|` cards and has its new last card exposed; the target gains the run; other columns stay. |
| KlondikeRules.MoveRunKeepsCards | Games/GameView.swift:124-129 | Moving the origin's own last cards keeps the tableau's cards. |
| KlondikeRules.DropMoves | Games/GameView.swift:121-129 | An accepted drop keeps stock, waste and foundations. It keeps every card on the table when the run is the origin's own last cards. |
| KlondikeRules.DropKeepsStacked | Games/GameView.swift:124-129 | Dropping a face-up run keeps every column face-down cards under face-up ones. |
| KlondikeGame.Game.HandleDrop | Games/GameView.swift:114-130 | The piles after the handler are `Drop` of the piles before it. |
| KlondikeRules.CanPlaceOnFoundation | Games/GameView.swift:161-167 | `canPlaceOnFoundation`, defined without a contract; stated by `CanPlaceCases` and, for deck cards, `DeckCardPlace`. |
| KlondikeRules.DoubleTap | Games/GameView.swift:140-158 | `handleDoubleTap` on the piles, defined without a contract; stated by `DoubleTapRefused`, `DoubleTapMoves`, `PopEffect`, `DoubleTapKeepsAscending` and `DoubleTapKeepsStacked`. |
| KlondikeRules.CanPlaceCases | Games/GameView.swift:161-167 | An empty foundation takes exactly an Ace; otherwise exactly the rank one above its top card. |
| KlondikeRules.TapTargetExact | Games/GameView.swift:140-145 | No foundation is found exactly when no pile of the card's suit accepts it. |
| KlondikeRules.DoubleTapRefused | Games/GameView.swift:141-145 | A tap that no foundation accepts changes nothing. |
| KlondikeRules.DoubleTapMoves | Games/GameView.swift:147-157 | An accepted tap removes the column's last card, exposes the new last one and appends the tapped card to its suit's foundation. It keeps every card when the tapped card is that last card. |
| KlondikeRules.PopEffect | Games/GameView.swift:148-154 | The column loses its last card and exposes the new one; other columns stay. |
| KlondikeRules.MoveLastToPile | Games/GameView.swift:147-157 | Moving a column's last card onto a foundation keeps every card on the table. |
| KlondikeRules.DoubleTapKeepsAscending | Games/GameView.swift:157-167 | Every foundation stays built from the Ace up in its own suit. |
| KlondikeRules.DoubleTapKeepsStacked | Games/GameView.swift:148-154 | A double tap keeps every column stacked. |
| KlondikeGame.Game.HandleDoubleTap | Games/GameView.swift:140-158 | The foundations have distinct suits, and the piles after the handler are `DoubleTap` of the piles before it. |
| KlondikeRules.DealStock | Games/GameView.swift:219-243 | `dealFromStock` on the piles, defined without a contract; stated by `DealStockDraws`, `DealStockRecycles`, `DealStockKeepsCards`, `DealStockKeepsFaces` and `RecycleRedealsTop`. |
| KlondikeRules.DealStockDraws | Games/GameView.swift:231-242 | With a stock, the last `min(3, |stock|)` stock cards move onto the waste face up, in order. |
| KlondikeRules.DealStockRecycles | Games/GameView.swift:220-228 | With an empty stock, the waste, turned face down in the same order, becomes the stock and the waste empties. |
| KlondikeRules.DealStockKeepsCards | Games/GameView.swift:219-243 | Dealing or recycling keeps every card on the table. |
| KlondikeRules.DealStockKeepsFaces | Games/GameView.swift:222-242 | The stock stays face down and the waste face up. |
| KlondikeRules.RecycleRedealsTop | Games/GameView.swift:219-243 | After a recycle, the next deal brings back the last three cards of the old waste, face up. |
| KlondikeGame.Game.DealFromStock | Games/GameView.swift:219-243 | The piles after the handler are `DealStock` of the piles before it. |
| KlondikeRules.DeckCardOnEmpty | Games/GameView.swift:134 | A run led by a deck card can go onto an empty column exactly when that card is a King. |
| KlondikeRules.DeckCardOnCard | Games/GameView.swift:136-137 | A deck card goes onto another exactly when it is one rank below and of the other suit colour. |
| KlondikeRules.DeckCardPlace | Games/GameView.swift:161-167 | A deck card starts a foundation exactly when it is an Ace, and goes onto another exactly when one rank above. |
| LegacyCard.ImageNameCases | Games/SKCard.swift:51-75 | A suitless record shows the card back. Any other shows its rank name, a space and the suit's raw value, with A, J, Q and K for 1, 11, 12 and 13 and decimal otherwise. |
| LegacyCard.ImageName | Games/SKCard.swift:51-75 | `getCardImageName`, defined without a contract; stated by `ImageNameCases`, `ImageNameIdentifiesCard` and `FaceIsNotBack`. |
| LegacyCard.RankNameInjective | Games/SKCard.swift:56-72 | Different 64-bit numbers get different rank names. |
| LegacyCard.ImageNameIdentifiesCard | Games/SKCard.swift:56-74 | Two records with a suit share an image name exactly when they share suit and number. |
| LegacyCard.FaceIsNotBack | Games/SKCard.swift:52-74 | No record with a suit is shown as the card back. |
| LegacyCard.SKCard.constructor | Games/SKCard.swift:21-31 | The texture is the back when covered and the image name otherwise. The fill is white and the node is untapped. |
| LegacyCard.SKCard.Tap | Games/SKCard.swift:41-49 | The tap flag toggles and the fill follows it; nothing else changes. |
| LegacyDeck.CardsWellFormed | Games/SolitareDeck.swift:17-77 | The table holds 52 records, each with a real suit and a number from 1 to 13; hearts and diamonds are red, the rest black. |
| LegacyDeck.CardsExactlyOnce | Games/SolitareDeck.swift:17-77 | Each suit and number from 1 to 13 has exactly one record. |
| LegacyDeck.ShuffledCards | Games/SolitareDeck.swift:10-14 | The shuffled copy has the table's 52 records, each as often. |
| LinkedList.ListNode.constructor | Games/GLinkedList.swift:49-52 | A new node holds its value and links to nothing. |
| LinkedList.GLinkedList.constructor | Games/GLinkedList.swift:10-12 | A new list is empty. |
| LinkedList.GLinkedList.Append | Games/GLinkedList.swift:15-23 | The value is added at the end of the walk from `head`, and the earlier values are kept. |
| LinkedList.GLinkedList.RemoveAll | Games/GLinkedList.swift:26-29 | The list becomes empty. |
| LinkedList.GLinkedList.PrintList | Games/GLinkedList.swift:32-38 | The walk from `head` along `next` meets exactly the list's values, in order. |
| LinkedList.GLinkedList.MakeIterator | Games/GLinkedList.swift:40-42 | The iterator starts at `head` with all the list's nodes to visit. |
| LinkedList.GLinkedListIterator.Next | Games/GLinkedList.swift:62-65 | It returns the current value and moves one node on; past the end it returns nil and stays. |
| Minesweeper.Neighbours | Games/MineSweeperGameView.swift:189-194 | At most eight distinct board cells, none of them the cell itself. |
| Minesweeper.NeighboursExact | Games/MineSweeperGameView.swift:189-194 | A cell is a neighbour exactly when it is on the board, different and at most one row and column away. |
| Minesweeper.NeighboursSymmetric | Games/MineSweeperGameView.swift:189-194 | Two board cells are neighbours of each other or of neither. |
| Minesweeper.KeepNeighboursExact | Games/MineSweeperGameView.swift:193 | The filter keeps exactly the on-board cells other than the centre, without repeating any. |
| Minesweeper.CountInIsSize | Games/MineSweeperGameView.swift:149-150 | Over cells without repeats, the count is the number of distinct mined cells among them. |
| Minesweeper.MinesAmongCounts | Games/MineSweeperGameView.swift:149-150 | The count read from the board's tiles is the count of the mine set. |
| Minesweeper.Clamped | Games/MineSweeperGameView.swift:21-25 | The result lies in the range; it is the value itself inside it, and the nearer bound outside. |
| Minesweeper.ClampedIdempotent | Games/MineSweeperGameView.swift:21-25 | Clamping twice is clamping once. |
| Minesweeper.AllCells | Games/MineSweeperGameView.swift:185-187 | The cell set is exactly the on-board cells. |
| Minesweeper.LayMines | Games/MineSweeperGameView.swift:136-143 | Exactly `mineCount` distinct cells, all drawn from the picks, get mines, and nothing is revealed or flagged. |
| Minesweeper.CountNeighbours | Games/MineSweeperGameView.swift:145-152 | Every tile without a mine ends up holding the number of its mined neighbours, and the mines stay. |
| Minesweeper.NewBoard | Games/MineSweeperGameView.swift:132-153 | After both passes the board satisfies the game invariant with every cell hidden and none flagged. |
| Minesweeper.Game.constructor | Games/MineSweeperGameView.swift:37-39 | The screen starts, through `newGame` on appearing, with a fresh board and neither loss nor win. |
| Minesweeper.Game.NewGame | Games/MineSweeperGameView.swift:132-153 | Both flags are cleared. The board has `mineCount` mines, drawn from the picks, and nothing revealed or flagged. |
| Minesweeper.RevealTile | Games/MineSweeperGameView.swift:161-162 | Revealing a hidden, unflagged tile keeps the invariant; the game is over exactly when it is a mine. A safe tile showing zero has no mined neighbour. |
| Minesweeper.Game.Reveal | Games/MineSweeperGameView.swift:155-170 | Off the board, on a revealed or flagged tile, or after the game ends, nothing happens. A mine ends the game and changes nothing else. A safe tile with neighbouring mines is revealed alone. A safe tile showing zero opens a flood that reveals no mine and clears round every zero tile it opens. Every tile revealed lies at the end of a flood path from the tile, through revealed tiles showing zero. Only `isRevealed` changes. |
| Minesweeper.Game.Flood | Games/MineSweeperGameView.swift:164-167 | Revealing the neighbours of a zero tile in turn opens no mine and leaves every neighbour revealed or flagged. Every tile it reveals lies at the end of a flood path from one of those neighbours. |
| Minesweeper.FloodSafeChain | Games/MineSweeperGameView.swift:166 | Two safe flood stretches one after the other make one. |
| Minesweeper.FloodFrom | Games/MineSweeperGameView.swift:161-167 | Revealing a tile and then flooding from it is a safe flood. |
| Minesweeper.RevealOne | Games/MineSweeperGameView.swift:161 | Revealing one tile reveals nothing but the path of that tile alone. |
| Minesweeper.FloodStep | Games/MineSweeperGameView.swift:166 | Each turn of the neighbour loop reveals only tiles on flood paths from the neighbour it reveals. |
| Minesweeper.RevealFlood | Games/MineSweeperGameView.swift:161-167 | Revealing a zero tile and then flooding from its neighbours reveals only tiles on flood paths from that tile. |
| Minesweeper.Game.CheckWin | Games/MineSweeperGameView.swift:179-182 | The win is set exactly when it was already set or every unrevealed tile is a mine; nothing else changes. |
| Minesweeper.SafeRevealedKept | Games/MineSweeperGameView.swift:179-182 | Revealing more never undoes a won position. |
| Minesweeper.Game.Flag | Games/MineSweeperGameView.swift:172-177 | On an on-board hidden tile while the game goes on, the flag toggles and nothing else changes; otherwise nothing changes. |
| Minesweeper.ToggleFlag | Games/MineSweeperGameView.swift:172-177 | Toggling the flag of a hidden tile keeps the invariant. The flag counter goes down when a flag is planted and up when one is lifted. |
| Minesweeper.FlagCount | Games/MineSweeperGameView.swift:196-198 | Toggling a tile adds it to the flagged cells or removes it from them. |
| Minesweeper.FlagTwice | Games/MineSweeperGameView.swift:176 | Toggling a flag twice gives back the board. |
| Minesweeper.FlagsRemaining | Games/MineSweeperGameView.swift:196-198 | The counter is at most `mineCount`, and negative exactly when more tiles are flagged than there are mines. |

## Left out

- SwiftUI views, layout and gestures (`body`, `calcCardWidth`, `tileView`, `zoom`, the win and lose screens, `StockView`, `CardColumnView`, `FoundationView`): they draw the state and hold no game logic.
- Drop-target selection in `handleDrop`: picking the column whose frame's `midX` is nearest the drop point is geometry on floating-point frames. The chosen column, or none, is an input.
- `deck.shuffle()`, `shuffledDeck.shuffle()` and `Int.random`: a permutation of positions, and the sequence of drawn cells, stand in for the random generator.
- Minesweeper.LayMines: the random loop of `newGame` is assumed to draw at least `mineCount` distinct cells. A generator that never did so would loop forever in the Swift code.
- `UUID` identities: a card's identity is its creation index, and a tile has none.
- `SKCard`: `move`, `printSelf`, `nextCard`, `height` and the `SKShapeNode` child are not modelled. The `covered` parameter of `init` is never stored, so the field stays `false`, as in the source.
- LinkedList.GLinkedList.PrintList: it returns the values it would print instead of printing them.
- Minesweeper.Clamped: it works on exact reals, not `CGFloat` floating point.
- `GameScene.swift`, `SKColumn.swift`, `MockSolitaire.swift`, `ColumnFrameKey.swift` and the other context files are not part of this model.
- Swift's trapping integer arithmetic and grapheme-cluster string comparison: `targetTop.rank - 1` and `top.rank + 1` would trap for a rank of `Int.min` or `Int.max`, and Swift compares strings by grapheme cluster where the model compares Unicode scalars. Neither arises for the faces `buildDeck` makes, whose ranks are 1 to 13 and whose characters are single scalars.
- Scoring, undo, a solitaire win check and grouped recycling of the waste: the code has none of them.
- KlondikeGame.Game.HandleDoubleTap: `handleDoubleTap` does not check that the tapped card is its column's last card, and the model keeps that. Card conservation (`DoubleTapMoves`) is stated for the case where it is.
- Minesweeper: `newGame`'s two passes are the methods `LayMines` and `CountNeighbours`, and `reveal`'s neighbour loop is the method `Flood`. Each is called where the Swift code runs it.
