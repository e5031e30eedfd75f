/**
 * The Minesweeper screen (MineSweeperGameView.swift): a 16 by 16 board of
 * tiles updated in place, mine placement, the neighbour counts, the
 * flood-filling `reveal`, flag toggling, the win check and the flag
 * counter. The random mine positions are an input: the sequence of cells the
 * generator would draw.
 */
module Minesweeper {
  const Rows: int := 16
  const Cols: int := 16
  const MineCount: int := 10

  /** A tile of the board; its `UUID` identity is not modelled. */
  datatype Tile = Tile(isMine: bool, isRevealed: bool, isFlagged: bool, adjacent: int)

  /** `Tile()`: no mine, hidden, unflagged, no neighbouring mines. */
  const BlankTile: Tile := Tile(false, false, false, 0)

  /** A board position as (row, column). */
  type Cell = (int, int)

  /** `inBounds`: the cell lies on the board. */
  predicate InBounds(p: Cell) {
    0 <= p.0 < Rows && 0 <= p.1 < Cols
  }

  /** `q` is at most one row and one column away from `p`, or is `p`. */
  predicate Near(p: Cell, q: Cell) {
    -1 <= q.0 - p.0 <= 1 && -1 <= q.1 - p.1 <= 1
  }

  predicate NoDuplicates(s: seq<Cell>) {
    forall i, j :: 0 <= i < j < |s| ==> s[i] != s[j]
  }

  /** The 3 by 3 square around `p`: row offset -1 to 1 outside, column offset inside. */
  function Square(p: Cell): seq<Cell> {
    var (r, c) := p;
    [(r - 1, c - 1), (r - 1, c), (r - 1, c + 1),
     (r, c - 1), (r, c), (r, c + 1),
     (r + 1, c - 1), (r + 1, c), (r + 1, c + 1)]
  }

  /** The square holds nine different cells, exactly those near `p`. */
  lemma SquareExact(p: Cell)
    ensures |Square(p)| == 9 && NoDuplicates(Square(p))
    ensures forall q: Cell :: q in Square(p) <==> Near(p, q)
  {
    forall q: Cell | Near(p, q) ensures q in Square(p) {
      assert q.0 == p.0 - 1 || q.0 == p.0 || q.0 == p.0 + 1;
      assert q.1 == p.1 - 1 || q.1 == p.1 || q.1 == p.1 + 1;
    }
  }

  /** The cells of `cells` other than `p` that lie on the board, in order. */
  function KeepNeighbours(cells: seq<Cell>, p: Cell): seq<Cell> {
    if cells == [] then []
    else if cells[0] != p && InBounds(cells[0]) then
      [cells[0]] + KeepNeighbours(cells[1..], p)
    else KeepNeighbours(cells[1..], p)
  }

  /**
   * The filter keeps exactly the on-board cells other than `p`, drops `p`
   * when it is there, and keeps cells apart that were apart.
   */
  lemma {:induction false} KeepNeighboursExact(cells: seq<Cell>, p: Cell)
    ensures |KeepNeighbours(cells, p)| <= |cells|
    ensures p in cells ==> |KeepNeighbours(cells, p)| < |cells|
    ensures forall q: Cell :: q in KeepNeighbours(cells, p) <==> q in cells && q != p && InBounds(q)
    ensures NoDuplicates(cells) ==> NoDuplicates(KeepNeighbours(cells, p))
  {
    if cells != [] {
      KeepNeighboursExact(cells[1..], p);
      assert forall q: Cell :: q in cells <==> q == cells[0] || q in cells[1..];
      assert NoDuplicates(cells) ==> cells[0] !in cells[1..];
    }
  }

  /**
   * `neighbours(of:_:)`: the square around `p` without `p` itself and
   * without the cells off the board: at most eight different board cells.
   */
  function Neighbours(p: Cell): (ns: seq<Cell>)
    ensures |ns| <= 8 && NoDuplicates(ns)
    ensures forall q: Cell :: q in ns ==> InBounds(q) && q != p
  {
    SquareExact(p);
    KeepNeighboursExact(Square(p), p);
    KeepNeighbours(Square(p), p)
  }

  /** A cell's neighbours are exactly the board cells next to it. */
  lemma NeighboursExact(p: Cell, q: Cell)
    ensures q in Neighbours(p) <==> InBounds(q) && q != p && Near(p, q)
  {
    SquareExact(p);
    KeepNeighboursExact(Square(p), p);
  }

  /** Being neighbours is symmetric. */
  lemma NeighboursSymmetric(a: Cell, b: Cell)
    requires InBounds(a) && InBounds(b)
    ensures a in Neighbours(b) <==> b in Neighbours(a)
  {
    NeighboursExact(b, a);
    NeighboursExact(a, b);
  }

  /** How many cells of `ns` are in `mines`. */
  function CountIn(ns: seq<Cell>, mines: set<Cell>): (n: nat)
    ensures n <= |ns|
    ensures n == 0 <==> forall i :: 0 <= i < |ns| ==> ns[i] !in mines
  {
    if ns == [] then 0
    else (if ns[0] in mines then 1 else 0) + CountIn(ns[1..], mines)
  }

  /** Over cells without repetition, `CountIn` is the size of the set of listed mines. */
  lemma {:induction false} CountInIsSize(ns: seq<Cell>, mines: set<Cell>)
    requires NoDuplicates(ns)
    ensures CountIn(ns, mines) == |set p | p in ns && p in mines|
  {
    if ns != [] {
      var rest := ns[1..];
      CountInIsSize(rest, mines);
      var tail := set p | p in rest && p in mines;
      var all := set p | p in ns && p in mines;
      assert ns[0] !in rest;
      if ns[0] in mines {
        assert all == tail + {ns[0]};
      } else {
        assert all == tail;
      }
    }
  }

  /** A count of zero means none of the cells is in `mines`. */
  lemma NoneCounted(ns: seq<Cell>, mines: set<Cell>)
    requires CountIn(ns, mines) == 0
    ensures forall p: Cell :: p in ns ==> p !in mines
  {
    forall p: Cell | p in ns ensures p !in mines {
      var i :| 0 <= i < |ns| && ns[i] == p;
    }
  }

  /** A subset is no larger than its superset. */
  lemma {:induction false} SubsetSize<T>(a: set<T>, b: set<T>)
    requires a <= b
    ensures |a| <= |b|
  {
    if a != {} {
      var x :| x in a;
      SubsetSize(a - {x}, b - {x});
    }
  }

  /** `clamped(to:)`, as the zoom gesture uses it, on real numbers. */
  function Clamped(x: real, lo: real, hi: real): (y: real)
    requires lo <= hi
    ensures lo <= y <= hi
    ensures lo <= x <= hi ==> y == x
    ensures x < lo ==> y == lo
    ensures hi < x ==> y == hi
  {
    var up := if x < lo then lo else x;
    if hi < up then hi else up
  }

  /** Clamping a clamped value changes nothing. */
  lemma ClampedIdempotent(x: real, lo: real, hi: real)
    requires lo <= hi
    ensures Clamped(Clamped(x, lo, hi), lo, hi) == Clamped(x, lo, hi)
  {
  }

  /**
   * The board as the Swift value `[[Tile]]`: `Rows` rows of `Cols` tiles.
   * The screen reassigns it tile by tile, which `Put` models.
   */
  type Board = seq<seq<Tile>>

  predicate Shaped(b: Board) {
    |b| == Rows && forall r :: 0 <= r < Rows ==> |b[r]| == Cols
  }

  function At(b: Board, p: Cell): Tile
    requires Shaped(b) && InBounds(p)
  {
    b[p.0][p.1]
  }

  /** `board[r][c] = t`: that tile replaced, every other tile kept. */
  function Put(b: Board, p: Cell, t: Tile): (b': Board)
    requires Shaped(b) && InBounds(p)
    ensures Shaped(b')
    ensures forall q: Cell :: InBounds(q) ==> At(b', q) == if q == p then t else At(b, q)
  {
    b[p.0 := b[p.0][p.1 := t]]
  }

  /** Every board cell. */
  function AllCells(): (cells: set<Cell>)
    ensures forall p: Cell :: p in cells <==> InBounds(p)
  {
    var cells := set r, c | 0 <= r < Rows && 0 <= c < Cols :: (r, c);
    assert forall p: Cell :: InBounds(p) ==> p in cells by {
      forall p: Cell | InBounds(p) ensures p in cells {
        assert p == (p.0, p.1);
      }
    }
    cells
  }

  /** `mines` is the set of mined cells. */
  ghost predicate MinesAgree(b: Board, mines: set<Cell>)
    requires Shaped(b)
  {
    (forall p: Cell :: p in mines ==> InBounds(p)) &&
    forall p: Cell :: InBounds(p) ==> (At(b, p).isMine <==> p in mines)
  }

  /** `hidden` is the set of unrevealed cells. */
  ghost predicate HiddenAgree(b: Board, hidden: set<Cell>)
    requires Shaped(b)
  {
    (forall p: Cell :: p in hidden ==> InBounds(p)) &&
    forall p: Cell :: InBounds(p) ==> (p in hidden <==> !At(b, p).isRevealed)
  }

  /** An on-board tile without a mine holds the number of its neighbours that are mines. */
  ghost predicate Tallied(b: Board, mines: set<Cell>, p: Cell)
    requires Shaped(b)
  {
    InBounds(p) && !At(b, p).isMine ==> At(b, p).adjacent == CountIn(Neighbours(p), mines)
  }

  ghost predicate CountsAgree(b: Board, mines: set<Cell>)
    requires Shaped(b)
  {
    forall p: Cell :: Tallied(b, mines, p)
  }

  /** Tiles before row `r`, and in row `r` before column `c`, are tallied. */
  ghost predicate TalliedBefore(b: Board, mines: set<Cell>, r: int, c: int)
    requires Shaped(b)
  {
    forall p: Cell :: p.0 < r || (p.0 == r && p.1 < c) ==> Tallied(b, mines, p)
  }

  /** Apart from the counts, a board fresh from mine placement: mines on `mines`, nothing revealed or flagged. */
  ghost predicate Untouched(b: Board, mines: set<Cell>)
    requires Shaped(b)
  {
    (forall p: Cell :: p in mines ==> InBounds(p)) &&
    forall p: Cell :: InBounds(p) ==> At(b, p).(adjacent := 0) == BlankTile.(isMine := p in mines)
  }

  /**
   * A 16 by 16 board with `mineCount` mines, every tile without a mine
   * counting the mines among its neighbours, no tile both revealed and
   * flagged; the game is over exactly when a mine is revealed, and a win is
   * only declared once every hidden tile is a mine.
   */
  ghost predicate Playable(b: Board, mines: set<Cell>, hidden: set<Cell>, gameOver: bool, win: bool) {
    Shaped(b) &&
    MinesAgree(b, mines) && |mines| == MineCount &&
    HiddenAgree(b, hidden) &&
    CountsAgree(b, mines) &&
    NoRevealedFlag(b) &&
    (gameOver <==> MineRevealed(b)) &&
    (win ==> AllSafeRevealed(b))
  }

  /** Placing one more mine on a cell without one. */
  lemma PlaceMine(b: Board, mines: set<Cell>, p: Cell)
    requires Shaped(b) && Untouched(b, mines) && InBounds(p) && !At(b, p).isMine
    ensures Untouched(Put(b, p, At(b, p).(isMine := true)), mines + {p})
  {
  }

  /** Storing the count of one tile without a mine. */
  lemma StoreCount(b: Board, mines: set<Cell>, r: int, c: int)
    requires Shaped(b) && Untouched(b, mines) && TalliedBefore(b, mines, r, c)
    requires InBounds((r, c)) && (r, c) !in mines
    ensures var b' := Put(b, (r, c), At(b, (r, c)).(adjacent := CountIn(Neighbours((r, c)), mines)));
            Untouched(b', mines) && TalliedBefore(b', mines, r, c + 1)
  {
    var b' := Put(b, (r, c), At(b, (r, c)).(adjacent := CountIn(Neighbours((r, c)), mines)));
    forall p: Cell | p.0 < r || (p.0 == r && p.1 < c + 1) ensures Tallied(b', mines, p) {
      assert Tallied(b, mines, p) || p == (r, c);
    }
  }

  /** A tile with a mine needs no count. */
  lemma SkipMine(b: Board, mines: set<Cell>, r: int, c: int)
    requires Shaped(b) && Untouched(b, mines) && TalliedBefore(b, mines, r, c)
    requires InBounds((r, c)) && (r, c) in mines
    ensures TalliedBefore(b, mines, r, c + 1)
  {
    assert At(b, (r, c)).isMine;
    assert Tallied(b, mines, (r, c));
    forall p: Cell | p.0 < r || (p.0 == r && p.1 < c + 1) ensures Tallied(b, mines, p) {
      if p != (r, c) {
        assert p.0 < r || (p.0 == r && p.1 < c);
      }
    }
  }

  /**
   * The mine-laying loop of `newGame`: on a blank board, take the drawn
   * cells in turn, skip one already mined, and mine it otherwise, until
   * `mineCount` mines are down. `laid` is the set of mined cells.
   */
  method LayMines(picks: seq<Cell>) returns (b: Board, ghost laid: set<Cell>)
    requires forall i :: 0 <= i < |picks| ==> InBounds(picks[i])
    requires |set i | 0 <= i < |picks| :: picks[i]| >= MineCount
    ensures Shaped(b) && Untouched(b, laid)
    ensures |laid| == MineCount && laid <= set i | 0 <= i < |picks| :: picks[i]
  {
    b := seq(Rows, _ => seq(Cols, _ => BlankTile));
    var placed := 0;
    var k := 0;
    laid := {};
    while placed < MineCount
      invariant Shaped(b) && Untouched(b, laid)
      invariant 0 <= k <= |picks| && placed <= MineCount
      invariant laid == set i | 0 <= i < k :: picks[i]
      invariant laid <= set i | 0 <= i < |picks| :: picks[i]
      invariant placed == |laid|
      decreases |picks| - k
    {
      var (r, c) := picks[k];
      assert (set i | 0 <= i < k + 1 :: picks[i]) == laid + {(r, c)};
      k := k + 1;
      if b[r][c].isMine {
        continue;
      }
      PlaceMine(b, laid, (r, c));
      b := Put(b, (r, c), b[r][c].(isMine := true));
      placed := placed + 1;
      laid := laid + {(r, c)};
    }
  }

  /**
   * The counting pass of `newGame`: row by row, each tile without a mine
   * stores how many of its neighbours hold one.
   */
  method CountNeighbours(b0: Board, ghost laid: set<Cell>) returns (b: Board)
    requires Shaped(b0) && Untouched(b0, laid)
    ensures Shaped(b) && Untouched(b, laid) && TalliedBefore(b, laid, Rows, 0)
  {
    b := b0;
    for r := 0 to Rows
      invariant Shaped(b) && Untouched(b, laid) && TalliedBefore(b, laid, r, 0)
    {
      for c := 0 to Cols
        invariant Shaped(b) && Untouched(b, laid) && TalliedBefore(b, laid, r, c)
      {
        if !b[r][c].isMine {
          var ns := Neighbours((r, c));
          MinesAmongCounts(b, ns, laid);
          StoreCount(b, laid, r, c);
          b := Put(b, (r, c), b[r][c].(adjacent := MinesAmong(b, ns)));
        } else {
          SkipMine(b, laid, r, c);
        }
      }
    }
  }

  /** After the two passes of `newGame` the board satisfies the game's invariant with nothing revealed. */
  lemma NewBoard(b: Board, mines: set<Cell>)
    requires Shaped(b) && Untouched(b, mines) && TalliedBefore(b, mines, Rows, 0) && |mines| == MineCount
    ensures Playable(b, mines, AllCells(), false, false)
    ensures forall p: Cell :: InBounds(p) ==> !At(b, p).isRevealed && !At(b, p).isFlagged
  {
    forall p: Cell ensures Tallied(b, mines, p) {
      if InBounds(p) {
        assert p.0 < Rows;
      }
    }
  }

  ghost predicate NoRevealedFlag(b: Board)
    requires Shaped(b)
  {
    forall p: Cell :: InBounds(p) ==> !(At(b, p).isRevealed && At(b, p).isFlagged)
  }

  ghost predicate MineRevealed(b: Board)
    requires Shaped(b)
  {
    exists p: Cell :: InBounds(p) && At(b, p).isMine && At(b, p).isRevealed
  }

  /** The `checkWin` test: every unrevealed tile is a mine. */
  predicate AllSafeRevealed(b: Board)
    requires Shaped(b)
  {
    forall p: Cell :: p in AllCells() && !At(b, p).isRevealed ==> At(b, p).isMine
  }

  /** The cells carrying a flag. */
  function Flagged(b: Board): set<Cell>
    requires Shaped(b)
  {
    set p | p in AllCells() && At(b, p).isFlagged
  }

  /** `flagsRemaining`: the mine count less the flags placed, never clamped at zero. */
  function FlagsRemaining(b: Board): (n: int)
    requires Shaped(b)
    ensures n <= MineCount
    ensures n < 0 <==> |Flagged(b)| > MineCount
  {
    MineCount - |Flagged(b)|
  }

  /** The count the adjacency pass stores: how many of the cells `ns` hold a mine. */
  function MinesAmong(b: Board, ns: seq<Cell>): nat
    requires Shaped(b) && forall i :: 0 <= i < |ns| ==> InBounds(ns[i])
  {
    if ns == [] then 0
    else (if At(b, ns[0]).isMine then 1 else 0) + MinesAmong(b, ns[1..])
  }

  /** On a board whose mines are `mines`, the stored count is `CountIn`. */
  lemma {:induction false} MinesAmongCounts(b: Board, ns: seq<Cell>, mines: set<Cell>)
    requires Shaped(b) && forall i :: 0 <= i < |ns| ==> InBounds(ns[i])
    requires MinesAgree(b, mines)
    ensures MinesAmong(b, ns) == CountIn(ns, mines)
  {
    if ns != [] {
      MinesAmongCounts(b, ns[1..], mines);
    }
  }

  /** Each neighbour of `p` is revealed or flagged. */
  ghost predicate Cleared(b: Board, p: Cell)
    requires Shaped(b)
  {
    forall q: Cell :: q in Neighbours(p) ==> At(b, q).isRevealed || At(b, q).isFlagged
  }

  /** From `b0` to `b1` tiles only get revealed: mines, flags and counts stay. */
  ghost predicate Opened(b0: Board, b1: Board)
    requires Shaped(b0) && Shaped(b1)
  {
    forall p: Cell :: InBounds(p) ==>
      At(b1, p) == At(b0, p).(isRevealed := At(b1, p).isRevealed) &&
      (At(b0, p).isRevealed ==> At(b1, p).isRevealed)
  }

  /**
   * Every tile revealed between `b0` and `b1` is free of mines, and when it
   * has no neighbouring mine its neighbours are all revealed or flagged.
   */
  ghost predicate FloodSafe(b0: Board, b1: Board)
    requires Shaped(b0) && Shaped(b1)
  {
    forall p: Cell :: InBounds(p) && !At(b0, p).isRevealed && At(b1, p).isRevealed ==>
      !At(b1, p).isMine && (At(b1, p).adjacent == 0 ==> Cleared(b1, p))
  }

  /** Revealing more keeps a tile's neighbours revealed or flagged. */
  lemma ClearedKept(b1: Board, b2: Board, p: Cell)
    requires Shaped(b1) && Shaped(b2) && Opened(b1, b2) && Cleared(b1, p)
    ensures Cleared(b2, p)
  {
    forall q: Cell | q in Neighbours(p) ensures At(b2, q).isRevealed || At(b2, q).isFlagged {
      assert InBounds(q);
    }
  }

  /** Two stretches of safe flooding make one. */
  lemma FloodSafeChain(b0: Board, b1: Board, b2: Board)
    requires Shaped(b0) && Shaped(b1) && Shaped(b2)
    requires Opened(b1, b2) && FloodSafe(b0, b1) && FloodSafe(b1, b2)
    ensures FloodSafe(b0, b2)
  {
    forall p: Cell | InBounds(p) && !At(b0, p).isRevealed && At(b2, p).isRevealed
      ensures !At(b2, p).isMine && (At(b2, p).adjacent == 0 ==> Cleared(b2, p))
    {
      if At(b1, p).isRevealed {
        if At(b2, p).adjacent == 0 {
          ClearedKept(b1, b2, p);
        }
      }
    }
  }

  /** Revealing more cannot undo a won position. */
  lemma SafeRevealedKept(b1: Board, b2: Board)
    requires Shaped(b1) && Shaped(b2) && Opened(b1, b2) && AllSafeRevealed(b1)
    ensures AllSafeRevealed(b2)
  {
    forall p: Cell | p in AllCells() && !At(b2, p).isRevealed ensures At(b2, p).isMine {
      assert At(b1, p).isMine;
    }
  }

  /** Toggling a tile's flag twice gives back the board. */
  lemma FlagTwice(b: Board, p: Cell)
    requires Shaped(b) && InBounds(p)
    ensures var t := At(b, p);
            var b1 := Put(b, p, t.(isFlagged := !t.isFlagged));
            Put(b1, p, At(b1, p).(isFlagged := !At(b1, p).isFlagged)) == b
  {
    var t := At(b, p);
    var b1 := Put(b, p, t.(isFlagged := !t.isFlagged));
    var b2 := Put(b1, p, At(b1, p).(isFlagged := !At(b1, p).isFlagged));
    forall r | 0 <= r < Rows ensures b2[r] == b[r] {
      forall c | 0 <= c < Cols ensures b2[r][c] == b[r][c] {
        assert At(b2, (r, c)) == At(b, (r, c));
      }
    }
  }

  /**
   * Toggling the flag of a hidden tile keeps the game's invariant and moves
   * the flag counter by one: down when a flag is planted, up when one is
   * lifted.
   */
  lemma ToggleFlag(b: Board, mines: set<Cell>, hidden: set<Cell>, gameOver: bool, win: bool, p: Cell)
    requires Playable(b, mines, hidden, gameOver, win) && InBounds(p) && !At(b, p).isRevealed
    ensures var t := At(b, p);
            var b' := Put(b, p, t.(isFlagged := !t.isFlagged));
            Playable(b', mines, hidden, gameOver, win) &&
            FlagsRemaining(b') == FlagsRemaining(b) + (if t.isFlagged then 1 else -1)
  {
    var t := At(b, p);
    var b' := Put(b, p, t.(isFlagged := !t.isFlagged));
    forall q: Cell ensures Tallied(b', mines, q) {
      assert Tallied(b, mines, q);
    }
    if MineRevealed(b) {
      var q: Cell :| InBounds(q) && At(b, q).isMine && At(b, q).isRevealed;
      assert At(b', q).isMine && At(b', q).isRevealed;
    }
    if MineRevealed(b') {
      var q: Cell :| InBounds(q) && At(b', q).isMine && At(b', q).isRevealed;
      assert At(b, q).isMine && At(b, q).isRevealed;
    }
    if win {
      forall q: Cell | q in AllCells() && !At(b', q).isRevealed ensures At(b', q).isMine {
        assert !At(b, q).isRevealed;
      }
    }
    FlagCount(b, p);
  }

  /** The flagged cells after toggling `p`: `p` joins them or leaves them. */
  lemma FlagCount(b: Board, p: Cell)
    requires Shaped(b) && InBounds(p)
    ensures var t := At(b, p);
            var b' := Put(b, p, t.(isFlagged := !t.isFlagged));
            |Flagged(b')| == |Flagged(b)| + (if t.isFlagged then -1 else 1)
  {
    var t := At(b, p);
    var b' := Put(b, p, t.(isFlagged := !t.isFlagged));
    if t.isFlagged {
      assert Flagged(b) == Flagged(b') + {p} by {
        forall q | q in Flagged(b) ensures q in Flagged(b') + {p} {
          assert q in AllCells();
        }
      }
    } else {
      assert Flagged(b') == Flagged(b) + {p} by {
        forall q | q in Flagged(b') ensures q in Flagged(b) + {p} {
          assert q in AllCells();
        }
      }
    }
  }

  /**
   * Revealing one hidden, unflagged tile while the game goes on keeps the
   * game's invariant, with the game over exactly when the tile is a mine;
   * a safe tile showing no neighbouring mine has no mined neighbour.
   */
  lemma RevealTile(b: Board, mines: set<Cell>, hidden: set<Cell>, win: bool, p: Cell)
    requires Playable(b, mines, hidden, false, win)
    requires InBounds(p) && !At(b, p).isRevealed && !At(b, p).isFlagged
    ensures var t := At(b, p);
            var b' := Put(b, p, t.(isRevealed := true));
            Playable(b', mines, hidden - {p}, t.isMine, win) && Opened(b, b') &&
            (!t.isMine && t.adjacent == 0 ==> CountIn(Neighbours(p), mines) == 0)
  {
    var t := At(b, p);
    var b' := Put(b, p, t.(isRevealed := true));
    assert Tallied(b, mines, p);
    forall q: Cell ensures Tallied(b', mines, q) {
      assert Tallied(b, mines, q);
    }
    if t.isMine {
      assert At(b', p).isMine && At(b', p).isRevealed;
    }
    if MineRevealed(b') {
      var q: Cell :| InBounds(q) && At(b', q).isMine && At(b', q).isRevealed;
      assert q == p;
    }
    if win {
      SafeRevealedKept(b, b');
    }
  }

  /** The first `n` of the cells `ns` are revealed or flagged. */
  ghost predicate ClearedUpTo(b: Board, ns: seq<Cell>, n: int)
    requires Shaped(b) && forall i :: 0 <= i < |ns| ==> InBounds(ns[i])
  {
    forall m :: 0 <= m < n && m < |ns| ==> At(b, ns[m]).isRevealed || At(b, ns[m]).isFlagged
  }

  /** One more cell of `ns` cleared, and revealing more in between keeps the earlier ones. */
  lemma ClearedStep(b0: Board, b1: Board, ns: seq<Cell>, n: int)
    requires Shaped(b0) && Shaped(b1) && forall i :: 0 <= i < |ns| ==> InBounds(ns[i])
    requires 0 <= n < |ns| && Opened(b0, b1) && ClearedUpTo(b0, ns, n)
    requires At(b1, ns[n]).isRevealed || At(b1, ns[n]).isFlagged
    ensures ClearedUpTo(b1, ns, n + 1)
  {
    forall m | 0 <= m < n ensures At(b1, ns[m]).isRevealed || At(b1, ns[m]).isFlagged {
      assert InBounds(ns[m]);
    }
  }

  /** All of a tile's neighbours cleared in turn clears the tile. */
  lemma ClearedAll(b: Board, p: Cell)
    requires Shaped(b) && ClearedUpTo(b, Neighbours(p), |Neighbours(p)|)
    ensures Cleared(b, p)
  {
  }

  /**
   * The flood from `p` as a whole: revealing `p` to give `start`, then a
   * safe flood from `start` that clears `p`'s neighbours when `p` shows no
   * neighbouring mine, is a safe flood from `b0`.
   */
  lemma FloodFrom(b0: Board, start: Board, b1: Board, p: Cell)
    requires Shaped(b0) && Shaped(b1) && InBounds(p)
    requires start == Put(b0, p, At(b0, p).(isRevealed := true)) && !At(b0, p).isMine
    requires Opened(b0, start) && Opened(start, b1) && FloodSafe(start, b1)
    requires At(b1, p).adjacent == 0 ==> Cleared(b1, p)
    ensures Opened(b0, b1) && FloodSafe(b0, b1)
  {
    forall q: Cell | InBounds(q) && !At(b0, q).isRevealed && At(b1, q).isRevealed
      ensures !At(b1, q).isMine && (At(b1, q).adjacent == 0 ==> Cleared(b1, q))
    {
      if q != p {
        assert !At(start, q).isRevealed;
      }
    }
  }

  /** `q` is on the board, hidden on `b0` and revealed on `b1`. */
  ghost predicate Newly(b0: Board, b1: Board, q: Cell)
    requires Shaped(b0) && Shaped(b1)
  {
    InBounds(q) && !At(b0, q).isRevealed && At(b1, q).isRevealed
  }

  /**
   * The way a flood travels: tiles revealed between `b0` and `b1`, each a
   * neighbour of the one before, every one but the last showing no
   * neighbouring mine.
   */
  ghost predicate FloodPath(b0: Board, b1: Board, path: seq<Cell>)
    requires Shaped(b0) && Shaped(b1)
  {
    && path != []
    && (forall i :: 0 <= i < |path| ==> Newly(b0, b1, path[i]))
    && (forall i :: 0 <= i < |path| - 1 ==> At(b1, path[i]).adjacent == 0 && path[i + 1] in Neighbours(path[i]))
  }

  /** Every tile revealed between `b0` and `b1` lies at the end of a flood path from one of `starts`. */
  ghost predicate FloodBounded(b0: Board, b1: Board, starts: seq<Cell>)
    requires Shaped(b0) && Shaped(b1)
  {
    forall q: Cell :: Newly(b0, b1, q) ==>
      exists path :: FloodPath(b0, b1, path) && path[0] in starts && path[|path| - 1] == q
  }

  /** A flood path of a shorter stretch of reveals is one of any longer stretch around it. */
  lemma PathWiden(b0: Board, b1: Board, b2: Board, b3: Board, path: seq<Cell>)
    requires Shaped(b0) && Shaped(b1) && Shaped(b2) && Shaped(b3)
    requires Opened(b0, b1) && Opened(b2, b3) && FloodPath(b1, b2, path)
    ensures FloodPath(b0, b3, path)
  {
    forall i | 0 <= i < |path| ensures Newly(b0, b3, path[i]) && At(b3, path[i]).adjacent == At(b2, path[i]).adjacent {
      assert Newly(b1, b2, path[i]);
    }
  }

  /** Nothing is revealed between a board and itself. */
  lemma NothingNew(b: Board, starts: seq<Cell>)
    requires Shaped(b)
    ensures Opened(b, b) && FloodBounded(b, b, starts)
  {
  }

  /** Revealing a single tile reveals only a path of that tile alone. */
  lemma RevealOne(b0: Board, p: Cell)
    requires Shaped(b0) && InBounds(p) && !At(b0, p).isRevealed
    ensures FloodBounded(b0, Put(b0, p, At(b0, p).(isRevealed := true)), [p])
  {
    var b1 := Put(b0, p, At(b0, p).(isRevealed := true));
    forall q: Cell | Newly(b0, b1, q)
      ensures exists path :: FloodPath(b0, b1, path) && path[0] in [p] && path[|path| - 1] == q
    {
      assert q == p && FloodPath(b0, b1, [p]);
    }
  }

  /** A flood step of the neighbour loop: what the reveal of the start `s` adds is reached from `s`. */
  lemma FloodStep(b0: Board, before: Board, after: Board, ns: seq<Cell>, s: Cell)
    requires Shaped(b0) && Shaped(before) && Shaped(after)
    requires Opened(b0, before) && Opened(before, after) && s in ns
    requires FloodBounded(b0, before, ns) && FloodBounded(before, after, [s])
    ensures FloodBounded(b0, after, ns)
  {
    NothingNew(b0, ns);
    NothingNew(after, ns);
    forall q: Cell | Newly(b0, after, q)
      ensures exists path :: FloodPath(b0, after, path) && path[0] in ns && path[|path| - 1] == q
    {
      if Newly(b0, before, q) {
        var path :| FloodPath(b0, before, path) && path[0] in ns && path[|path| - 1] == q;
        PathWiden(b0, b0, before, after, path);
      } else {
        assert Newly(before, after, q);
        var path :| FloodPath(before, after, path) && path[0] in [s] && path[|path| - 1] == q;
        PathWiden(b0, before, after, after, path);
      }
    }
  }

  /** A flood path continues backwards through a revealed tile showing no neighbouring mine. */
  lemma Prepend(b0: Board, b1: Board, p: Cell, path: seq<Cell>)
    requires Shaped(b0) && Shaped(b1) && Newly(b0, b1, p) && At(b1, p).adjacent == 0
    requires FloodPath(b0, b1, path) && path[0] in Neighbours(p)
    ensures FloodPath(b0, b1, [p] + path) && ([p] + path)[0] == p && ([p] + path)[|path|] == path[|path| - 1]
  {
    var full := [p] + path;
    forall i | 0 < i < |full| ensures full[i] == path[i - 1] { }
  }

  /**
   * A tile `q` revealed between `b0` and `b1`, where `p` was revealed first
   * (giving `start`) and a flood from `p`'s neighbours followed: the flood
   * path from `p` to `q`.
   */
  lemma PathFrom(b0: Board, start: Board, b1: Board, p: Cell, q: Cell) returns (path: seq<Cell>)
    requires Shaped(b0) && Shaped(start) && Shaped(b1)
    requires Newly(b0, b1, p) && At(b1, p).adjacent == 0
    requires Opened(b0, start) && Opened(start, b1) && FloodBounded(start, b1, Neighbours(p))
    requires q == p || Newly(start, b1, q)
    ensures FloodPath(b0, b1, path) && path[0] == p && path[|path| - 1] == q
  {
    if q == p {
      path := [p];
    } else {
      var rest :| FloodPath(start, b1, rest) && rest[0] in Neighbours(p) && rest[|rest| - 1] == q;
      PathWiden(b0, start, b1, b1, rest);
      Prepend(b0, b1, p, rest);
      path := [p] + rest;
    }
  }

  /**
   * Revealing `p`, which shows no neighbouring mine, then flooding from its
   * neighbours reveals only tiles at the end of a flood path from `p`.
   */
  lemma RevealFlood(b0: Board, start: Board, b1: Board, p: Cell)
    requires Shaped(b0) && Shaped(b1) && InBounds(p) && !At(b0, p).isRevealed
    requires start == Put(b0, p, At(b0, p).(isRevealed := true)) && At(b0, p).adjacent == 0
    requires Opened(start, b1) && FloodBounded(start, b1, Neighbours(p))
    ensures FloodBounded(b0, b1, [p])
  {
    assert Newly(b0, b1, p) && At(b1, p).adjacent == 0 by {
      assert At(start, p) == At(b0, p).(isRevealed := true);
    }
    assert Opened(b0, start) by {
      NothingNew(b0, []);
    }
    forall q: Cell | Newly(b0, b1, q)
      ensures exists path :: FloodPath(b0, b1, path) && path[0] in [p] && path[|path| - 1] == q
    {
      assert q == p || Newly(start, b1, q) by {
        assert q != p ==> At(start, q) == At(b0, q);
      }
      var path := PathFrom(b0, start, b1, p, q);
      assert path[0] in [p];
    }
  }

  /** The screen's board and game flags. */
  class Game {
    var board: Board
    var gameOver: bool
    var win: bool
    /** The mined cells. */
    ghost var mines: set<Cell>
    /** The cells not yet revealed. */
    ghost var hidden: set<Cell>

    ghost predicate Valid()
      reads this
    {
      Playable(board, mines, hidden, gameOver, win)
    }

    /** The view starts with an empty board and calls `newGame` on appearing. */
    constructor(picks: seq<Cell>)
      requires forall i :: 0 <= i < |picks| ==> InBounds(picks[i])
      requires |set i | 0 <= i < |picks| :: picks[i]| >= MineCount
      ensures Valid() && !gameOver && !win
      ensures forall p: Cell :: InBounds(p) ==> !At(board, p).isRevealed && !At(board, p).isFlagged
    {
      board := [];
      gameOver := false;
      win := false;
      mines := {};
      hidden := {};
      new;
      NewGame(picks);
    }

    /**
     * `newGame`: clear both flags, lay the mines on a blank board and count
     * every tile's neighbouring mines. `picks` stands for the random draws.
     */
    method NewGame(picks: seq<Cell>)
      requires forall i :: 0 <= i < |picks| ==> InBounds(picks[i])
      requires |set i | 0 <= i < |picks| :: picks[i]| >= MineCount
      modifies this
      ensures Valid() && !gameOver && !win
      ensures |mines| == MineCount && mines <= set i | 0 <= i < |picks| :: picks[i]
      ensures forall p: Cell :: InBounds(p) ==> !At(board, p).isRevealed && !At(board, p).isFlagged
    {
      gameOver := false;
      win := false;
      var b, laid := LayMines(picks);
      b := CountNeighbours(b, laid);
      NewBoard(b, laid);
      board := b;
      mines := laid;
      hidden := AllCells();
    }

    /** `reveal` acts on an on-board, hidden, unflagged tile while the game goes on. */
    predicate Opens(r: int, c: int)
      reads this
    {
      Shaped(board) && InBounds((r, c)) && !At(board, (r, c)).isRevealed && !At(board, (r, c)).isFlagged && !gameOver
    }

    /**
     * `reveal`: nothing happens off the board, on a revealed or flagged tile,
     * or once the game is over. Otherwise the tile is revealed, and a mine
     * there ends the game with nothing else revealed. A tile with no
     * neighbouring mine then reveals each neighbour in turn, and the win is
     * checked. Only `isRevealed` ever changes, and the flood opens no mine
     * and leaves every opened tile without neighbouring mines with all its
     * neighbours revealed or flagged. A safe tile with neighbouring mines
     * reveals itself alone, and every tile the flood reveals is reached from
     * the tile through revealed tiles showing no neighbouring mine.
     */
    method Reveal(r: int, c: int)
      requires Valid()
      modifies this
      decreases |hidden|, 1
      ensures Valid() && mines == old(mines) && hidden <= old(hidden)
      ensures Opened(old(board), board)
      ensures !old(Opens(r, c)) ==> board == old(board) && gameOver == old(gameOver) && win == old(win)
      ensures old(Opens(r, c)) && old(At(board, (r, c)).isMine) ==>
        gameOver && win == old(win) && board == Put(old(board), (r, c), old(At(board, (r, c))).(isRevealed := true))
      ensures old(Opens(r, c)) && !old(At(board, (r, c)).isMine) ==>
        !gameOver && At(board, (r, c)).isRevealed && win == (old(win) || AllSafeRevealed(board)) &&
        FloodSafe(old(board), board)
      ensures InBounds((r, c)) && !gameOver ==> At(board, (r, c)).isRevealed || At(board, (r, c)).isFlagged
      ensures old(Opens(r, c)) && old(At(board, (r, c))).adjacent != 0 ==>
        board == Put(old(board), (r, c), old(At(board, (r, c))).(isRevealed := true))
      ensures FloodBounded(old(board), board, [(r, c)])
    {
      if !InBounds((r, c)) || board[r][c].isRevealed || board[r][c].isFlagged || gameOver {
        NothingNew(board, [(r, c)]);
        return;
      }
      ghost var b0 := board;
      RevealTile(board, mines, hidden, win, (r, c));
      RevealOne(board, (r, c));
      board := Put(board, (r, c), board[r][c].(isRevealed := true));
      hidden := hidden - {(r, c)};
      if board[r][c].isMine {
        gameOver := true;
        return;
      }
      ghost var start := board;
      if board[r][c].adjacent == 0 {
        Flood(r, c);
        RevealFlood(b0, start, board, (r, c));
      }
      FloodFrom(b0, start, board, (r, c));
      CheckWin();
    }

    /**
     * The loop of `reveal` over the neighbours of a revealed tile showing no
     * neighbouring mine: reveal each in turn. It opens no mine, leaves
     * every neighbour revealed or flagged, and reveals only tiles reached
     * from a neighbour through revealed tiles showing no neighbouring mine.
     */
    method Flood(r: int, c: int)
      requires Valid() && !gameOver && InBounds((r, c))
      requires At(board, (r, c)).adjacent == 0 && !At(board, (r, c)).isMine
      modifies this
      decreases |hidden| + 1, 0
      ensures Valid() && mines == old(mines) && hidden <= old(hidden)
      ensures !gameOver && (old(win) ==> win)
      ensures Opened(old(board), board) && FloodSafe(old(board), board)
      ensures Cleared(board, (r, c))
      ensures FloodBounded(old(board), board, Neighbours((r, c)))
    {
      var ns := Neighbours((r, c));
      NothingNew(board, ns);
      assert Tallied(board, mines, (r, c));
      NoneCounted(ns, mines);
      for n := 0 to |ns|
        invariant Valid() && mines == old(mines) && !gameOver && (old(win) ==> win)
        invariant hidden <= old(hidden)
        invariant Opened(old(board), board) && FloodSafe(old(board), board)
        invariant ClearedUpTo(board, ns, n)
        invariant FloodBounded(old(board), board, ns)
      {
        SubsetSize(hidden, old(hidden));
        ghost var before := board;
        Reveal(ns[n].0, ns[n].1);
        FloodSafeChain(old(board), before, board);
        ClearedStep(before, board, ns, n);
        FloodStep(old(board), before, board, ns, ns[n]);
      }
      ClearedAll(board, (r, c));
    }

    /** `checkWin`: declare the win once every unrevealed tile is a mine; never undo it. */
    method CheckWin()
      requires Valid()
      modifies this
      ensures Valid()
      ensures board == old(board) && gameOver == old(gameOver) && mines == old(mines) && hidden == old(hidden)
      ensures win == (old(win) || AllSafeRevealed(board))
    {
      if AllSafeRevealed(board) {
        win := true;
      }
    }

    /** `flag` acts on an on-board, hidden tile while the game goes on. */
    predicate FlagOpens(r: int, c: int)
      reads this
    {
      Shaped(board) && InBounds((r, c)) && !At(board, (r, c)).isRevealed && !gameOver
    }

    /**
     * `flag`: toggle the tile's flag when `FlagOpens` holds, else nothing.
     * The toggle leaves `FlagOpens` as it was, so a second call gives the
     * board back (`FlagTwice`); the flag counter moves by one against the
     * toggle.
     */
    method Flag(r: int, c: int)
      requires Valid()
      modifies this
      ensures Valid()
      ensures gameOver == old(gameOver) && win == old(win) && mines == old(mines) && hidden == old(hidden)
      ensures FlagOpens(r, c) == old(FlagOpens(r, c))
      ensures old(FlagOpens(r, c)) ==>
        board == Put(old(board), (r, c), old(At(board, (r, c))).(isFlagged := !old(At(board, (r, c)).isFlagged))) &&
        FlagsRemaining(board) == old(FlagsRemaining(board)) + (if old(At(board, (r, c)).isFlagged) then 1 else -1)
      ensures !old(FlagOpens(r, c)) ==> board == old(board)
    {
      if !InBounds((r, c)) || board[r][c].isRevealed || gameOver {
        return;
      }
      ToggleFlag(board, mines, hidden, gameOver, win, (r, c));
      board := Put(board, (r, c), board[r][c].(isFlagged := !board[r][c].isFlagged));
    }
  }
}
