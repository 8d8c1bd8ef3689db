/** The game (game.py:13-111): the board, its size, the `ended` flag, and the
    operations that change them. The random draws of `_new_piece` are
    parameters: each is the empty cell the retry loop settles on and whether
    the new piece is a 4. */
module Game {
  import opened Seqs
  import opened Grids
  import opened Rotation
  import opened Reference
  import opened Slides
  import opened Results

  /** The tile value that ends the game (game.py:60). */
  const Goal := 2048

  datatype Game = Game(board: Grid, height: nat, width: nat, ended: bool)

  /** The board has `height` rows of `width` cells. */
  predicate Valid(s: Game)
  {
    IsRect(s.board, s.height, s.width)
  }

  /** One draw of `_new_piece` (game.py:37-45): the cell it fills and whether
      the piece is a 4 rather than a 2. */
  datatype Piece = Piece(row: nat, col: nat, four: bool)

  function Value(p: Piece): int
  {
    if p.four then 4 else 2
  }

  /** The piece's cell exists and is empty: where the retry loop of
      game.py:39-40 stops. */
  predicate Fits(b: Grid, p: Piece)
  {
    p.row < |b| && p.col < |b[p.row]| && b[p.row][p.col] == 0
  }

  /** game.py:42-45: the piece fills its empty cell. One tile more, the
      total grows by the piece, and every other cell is as before. */
  function Place(b: Grid, p: Piece): (r: Grid)
    requires Fits(b, p)
    ensures |r| == |b| && forall i :: 0 <= i < |b| ==> |r[i]| == |b[i]|
    ensures r[p.row][p.col] == Value(p) && IsTile(r[p.row][p.col])
    ensures forall i, j :: 0 <= i < |b| && 0 <= j < |b[i]| && (i != p.row || j != p.col) ==> r[i][j] == b[i][j]
    ensures TileCount(r) == TileCount(b) + 1
    ensures Total(r) == Total(b) + Value(p)
  {
    TotalSetCell(b, p.row, p.col, Value(p));
    TileCountSetCell(b, p.row, p.col, Value(p));
    assert IsTile(4) by { assert 4 / 2 == 2 && 2 / 2 == 1; }
    SetCell(b, p.row, p.col, Value(p))
  }

  /** game.py:60: the game has ended when no cell is empty or some tile is 2048. */
  function CheckEnded(b: Grid): bool
  {
    !Contains(b, 0) || Contains(b, Goal)
  }

  /** A board on which the game has not ended has an empty cell, so the
      retry loop of game.py:39-40 finds one; and it holds no 2048 tile. */
  lemma NotEndedHasRoom(b: Grid)
    requires !CheckEnded(b)
    ensures exists p: Piece :: Fits(b, p)
    ensures forall i, j :: 0 <= i < |b| && 0 <= j < |b[i]| ==> b[i][j] != Goal
  {
    var i, j :| 0 <= i < |b| && 0 <= j < |b[i]| && b[i][j] == 0;
    assert Fits(b, Piece(i, j, false));
  }

  /** A board with no empty cell, or with a 2048 tile, ends the game. */
  lemma FullOrGoalEnds(b: Grid)
    requires (forall i, j :: 0 <= i < |b| && 0 <= j < |b[i]| ==> b[i][j] != 0) || Contains(b, Goal)
    ensures CheckEnded(b)
  {
  }

  /** The start pieces lie on pairwise different cells of an `h` by `w` board. */
  predicate Distinct(ps: seq<Piece>, h: nat, w: nat)
  {
    && (forall k :: 0 <= k < |ps| ==> ps[k].row < h && ps[k].col < w)
    && (forall k, l :: 0 <= k < l < |ps| ==> ps[k].row != ps[l].row || ps[k].col != ps[l].col)
  }

  /** Some piece of `ps` lies on cell (i, j). */
  predicate Covers(ps: seq<Piece>, i: nat, j: nat)
  {
    exists k :: 0 <= k < |ps| && ps[k].row == i && ps[k].col == j
  }

  /** The pieces placed one after the other on the empty cells of `b`. */
  function PlaceAll(b: Grid, h: nat, w: nat, ps: seq<Piece>): (r: Grid)
    requires IsRect(b, h, w) && Distinct(ps, h, w)
    requires forall k :: 0 <= k < |ps| ==> b[ps[k].row][ps[k].col] == 0
    ensures IsRect(r, h, w)
    ensures forall k :: 0 <= k < |ps| ==> r[ps[k].row][ps[k].col] == Value(ps[k])
    ensures forall i, j :: 0 <= i < h && 0 <= j < w && !Covers(ps, i, j) ==> r[i][j] == b[i][j]
    ensures TileCount(r) == TileCount(b) + |ps|
    decreases |ps|
  {
    if |ps| == 0 then b
    else
      var n := |ps| - 1;
      var init, last := ps[..n], ps[n];
      assert ps == init + [last];
      LastUncovered(init, last, h, w);
      PlaceNext(b, PlaceAll(b, h, w, init), h, w, init, last)
  }

  /** The last start piece lies on a cell none of the earlier ones covers,
      and a cell none of them covers is not covered by the earlier ones. */
  lemma LastUncovered(init: seq<Piece>, last: Piece, h: nat, w: nat)
    requires Distinct(init + [last], h, w)
    ensures Distinct(init, h, w) && last.row < h && last.col < w
    ensures !Covers(init, last.row, last.col)
    ensures forall i, j :: !Covers(init + [last], i, j) ==> !Covers(init, i, j) && (i != last.row || j != last.col)
  {
    var ps := init + [last];
    assert forall k :: 0 <= k < |init| ==> ps[k] == init[k];
    assert ps[|init|] == last;
  }

  /** One more start piece, on top of the board holding the earlier ones. */
  function PlaceNext(b: Grid, r: Grid, h: nat, w: nat, init: seq<Piece>, last: Piece): (r': Grid)
    requires IsRect(b, h, w) && IsRect(r, h, w) && Distinct(init + [last], h, w)
    requires Distinct(init, h, w) && last.row < h && last.col < w
    requires b[last.row][last.col] == 0 && !Covers(init, last.row, last.col)
    requires forall k :: 0 <= k < |init| ==> r[init[k].row][init[k].col] == Value(init[k])
    requires forall i, j :: 0 <= i < h && 0 <= j < w && !Covers(init, i, j) ==> r[i][j] == b[i][j]
    requires forall i, j :: !Covers(init + [last], i, j) ==> !Covers(init, i, j) && (i != last.row || j != last.col)
    ensures IsRect(r', h, w)
    ensures forall k :: 0 <= k < |init| + 1 ==> r'[(init + [last])[k].row][(init + [last])[k].col] == Value((init + [last])[k])
    ensures forall i, j :: 0 <= i < h && 0 <= j < w && !Covers(init + [last], i, j) ==> r'[i][j] == b[i][j]
    ensures TileCount(r') == TileCount(r) + 1
  {
    var r' := Place(r, last);
    assert forall k :: 0 <= k < |init| ==> (init + [last])[k] == init[k];
    assert forall k :: 0 <= k < |init| ==> init[k].row != last.row || init[k].col != last.col;
    r'
  }

  /** A board of `h` rows of `w` empty cells (`np.zeros`, game.py:23). */
  function ZeroBoard(h: nat, w: nat): (b: Grid)
    ensures IsRect(b, h, w) && TileCount(b) == 0
    ensures forall i, j :: 0 <= i < h && 0 <= j < w ==> b[i][j] == 0
  {
    var b := seq(h, _ => Zeros(w));
    assert MaskGrid(b) == b by {
      forall i | 0 <= i < h
        ensures MaskGrid(b)[i] == b[i]
      {
        assert Mask(Zeros(w)) == Zeros(w);
      }
    }
    assert RowSums(b) == Zeros(h) by {
      forall i | 0 <= i < h
        ensures RowSums(b)[i] == 0
      {
        SumZeros(w);
      }
    }
    SumZeros(h);
    b
  }

  /** The start pieces on an empty board leave every cell empty or a tile. */
  lemma PlacedValid(h: nat, w: nat, ps: seq<Piece>)
    requires Distinct(ps, h, w)
    ensures ValidCells(PlaceAll(ZeroBoard(h, w), h, w, ps))
  {
    var b := PlaceAll(ZeroBoard(h, w), h, w, ps);
    forall i, j | 0 <= i < |b| && 0 <= j < |b[i]|
      ensures b[i][j] == 0 || IsTile(b[i][j])
    {
      if Covers(ps, i, j) {
        var k :| 0 <= k < |ps| && ps[k].row == i && ps[k].col == j;
        assert IsTile(4) by { assert 4 / 2 == 2 && 2 / 2 == 1; }
      }
    }
  }

  /** `Game.__init__` (game.py:14-29): an empty board of the given size with
      the start pieces placed; `ended` starts false and is not checked, even
      when the pieces fill the board. Negative sizes make `np.zeros` raise
      ValueError, and so does drawing a piece on a board without cells. */
  function Init(width: int, height: int, pieces: seq<Piece>): (r: Result<Game>)
    requires width >= 1 && height >= 1 ==> Distinct(pieces, height, width)
    ensures r.Err? <==> width < 0 || height < 0 || ((width == 0 || height == 0) && |pieces| > 0)
    ensures r.Ok? ==> Valid(r.value) && r.value.height == height && r.value.width == width && !r.value.ended
    ensures r.Ok? ==> TileCount(r.value.board) == |pieces| && ValidCells(r.value.board)
    ensures r.Ok? ==> forall k :: 0 <= k < |pieces| ==> r.value.board[pieces[k].row][pieces[k].col] == Value(pieces[k])
  {
    if width < 0 || height < 0 then Err(ValueError)
    else if width == 0 || height == 0 then
      if |pieces| > 0 then Err(ValueError)
      else Ok(Game(ZeroBoard(height, width), height, width, false))
    else
      var b := PlaceAll(ZeroBoard(height, width), height, width, pieces);
      PlacedValid(height, width, pieces);
      Ok(Game(b, height, width, false))
  }

  /** The slide a move performs; a board without cells has nothing to sweep. */
  function SlideGame(s: Game, a: Action): (r: Slid)
    requires Valid(s)
    ensures IsRect(r.board, s.height, s.width)
  {
    if s.height == 0 || s.width == 0 then Slid(s.board, false, 0) else Slide(s.board, a)
  }

  /** Whether `move` ends by drawing a new piece (game.py:110): the game has
      not ended, the board changed, and the slid board does not end it. */
  predicate Spawns(s: Game, a: Action)
    requires Valid(s)
  {
    !s.ended && SlideGame(s, a).changed && !CheckEnded(SlideGame(s, a).board)
  }

  /** game.py:108-111 after a slide `sl` of the game's board: `ended` is
      recomputed from the slid board, and a piece is drawn when the game goes
      on and the board changed. `ended` is not recomputed after the draw. */
  function Settle(s: Game, sl: Slid, p: Piece): (r: Game)
    requires IsRect(sl.board, s.height, s.width)
    requires !CheckEnded(sl.board) && sl.changed ==> Fits(sl.board, p)
    ensures Valid(r) && r.height == s.height && r.width == s.width
  {
    var ended := CheckEnded(sl.board);
    if !ended && sl.changed then Game(Place(sl.board, p), s.height, s.width, ended)
    else Game(sl.board, s.height, s.width, ended)
  }

  /** `Game.move` (game.py:62-111) with the marker grid shaped like the
      turned board: an ended game is left alone; otherwise the board slides
      and the game settles. */
  function Move(s: Game, a: Action, p: Piece): (r: Game)
    requires Valid(s)
    requires Spawns(s, a) ==> Fits(SlideGame(s, a).board, p)
    ensures Valid(r) && r.height == s.height && r.width == s.width
  {
    if s.ended then s else Settle(s, SlideGame(s, a), p)
  }

  /** An ended game is terminal: every move leaves it as it is. */
  lemma EndedIsTerminal(s: Game, a: Action, p: Piece)
    requires Valid(s) && s.ended
    ensures Move(s, a, p) == s
  {
  }

  /** A move whose slide changes nothing draws no piece and leaves the board
      as it was; only `ended` is recomputed. */
  lemma NoChangeNoSpawn(s: Game, a: Action, p: Piece)
    requires Valid(s) && !s.ended && SlideGame(s, a).board == s.board
    ensures !Spawns(s, a)
    ensures Move(s, a, p).board == s.board
    ensures Move(s, a, p).ended == CheckEnded(s.board)
  {
    if s.height != 0 && s.width != 0 {
      SlideChanged(s.board, a);
    }
  }

  /** A move draws a piece exactly when the slide changed the board and the
      slid board does not end the game. */
  lemma SpawnsWhenChanged(s: Game, a: Action)
    requires Valid(s) && !s.ended
    ensures Spawns(s, a) <==> SlideGame(s, a).board != s.board && !CheckEnded(SlideGame(s, a).board)
  {
    if s.height != 0 && s.width != 0 {
      SlideChanged(s.board, a);
    }
  }

  /** The drawn piece lands in its empty cell as a 2 or a 4 and every other
      cell is the slid board's. */
  lemma SettleSpawnsOne(s: Game, sl: Slid, p: Piece)
    requires IsRect(sl.board, s.height, s.width) && !CheckEnded(sl.board) && sl.changed && Fits(sl.board, p)
    ensures Settle(s, sl, p).board[p.row][p.col] in {2, 4}
    ensures forall i, j :: 0 <= i < s.height && 0 <= j < s.width && (i != p.row || j != p.col)
              ==> Settle(s, sl, p).board[i][j] == sl.board[i][j]
    ensures !Settle(s, sl, p).ended
  {
    assert Settle(s, sl, p).board == Place(sl.board, p);
  }

  /** When the slide changes the board and the game goes on, exactly one
      empty cell of the slid board receives a 2 or a 4. */
  lemma ChangeSpawnsOne(s: Game, a: Action, p: Piece)
    requires Valid(s) && Spawns(s, a) && Fits(SlideGame(s, a).board, p)
    ensures SlideGame(s, a).board != s.board
    ensures Move(s, a, p).board[p.row][p.col] in {2, 4}
    ensures forall i, j :: 0 <= i < s.height && 0 <= j < s.width && (i != p.row || j != p.col)
              ==> Move(s, a, p).board[i][j] == SlideGame(s, a).board[i][j]
    ensures !Move(s, a, p).ended
  {
    SpawnsWhenChanged(s, a);
    var sl := SlideGame(s, a);
    assert Move(s, a, p) == Settle(s, sl, p);
    SettleSpawnsOne(s, sl, p);
  }

  /** A move changes the sum of the cells only by the piece it draws. */
  lemma MoveTotal(s: Game, a: Action, p: Piece)
    requires Valid(s) && (Spawns(s, a) ==> Fits(SlideGame(s, a).board, p))
    ensures Total(Move(s, a, p).board) == Total(s.board) + (if Spawns(s, a) then Value(p) else 0)
  {
    if !s.ended && s.height != 0 && s.width != 0 {
      SlideTotal(s.board, a);
    }
  }

  /** Every merge removes one tile, and a drawn piece adds one. */
  lemma MoveTiles(s: Game, a: Action, p: Piece)
    requires Valid(s) && !s.ended && (Spawns(s, a) ==> Fits(SlideGame(s, a).board, p))
    ensures SlideGame(s, a).merges >= 0
    ensures TileCount(Move(s, a, p).board)
            == TileCount(s.board) - SlideGame(s, a).merges + (if Spawns(s, a) then 1 else 0)
  {
    if s.height != 0 && s.width != 0 {
      SlideTiles(s.board, a);
    }
  }

  /** Placing a 2 or a 4 keeps every cell empty or a tile. */
  lemma PlaceValid(b: Grid, p: Piece)
    requires ValidCells(b) && Fits(b, p)
    ensures ValidCells(Place(b, p))
  {
    var r := Place(b, p);
    forall i, j | 0 <= i < |r| && 0 <= j < |r[i]|
      ensures r[i][j] == 0 || IsTile(r[i][j])
    {
      if i != p.row || j != p.col {
        assert r[i][j] == b[i][j];
      }
    }
  }

  /** Cells stay empty or powers of two from 2 up. */
  lemma MoveKeepsTiles(s: Game, a: Action, p: Piece)
    requires Valid(s) && ValidCells(s.board) && (Spawns(s, a) ==> Fits(SlideGame(s, a).board, p))
    ensures ValidCells(Move(s, a, p).board)
  {
    if !s.ended {
      var sl := SlideGame(s, a);
      if s.height != 0 && s.width != 0 {
        SlideValid(s.board, a);
      }
      assert ValidCells(sl.board);
      if Spawns(s, a) {
        PlaceValid(sl.board, p);
        assert Move(s, a, p).board == Place(sl.board, p);
      } else {
        assert Move(s, a, p).board == sl.board;
      }
    }
  }

  /** Whenever a move draws a piece, the slid board has an empty cell for it. */
  lemma SpawnHasRoom(s: Game, a: Action)
    requires Valid(s) && Spawns(s, a)
    ensures exists p: Piece :: Fits(SlideGame(s, a).board, p)
  {
    NotEndedHasRoom(SlideGame(s, a).board);
  }

  lemma TileThenEmptyLine(v: int)
    requires v != 0
    ensures SlideLine([0, v]) == [v, 0]
  {
    assert [0, v][..1] == [0] && [0][..0] == [];
    assert NonZeros([0, v]) == [v];
  }

  /** [0, v] slides left to [v, 0]. */
  lemma TileThenEmptySlides(v: int)
    requires v != 0
    ensures Slide([[0, v]], ToLeft).board == [[v, 0]]
  {
    var line := [0, v];
    SlideByLines([line], ToLeft);
    TileThenEmptyLine(v);
    assert LineSlide([line], ToLeft) == [SlideLine(line)];
  }

  /** ... so the move to the left changes the board ... */
  lemma TileThenEmptyChanges(v: int)
    requires v != 0
    ensures SlideGame(Game([[0, v]], 1, 2, false), ToLeft) == Slide([[0, v]], ToLeft)
    ensures Slide([[0, v]], ToLeft).board == [[v, 0]] && Slide([[0, v]], ToLeft).changed
  {
    TileThenEmptySlides(v);
    SlideChanged([[0, v]], ToLeft);
  }

  /** ... and the game goes on. */
  lemma TileThenEmptySpawns(v: int)
    requires v != 0 && v != Goal
    ensures SlideGame(Game([[0, v]], 1, 2, false), ToLeft).board == [[v, 0]]
    ensures Spawns(Game([[0, v]], 1, 2, false), ToLeft)
    ensures Fits([[v, 0]], Piece(0, 1, false))
  {
    TileThenEmptyChanges(v);
    assert Contains([[v, 0]], 0) by { assert [[v, 0]][0][1] == 0; }
  }

  /** A move can fill the last empty cell and leave `ended` false: the
      one-row board [0, v] moved left becomes [v, 0], and the piece drawn
      into the second cell fills the row. */
  lemma FullButNotEnded(v: int)
    requires v != 0 && v != Goal
    ensures Spawns(Game([[0, v]], 1, 2, false), ToLeft)
    ensures Fits(SlideGame(Game([[0, v]], 1, 2, false), ToLeft).board, Piece(0, 1, false))
    ensures Move(Game([[0, v]], 1, 2, false), ToLeft, Piece(0, 1, false)) == Game([[v, 2]], 1, 2, false)
    ensures !Contains(Move(Game([[0, v]], 1, 2, false), ToLeft, Piece(0, 1, false)).board, 0)
  {
    var s := Game([[0, v]], 1, 2, false);
    var p := Piece(0, 1, false);
    TileThenEmptySpawns(v);
    var sl := SlideGame(s, ToLeft);
    var r := Place([[v, 0]], p);
    assert r[0] == [v, 0][1 := 2] == [v, 2];
    assert Move(s, ToLeft, p) == Settle(s, sl, p);
  }

  /** `Game.move` as written (game.py:62-111): on a board that is not square,
      a move to the left or right can raise IndexError from the marker grid of
      game.py:74; the exception leaves the game unchanged. */
  function MoveAsWritten(s: Game, a: Action, p: Piece): (r: Result<Game>)
    requires Valid(s)
    requires Spawns(s, a) ==> Fits(SlideGame(s, a).board, p)
    ensures r.Err? ==> r.error == IndexError
  {
    if s.ended then Ok(s)
    else if s.height != 0 && s.width != 0 && SlideCrashes(s.board, a) then Err(IndexError)
    else Ok(Move(s, a, p))
  }

  /** On a square board, and for moves up and down, the move as written is the move. */
  lemma AsWrittenIsMoveWhenSquare(s: Game, a: Action, p: Piece)
    requires Valid(s) && (Spawns(s, a) ==> Fits(SlideGame(s, a).board, p))
    requires !Lateral(a) || s.height == s.width
    ensures MoveAsWritten(s, a, p) == Ok(Move(s, a, p))
  {
    if !s.ended && s.height != 0 && s.width != 0 {
      AsWrittenFineWhenSquare(s.board, a);
    }
  }

  /** The one-row game [v, v, v, v] slides left to [2v, 2v, 0, 0] ... */
  lemma WideRowChanges(v: int)
    requires v != 0
    ensures SlideGame(Game([[v, v, v, v]], 1, 4, false), ToLeft) == Slide([[v, v, v, v]], ToLeft)
    ensures Slide([[v, v, v, v]], ToLeft).board == [[2 * v, 2 * v, 0, 0]]
    ensures Slide([[v, v, v, v]], ToLeft).changed
  {
    var b: Grid := [[v, v, v, v]];
    WideRowSlides(v);
    SlideChanged(b, ToLeft);
    assert b[0][3] != 0;
  }

  /** ... and goes on. */
  lemma WideRowSpawns(v: int)
    requires v != 0 && 2 * v != Goal
    ensures SlideGame(Game([[v, v, v, v]], 1, 4, false), ToLeft).board == [[2 * v, 2 * v, 0, 0]]
    ensures Spawns(Game([[v, v, v, v]], 1, 4, false), ToLeft)
    ensures Fits([[2 * v, 2 * v, 0, 0]], Piece(0, 2, false))
  {
    WideRowChanges(v);
    assert Contains([[2 * v, 2 * v, 0, 0]], 0) by { assert [[2 * v, 2 * v, 0, 0]][0][2] == 0; }
  }

  /** The one-row game [v, v, v, v] moved left: as written it raises
      IndexError, while the move merges the pairs and draws a piece. */
  lemma WideRowMove(v: int)
    requires v != 0 && 2 * v != Goal
    ensures Spawns(Game([[v, v, v, v]], 1, 4, false), ToLeft)
    ensures Fits(SlideGame(Game([[v, v, v, v]], 1, 4, false), ToLeft).board, Piece(0, 2, false))
    ensures MoveAsWritten(Game([[v, v, v, v]], 1, 4, false), ToLeft, Piece(0, 2, false)) == Err(IndexError)
    ensures Move(Game([[v, v, v, v]], 1, 4, false), ToLeft, Piece(0, 2, false)).board == [[2 * v, 2 * v, 2, 0]]
  {
    var s := Game([[v, v, v, v]], 1, 4, false);
    var p := Piece(0, 2, false);
    WideRowSpawns(v);
    WideRowCrashes(v);
    var sl := SlideGame(s, ToLeft);
    var r := Place([[2 * v, 2 * v, 0, 0]], p);
    assert r[0] == [2 * v, 2 * v, 0, 0][2 := 2] == [2 * v, 2 * v, 2, 0];
    assert Move(s, ToLeft, p) == Settle(s, sl, p);
  }
}
