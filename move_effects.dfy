/**
 * What applying a validated move does to a match (`ChessMatch::MovePiece`
 * and its helpers), the agreement between the glyph layout and the piece
 * roster, which moves keep that agreement, and which break it.
 */
module MoveEffects {
  import opened Wrappers
  import opened BoardCoords
  import opened PieceRules
  import opened MatchTypes
  import opened MoveRules

  /** The layout cell of a square. */
  function Cell(c: Coords): int {
    BoardStateIndexForBoardCoords(c)
  }

  /** The square of a layout cell. */
  function SquareOf(k: int): Coords {
    BoardCoordsForBoardStateIndex(k)
  }

  /** On the board, a square and a cell name each other. */
  lemma CellSquare(c: Coords, k: int)
    requires IsBoardCoordsValid(c) && 0 <= k < 64
    ensures 0 <= Cell(c) < 64 && IsBoardCoordsValid(SquareOf(k))
    ensures Cell(c) == k <==> c == SquareOf(k)
  {
    CoordsThenIndex(c);
    IndexThenCoords(k);
  }

  /** Distinct squares have distinct cells. */
  lemma CellInjective(c: Coords, d: Coords)
    requires IsBoardCoordsValid(c) && IsBoardCoordsValid(d) && c != d
    ensures Cell(c) != Cell(d)
  {
    CoordsThenIndex(c);
    CoordsThenIndex(d);
  }

  // ---------------------------------------------------------------------
  // The elementary updates
  // ---------------------------------------------------------------------

  /** `ChessMatch::SetPieceToCoords`: one cell rewritten, every other cell kept. */
  function SetCell(layout: seq<char>, c: Coords, g: char): (l: seq<char>)
    requires |layout| == LayoutSize && IsBoardCoordsValid(c)
    ensures |l| == LayoutSize && 0 <= Cell(c) < 64 && l[Cell(c)] == g
    ensures forall k :: 0 <= k < 64 && k != Cell(c) ==> l[k] == layout[k]
  {
    CoordsThenIndex(c);
    layout[Cell(c) := g]
  }

  /** `ChessMatch::MovePieceOnLayout`: the origin cell emptied, then the destination cell set. */
  function MoveOnLayout(layout: seq<char>, from: Coords, to: Coords, g: char): (l: seq<char>)
    requires |layout| == LayoutSize && IsBoardCoordsValid(from) && IsBoardCoordsValid(to)
    ensures |l| == LayoutSize
  {
    SetCell(SetCell(layout, from, Empty), to, g)
  }

  /** `ChessMatch::MovePieceInVector`: the piece's old square becomes its previous one; it is stamped with the turn. */
  function MoveInRoster(pieces: seq<Piece>, i: int, to: Coords, turn: int): (p: seq<Piece>)
    requires 0 <= i < |pieces|
    ensures |p| == |pieces|
  {
    pieces[i := pieces[i].(previous := pieces[i].current, current := to, turnLastMoved := turn)]
  }

  /** `std::vector::erase` of one roster entry: later entries shift down by one. */
  function Erase(pieces: seq<Piece>, i: int): (p: seq<Piece>)
    requires 0 <= i < |pieces|
    ensures |p| == |pieces| - 1
    ensures forall j :: 0 <= j < i ==> p[j] == pieces[j]
    ensures forall j :: i <= j < |p| ==> p[j] == pieces[j + 1]
  {
    pieces[..i] + pieces[i + 1..]
  }

  /** The roster half of `ChessMatch::ChangePieceForIndex`: the entry takes the glyph's kind and keeps its side. */
  function ChangeKind(pieces: seq<Piece>, i: int, g: char): (p: seq<Piece>)
    requires 0 <= i < |pieces| && IsPieceGlyph(g)
    ensures |p| == |pieces|
  {
    pieces[i := pieces[i].(kind := KindOfGlyph(g).value)]
  }

  /** A match after a move: the board and the two statics the move may set. */
  datatype Outcome = Outcome(board: Board, matchEnds: bool, result: int)

  /**
   * The indices and squares the update uses are in range. The source writes
   * through them unchecked.
   */
  predicate EffectsDefined(b: Board, r: MoveResult, from: Coords, to: Coords) {
    |b.layout| == LayoutSize && IsBoardCoordsValid(from) && IsBoardCoordsValid(to)
    && 0 <= r.pieceIndexFrom < |b.pieces|
    && (r.isCastling ==> 0 <= r.rookIndex < |b.pieces| && IsBoardCoordsValid(r.rookFrom) && IsBoardCoordsValid(r.rookTo))
    && (r.isCapturing ==> 0 <= r.pieceIndexToErase < |b.pieces|)
    && (r.isPromotion ==> IsPieceGlyph(r.promoteGlyph) && r.pieceIndexFrom < |b.pieces| - (if r.isCapturing then 1 else 0))
  }

  /**
   * The state change of `ChessMatch::MovePiece` for an accepted record, in
   * the source's order: the castling rook, the mover, the capture (which ends
   * the match when it takes a king), the promotion (at the mover's index as
   * recorded before the capture's erase), then the turn.
   */
  function ApplyMove(b: Board, matchEnds: bool, result: int, r: MoveResult, from: Coords, to: Coords): (o: Outcome)
    requires EffectsDefined(b, r, from, to)
    ensures |o.board.layout| == LayoutSize
    ensures |o.board.pieces| == |b.pieces| - (if r.isCapturing then 1 else 0)
    ensures o.matchEnds <==> matchEnds || (r.isCapturing && (r.toGlyph == 'K' || r.toGlyph == 'k'))
    ensures r.isCapturing && r.toGlyph == 'K' ==> o.result == Player1Wins
    ensures r.isCapturing && r.toGlyph == 'k' ==> o.result == Player0Wins
    ensures !(r.isCapturing && (r.toGlyph == 'K' || r.toGlyph == 'k')) ==> o.result == result
    ensures o.matchEnds ==> o.board.turnNumber == b.turnNumber && o.board.player1Turn == b.player1Turn
    ensures !o.matchEnds ==> o.board.turnNumber == b.turnNumber + 1 && o.board.player1Turn == !b.player1Turn
  {
    var l1 := if r.isCastling then MoveOnLayout(b.layout, r.rookFrom, r.rookTo, r.rookGlyph) else b.layout;
    var p1 := if r.isCastling then MoveInRoster(b.pieces, r.rookIndex, r.rookTo, b.turnNumber) else b.pieces;
    var l2 := MoveOnLayout(l1, from, to, r.fromGlyph);
    var p2 := MoveInRoster(p1, r.pieceIndexFrom, to, b.turnNumber);
    var ends := matchEnds || (r.isCapturing && (r.toGlyph == 'K' || r.toGlyph == 'k'));
    var res :=
      if r.isCapturing && r.toGlyph == 'K' then Player1Wins
      else if r.isCapturing && r.toGlyph == 'k' then Player0Wins
      else result;
    var p3 := if r.isCapturing then Erase(p2, r.pieceIndexToErase) else p2;
    var l4 := if r.isPromotion then SetCell(l2, to, r.promoteGlyph) else l2;
    var p4 := if r.isPromotion then ChangeKind(p3, r.pieceIndexFrom, r.promoteGlyph) else p3;
    if ends then Outcome(Board(l4, p4, b.turnNumber, b.player1Turn), true, res)
    else Outcome(Board(l4, p4, b.turnNumber + 1, !b.player1Turn), false, res)
  }

  // ---------------------------------------------------------------------
  // Layout and roster agree
  // ---------------------------------------------------------------------

  /** Some roster piece stands on the square. */
  predicate Occupied(pieces: seq<Piece>, c: Coords) {
    exists i :: 0 <= i < |pieces| && pieces[i].current == c
  }

  /** Every piece is on the board and no two share a square. */
  predicate OnBoardApart(pieces: seq<Piece>) {
    (forall i :: 0 <= i < |pieces| ==> IsBoardCoordsValid(pieces[i].current))
    && (forall i, j :: 0 <= i < |pieces| && 0 <= j < |pieces| && i != j ==> pieces[i].current != pieces[j].current)
  }

  /**
   * The layout shows the roster: each piece's cell holds its glyph, and each
   * cell that is not empty has a piece on its square.
   */
  predicate Agree(layout: seq<char>, pieces: seq<Piece>) {
    |layout| == LayoutSize && OnBoardApart(pieces) && GlyphsShown(layout, pieces) && CellsCovered(layout, pieces)
  }

  /** Each piece's cell holds its glyph. */
  predicate GlyphsShown(layout: seq<char>, pieces: seq<Piece>)
    requires |layout| == LayoutSize && OnBoardApart(pieces)
  {
    forall i :: 0 <= i < |pieces| ==> layout[Cell(pieces[i].current)] == PieceGlyph(pieces[i])
  }

  /** Each cell that is not empty has a piece on its square. */
  predicate CellsCovered(layout: seq<char>, pieces: seq<Piece>)
    requires |layout| == LayoutSize
  {
    forall k :: 0 <= k < 64 && layout[k] != Empty ==> Occupied(pieces, SquareOf(k))
  }

  /** Under agreement a cell is empty exactly when no piece stands on its square. */
  lemma {:induction false} AgreeEmptyIffFree(layout: seq<char>, pieces: seq<Piece>, c: Coords)
    requires Agree(layout, pieces) && IsBoardCoordsValid(c)
    ensures 0 <= Cell(c) < 64
    ensures layout[Cell(c)] == Empty <==> !Occupied(pieces, c)
  {
    CellSquare(c, 0);
    CellSquare(c, Cell(c));
    if Occupied(pieces, c) {
      var i :| 0 <= i < |pieces| && pieces[i].current == c;
      GlyphRoundTrip(pieces[i].kind, pieces[i].player1Side);
    }
  }

  /** Moving one piece to a free square, on both the layout and the roster, keeps agreement. */
  lemma {:induction false} RelocateKeepsAgreement(layout: seq<char>, pieces: seq<Piece>, i: int, to: Coords, turn: int)
    requires Agree(layout, pieces) && 0 <= i < |pieces| && IsBoardCoordsValid(to) && !Occupied(pieces, to)
    ensures Agree(MoveOnLayout(layout, pieces[i].current, to, PieceGlyph(pieces[i])), MoveInRoster(pieces, i, to, turn))
  {
    var from := pieces[i].current;
    var l' := MoveOnLayout(layout, from, to, PieceGlyph(pieces[i]));
    var p' := MoveInRoster(pieces, i, to, turn);
    assert from != to;
    CellInjective(from, to);
    forall j | 0 <= j < |p'|
      ensures l'[Cell(p'[j].current)] == PieceGlyph(p'[j])
    {
      if j != i {
        CellInjective(pieces[j].current, from);
        CellInjective(pieces[j].current, to);
      }
    }
    forall k | 0 <= k < 64 && l'[k] != Empty
      ensures Occupied(p', SquareOf(k))
    {
      CellSquare(to, k);
      if k == Cell(to) {
        assert p'[i].current == SquareOf(k);
      } else {
        CellSquare(from, k);
        assert layout[k] != Empty;
        var j :| 0 <= j < |pieces| && pieces[j].current == SquareOf(k);
        assert p'[j].current == SquareOf(k);
      }
    }
  }

  /** Erasing a roster entry keeps every other piece on the board and apart. */
  lemma {:induction false} EraseKeepsApart(pieces: seq<Piece>, e: int)
    requires OnBoardApart(pieces) && 0 <= e < |pieces|
    ensures OnBoardApart(Erase(pieces, e))
  {
    var p' := Erase(pieces, e);
    forall i | 0 <= i < |p'|
      ensures IsBoardCoordsValid(p'[i].current)
    {
      assert p'[i] == pieces[if i < e then i else i + 1];
    }
    forall i, j | 0 <= i < |p'| && 0 <= j < |p'| && i != j
      ensures p'[i].current != p'[j].current
    {
      assert p'[i] == pieces[if i < e then i else i + 1];
      assert p'[j] == pieces[if j < e then j else j + 1];
    }
  }

  /** Erasing a piece from the roster and emptying its cell keeps agreement. */
  lemma {:induction false} EraseKeepsAgreement(layout: seq<char>, pieces: seq<Piece>, e: int)
    requires Agree(layout, pieces) && 0 <= e < |pieces|
    ensures Agree(SetCell(layout, pieces[e].current, Empty), Erase(pieces, e))
  {
    EraseKeepsApart(pieces, e);
    EraseKeepsGlyphs(layout, pieces, e);
    EraseKeepsCover(layout, pieces, e);
  }

  /** After the erase, every remaining piece's cell still holds its glyph. */
  lemma {:induction false} EraseKeepsGlyphs(layout: seq<char>, pieces: seq<Piece>, e: int)
    requires Agree(layout, pieces) && 0 <= e < |pieces| && OnBoardApart(Erase(pieces, e))
    ensures GlyphsShown(SetCell(layout, pieces[e].current, Empty), Erase(pieces, e))
  {
    var c := pieces[e].current;
    var l' := SetCell(layout, c, Empty);
    var p' := Erase(pieces, e);
    forall j | 0 <= j < |p'|
      ensures l'[Cell(p'[j].current)] == PieceGlyph(p'[j])
    {
      var m := if j < e then j else j + 1;
      assert p'[j] == pieces[m];
      CellInjective(pieces[m].current, c);
    }
  }

  /** After the erase, every cell still showing a glyph has a remaining piece on its square. */
  lemma {:induction false} EraseKeepsCover(layout: seq<char>, pieces: seq<Piece>, e: int)
    requires Agree(layout, pieces) && 0 <= e < |pieces|
    ensures CellsCovered(SetCell(layout, pieces[e].current, Empty), Erase(pieces, e))
  {
    var c := pieces[e].current;
    var l' := SetCell(layout, c, Empty);
    forall k | 0 <= k < 64 && l'[k] != Empty
      ensures Occupied(Erase(pieces, e), SquareOf(k))
    {
      CellSquare(c, k);
      OccupiedAfterErase(pieces, e, SquareOf(k));
    }
  }

  /** A square occupied by some piece other than the erased one stays occupied. */
  lemma {:induction false} OccupiedAfterErase(pieces: seq<Piece>, e: int, d: Coords)
    requires 0 <= e < |pieces| && Occupied(pieces, d) && pieces[e].current != d
    ensures Occupied(Erase(pieces, e), d)
  {
    var m :| 0 <= m < |pieces| && pieces[m].current == d;
    var j := if m < e then m else m - 1;
    assert Erase(pieces, e)[j] == pieces[m];
  }

  /** Changing a piece's kind and showing the new kind's glyph of its own side keeps agreement. */
  lemma {:induction false} PromoteKeepsAgreement(layout: seq<char>, pieces: seq<Piece>, i: int, g: char)
    requires Agree(layout, pieces) && 0 <= i < |pieces|
    requires PlayerIndexForGlyph(g) == (if pieces[i].player1Side then 1 else 0)
    ensures Agree(SetCell(layout, pieces[i].current, g), ChangeKind(pieces, i, g))
  {
    var c := pieces[i].current;
    var l' := SetCell(layout, c, g);
    var p' := ChangeKind(pieces, i, g);
    KindOfGlyphRoundTrip(g);
    forall j | 0 <= j < |p'|
      ensures l'[Cell(p'[j].current)] == PieceGlyph(p'[j])
    {
      if j != i {
        CellInjective(pieces[j].current, c);
      }
    }
    forall k | 0 <= k < 64 && l'[k] != Empty
      ensures Occupied(p', SquareOf(k))
    {
      CellSquare(c, k);
      if k == Cell(c) {
        assert p'[i].current == SquareOf(k);
      } else {
        var j :| 0 <= j < |pieces| && pieces[j].current == SquareOf(k);
        assert p'[j].current == SquareOf(k);
      }
    }
  }

  /** Capturing first and then moving is the same update as the source's move-then-erase. */
  lemma {:induction false} MoveThenEraseCommute(layout: seq<char>, pieces: seq<Piece>, i: int, e: int, from: Coords, to: Coords, g: char, turn: int)
    requires |layout| == LayoutSize && IsBoardCoordsValid(from) && IsBoardCoordsValid(to) && from != to
    requires 0 <= i < |pieces| && 0 <= e < |pieces| && i != e
    ensures MoveOnLayout(SetCell(layout, to, Empty), from, to, g) == MoveOnLayout(layout, from, to, g)
    ensures Erase(MoveInRoster(pieces, i, to, turn), e) ==
            MoveInRoster(Erase(pieces, e), if e < i then i - 1 else i, to, turn)
  {
    CellInjective(from, to);
    var a := MoveOnLayout(SetCell(layout, to, Empty), from, to, g);
    var b := MoveOnLayout(layout, from, to, g);
    assert forall k :: 0 <= k < 64 ==> a[k] == b[k];
  }

  // ---------------------------------------------------------------------
  // Which accepted moves keep agreement
  // ---------------------------------------------------------------------

  /** Erasing another roster entry shifts the mover's entry down when it came after the erased one. */
  lemma {:induction false} EraseShift(pieces: seq<Piece>, i: int, e: int)
    requires 0 <= i < |pieces| && 0 <= e < |pieces| && i != e
    ensures var i' := if e < i then i - 1 else i;
            0 <= i' < |Erase(pieces, e)| && Erase(pieces, e)[i'] == pieces[i]
  {
  }

  /** Under agreement, erasing the piece on a square leaves that square free. */
  lemma {:induction false} EraseFreesSquare(layout: seq<char>, pieces: seq<Piece>, e: int)
    requires Agree(layout, pieces) && 0 <= e < |pieces|
    ensures !Occupied(Erase(pieces, e), pieces[e].current)
  {
    assert OnBoardApart(pieces);
    NotOccupiedAfterErase(pieces, e);
  }

  /** Moving a roster piece onto an occupied square and erasing the piece there keeps agreement. */
  lemma {:induction false} CaptureKeepsAgreement(layout: seq<char>, pieces: seq<Piece>, i: int, to: Coords, turn: int, e: int)
    requires Agree(layout, pieces) && 0 <= i < |pieces| && IsBoardCoordsValid(to) && pieces[i].current != to
    requires 0 <= e < |pieces| && pieces[e].current == to
    ensures Agree(MoveOnLayout(layout, pieces[i].current, to, PieceGlyph(pieces[i])),
                  Erase(MoveInRoster(pieces, i, to, turn), e))
  {
    var i' := if e < i then i - 1 else i;
    EraseKeepsAgreement(layout, pieces, e);
    EraseShift(pieces, i, e);
    EraseFreesSquare(layout, pieces, e);
    RelocateKeepsAgreement(SetCell(layout, to, Empty), Erase(pieces, e), i', to, turn);
    MoveThenEraseCommute(layout, pieces, i, e, pieces[i].current, to, PieceGlyph(pieces[i]), turn);
  }

  /** Once the only piece on a square is erased, no piece stands there. */
  lemma {:induction false} NotOccupiedAfterErase(pieces: seq<Piece>, e: int)
    requires 0 <= e < |pieces|
    requires forall j :: 0 <= j < |pieces| && j != e ==> pieces[j].current != pieces[e].current
    ensures !Occupied(Erase(pieces, e), pieces[e].current)
  {
  }

  /**
   * Moving roster piece `i` onto a square and erasing the piece that stood
   * there (if one did) keeps agreement.
   */
  lemma {:induction false} MoveCaptureKeepsAgreement(layout: seq<char>, pieces: seq<Piece>, i: int, to: Coords, turn: int, capture: bool, e: int)
    requires Agree(layout, pieces) && 0 <= i < |pieces| && IsBoardCoordsValid(to) && pieces[i].current != to
    requires capture ==> 0 <= e < |pieces| && pieces[e].current == to
    requires !capture ==> !Occupied(pieces, to)
    ensures var moved := MoveInRoster(pieces, i, to, turn);
            Agree(MoveOnLayout(layout, pieces[i].current, to, PieceGlyph(pieces[i])),
                  if capture then Erase(moved, e) else moved)
  {
    if capture {
      CaptureKeepsAgreement(layout, pieces, i, to, turn, e);
    } else {
      RelocateKeepsAgreement(layout, pieces, i, to, turn);
    }
  }

  /**
   * A located record that does not capture en passant moves the piece found
   * on the origin and erases the piece found on the destination (if any),
   * and that keeps agreement.
   */
  lemma {:induction false} LocatedMoveKeepsAgreement(b: Board, r: MoveResult, from: Coords, to: Coords)
    requires Agree(b.layout, b.pieces) && IsBoardCoordsValid(from) && IsBoardCoordsValid(to) && from != to
    requires LocatedFacts(b, from, to, r) && r.pieceIndexFrom >= 0 && !r.isEnPassant
    ensures 0 <= r.pieceIndexFrom < |b.pieces| && b.pieces[r.pieceIndexFrom].current == from
    ensures r.isCapturing ==> 0 <= r.pieceIndexToErase < |b.pieces| && r.pieceIndexToErase != r.pieceIndexFrom
    ensures var moved := MoveInRoster(b.pieces, r.pieceIndexFrom, to, b.turnNumber);
            Agree(MoveOnLayout(b.layout, from, to, r.fromGlyph),
                  if r.isCapturing then Erase(moved, r.pieceIndexToErase) else moved)
  {
    if !r.isCapturing {
      assert !Occupied(b.pieces, to);
    }
    MoveCaptureKeepsAgreement(b.layout, b.pieces, r.pieceIndexFrom, to, b.turnNumber, r.isCapturing, r.pieceIndexToErase);
  }

  /**
   * An accepted record that neither castles nor captures en passant keeps
   * agreement when applied, provided a promotion installs a glyph of the
   * mover's side and any capture erased a roster entry after the mover's.
   */
  lemma {:induction false} ApplyRecordKeepsAgreement(b: Board, r: MoveResult, from: Coords, to: Coords, matchEnds: bool, result: int)
    requires Agree(b.layout, b.pieces) && IsBoardCoordsValid(from) && IsBoardCoordsValid(to) && from != to
    requires LocatedFacts(b, from, to, r) && r.pieceIndexFrom >= 0
    requires !r.isCastling && !r.isEnPassant
    requires r.isPromotion ==>
               (r.isCapturing ==> r.pieceIndexToErase > r.pieceIndexFrom) &&
               PlayerIndexForGlyph(r.promoteGlyph) == (if b.pieces[r.pieceIndexFrom].player1Side then 1 else 0)
    ensures EffectsDefined(b, r, from, to)
    ensures var o := ApplyMove(b, matchEnds, result, r, from, to);
            Agree(o.board.layout, o.board.pieces)
  {
    var i := r.pieceIndexFrom;
    LocatedMoveKeepsAgreement(b, r, from, to);
    var moved := MoveInRoster(b.pieces, i, to, b.turnNumber);
    var l2 := MoveOnLayout(b.layout, from, to, r.fromGlyph);
    var p3 := if r.isCapturing then Erase(moved, r.pieceIndexToErase) else moved;
    if r.isPromotion {
      assert p3[i] == moved[i];
      PromoteKeepsAgreement(l2, p3, i, r.promoteGlyph);
    }
    PlainApplyShape(b, matchEnds, result, r, from, to);
  }

  /** Without castling, the applied move is the mover's relocation, the capture's erase and the promotion. */
  lemma {:induction false} PlainApplyShape(b: Board, matchEnds: bool, result: int, r: MoveResult, from: Coords, to: Coords)
    requires EffectsDefined(b, r, from, to) && !r.isCastling
    ensures var o := ApplyMove(b, matchEnds, result, r, from, to);
            var l2 := MoveOnLayout(b.layout, from, to, r.fromGlyph);
            var moved := MoveInRoster(b.pieces, r.pieceIndexFrom, to, b.turnNumber);
            var p3 := if r.isCapturing then Erase(moved, r.pieceIndexToErase) else moved;
            o.board.layout == (if r.isPromotion then SetCell(l2, to, r.promoteGlyph) else l2) &&
            o.board.pieces == (if r.isPromotion then ChangeKind(p3, r.pieceIndexFrom, r.promoteGlyph) else p3)
  {
  }

  /**
   * A validated move keeps the layout and the roster in agreement when it
   * is a plain move or a capture on the destination, a horizontal castling
   * whose rook entry stands on its cell, or a promotion into the mover's side whose capture (if any) erased a
   * later roster entry.
   */
  lemma {:induction false} ApplyKeepsAgreement(b: Board, s: Staged, from: Coords, to: Coords, matchEnds: bool, result: int)
    requires Agree(b.layout, b.pieces) && IsBoardCoordsValid(from) && IsBoardCoordsValid(to)
    requires ProbesDefined(b, s, from, to) && LastIndexAt(b.pieces, from) >= 0
    requires Validate(b, s, from, to).result.isValidMove
    requires !Validate(b, s, from, to).result.isEnPassant
    requires Validate(b, s, from, to).result.isCastling ==>
               from.y == to.y && RookEntryOnItsCell(b, Validate(b, s, from, to).result)
    requires var r := Validate(b, s, from, to).result;
             r.isPromotion ==>
               (r.isCapturing ==> r.pieceIndexToErase > r.pieceIndexFrom) &&
               PlayerIndexForGlyph(r.promoteGlyph) == (if b.pieces[LastIndexAt(b.pieces, from)].player1Side then 1 else 0)
    ensures EffectsDefined(b, Validate(b, s, from, to).result, from, to)
    ensures var o := ApplyMove(b, matchEnds, result, Validate(b, s, from, to).result, from, to);
            Agree(o.board.layout, o.board.pieces)
  {
    var r := Validate(b, s, from, to).result;
    if r.isCastling {
      CastlingKeepsAgreement(b, s, from, to, matchEnds, result);
    } else {
      ApplyRecordKeepsAgreement(b, r, from, to, matchEnds, result);
    }
  }

  /** The square a castling king passes over lies on its pattern, so a piece there blocks it. */
  lemma {:induction false} KingPassBlocks(king: Piece, from: Coords, to: Coords)
    requires king.kind == King && king.current == from && to.y == from.y && Abs(to.x - from.x) == 2
    ensures Blocks(Add(from, MoveCase(from, to)), king, from, to)
  {
    var mid := Add(from, MoveCase(from, to));
    assert Taxicab(from, mid) == 1;
    assert MoveCase(from, mid) == MoveCase(from, to);
  }

  /**
   * The roster entry a castling record moves as its rook stands on the
   * square of the layout cell whose index it has. The castling rook is read
   * as the roster entry at its cell's index, and only an entry that stands
   * on that cell is the rook the layout shows there.
   */
  predicate RookEntryOnItsCell(b: Board, r: MoveResult) {
    0 <= r.rookIndex < |b.pieces| && b.pieces[r.rookIndex].current == SquareOf(r.rookIndex)
  }

  /**
   * A horizontal castling record, as the validator accepts it, keeps
   * agreement when its rook entry stands on its cell: the rook moves onto
   * the square the king passes over, which is free since a piece there
   * would block the king, and then the king moves onto its free destination.
   */
  lemma {:induction false} CastlingRecordKeepsAgreement(b: Board, r: MoveResult, from: Coords, to: Coords, matchEnds: bool, result: int)
    requires Agree(b.layout, b.pieces) && IsBoardCoordsValid(from) && IsBoardCoordsValid(to) && from.y == to.y
    requires LocatedFacts(b, from, to, r) && r.pieceIndexFrom >= 0
    requires r.isCastling && !r.isPromotion && !r.isEnPassant && CastlingFacts(b, from, to, r)
    requires RookEntryOnItsCell(b, r)
    requires var king := b.pieces[r.pieceIndexFrom];
             king.kind == King && Taxicab(from, to) == 2 && NoBlocker(b.pieces, king, from, to)
    ensures EffectsDefined(b, r, from, to)
    ensures var o := ApplyMove(b, matchEnds, result, r, from, to);
            Agree(o.board.layout, o.board.pieces)
  {
    var i := r.pieceIndexFrom;
    var L, P, t := b.layout, b.pieces, b.turnNumber;
    var king := P[i];
    var mc := MoveCase(from, to);
    var ri := r.rookIndex;
    assert Abs(to.x - from.x) == 2 && mc == Coords(Sign(to.x - from.x), 0);
    var mid := Add(from, mc);
    assert r.rookTo == mid;
    // Nothing stands on the square the king passes: it would block the king.
    KingPassBlocks(king, from, to);
    assert !Occupied(P, mid);
    // Nothing stands on the destination: its cell is empty.
    AgreeEmptyIffFree(L, P, to);
    assert ri != i;
    // The rook entry stands on its cell, whose glyph is the rook glyph.
    IndexThenCoords(ri);
    assert Cell(P[ri].current) == ri;
    assert r.rookGlyph == PieceGlyph(P[ri]);
    RelocateKeepsAgreement(L, P, ri, mid, t);
    var L1 := MoveOnLayout(L, r.rookFrom, mid, r.rookGlyph);
    var P1 := MoveInRoster(P, ri, mid, t);
    assert P1[i] == king;
    assert !Occupied(P1, to);
    RelocateKeepsAgreement(L1, P1, i, to, t);
  }

  /** The castling case: the rook lands on the square the king passes over, which nothing occupies. */
  lemma {:induction false} CastlingKeepsAgreement(b: Board, s: Staged, from: Coords, to: Coords, matchEnds: bool, result: int)
    requires Agree(b.layout, b.pieces) && IsBoardCoordsValid(from) && IsBoardCoordsValid(to)
    requires ProbesDefined(b, s, from, to) && LastIndexAt(b.pieces, from) >= 0
    requires Validate(b, s, from, to).result.isValidMove
    requires Validate(b, s, from, to).result.isCastling && from.y == to.y
    requires RookEntryOnItsCell(b, Validate(b, s, from, to).result)
    ensures EffectsDefined(b, Validate(b, s, from, to).result, from, to)
    ensures var o := ApplyMove(b, matchEnds, result, Validate(b, s, from, to).result, from, to);
            Agree(o.board.layout, o.board.pieces)
  {
    var v := Validate(b, s, from, to);
    assert ValidMoveFacts(b, s, from, to, v);
    CastlingRecordKeepsAgreement(b, v.result, from, to, matchEnds, result);
  }

  // ---------------------------------------------------------------------
  // Accepted moves that break agreement
  // ---------------------------------------------------------------------

  /**
   * An en passant capture erases the captured pawn from the roster but leaves
   * its glyph on the layout: afterwards that cell shows a pawn that no roster
   * piece stands behind, and the layout and roster disagree.
   */
  lemma {:induction false} EnPassantLeavesStaleCell(b: Board, s: Staged, from: Coords, to: Coords, matchEnds: bool, result: int)
    requires Agree(b.layout, b.pieces) && IsBoardCoordsValid(from) && IsBoardCoordsValid(to)
    requires ProbesDefined(b, s, from, to)
    requires Validate(b, s, from, to).result.isValidMove && !s.isTeleporting
    requires Validate(b, s, from, to).result.isEnPassant && !Validate(b, s, from, to).result.isPromotion
    ensures EffectsDefined(b, Validate(b, s, from, to).result, from, to)
    ensures var o := ApplyMove(b, matchEnds, result, Validate(b, s, from, to).result, from, to);
            var victim := EnPassantSquare(from, MoveCase(from, to));
            IsBoardCoordsValid(victim) && 0 <= Cell(victim) < 64 &&
            o.board.layout[Cell(victim)] == OpponentPawn(Validate(b, s, from, to).result.fromGlyph) &&
            !Occupied(o.board.pieces, victim) &&
            !Agree(o.board.layout, o.board.pieces)
  {
    var v := Validate(b, s, from, to);
    assert ValidMoveFacts(b, s, from, to, v);
    EnPassantRecordLeavesStaleCell(b, v.result, from, to, matchEnds, result);
  }

  /** The en passant case on the record alone. */
  lemma {:induction false} EnPassantRecordLeavesStaleCell(b: Board, r: MoveResult, from: Coords, to: Coords, matchEnds: bool, result: int)
    requires Agree(b.layout, b.pieces) && IsBoardCoordsValid(from) && IsBoardCoordsValid(to)
    requires 0 <= r.pieceIndexFrom < |b.pieces| && b.pieces[r.pieceIndexFrom].current == from
    requires b.pieces[r.pieceIndexFrom].kind == Pawn && IsValidMoveForCoords(b.pieces[r.pieceIndexFrom], to)
    requires r.isEnPassant && EnPassantFacts(b, from, to, r) && !r.isPromotion && !r.isCastling
    ensures EffectsDefined(b, r, from, to)
    ensures var o := ApplyMove(b, matchEnds, result, r, from, to);
            var victim := EnPassantSquare(from, MoveCase(from, to));
            IsBoardCoordsValid(victim) && 0 <= Cell(victim) < 64 &&
            o.board.layout[Cell(victim)] == OpponentPawn(r.fromGlyph) &&
            !Occupied(o.board.pieces, victim) &&
            !Agree(o.board.layout, o.board.pieces)
  {
    var i := r.pieceIndexFrom;
    var mc := MoveCase(from, to);
    var adj := EnPassantSquare(from, mc);
    var e := r.pieceIndexToErase;
    assert Abs(to.x - from.x) == 1;
    assert adj == Coords(to.x, from.y);
    assert b.pieces[e].current == adj;
    CellInjective(adj, from);
    CellInjective(adj, to);
    var o := ApplyMove(b, matchEnds, result, r, from, to);
    var moved := MoveInRoster(b.pieces, i, to, b.turnNumber);
    PlainApplyShape(b, matchEnds, result, r, from, to);
    assert o.board.pieces == Erase(moved, e);
    assert moved[e].current == adj;
    NotOccupiedAfterErase(moved, e);
    CellSquare(adj, Cell(adj));
  }

  /**
   * The castling rook is read as the roster entry at the rook cell's index.
   * When that entry is not a piece of the rook glyph (the roster lists the
   * pieces in cell order only until a capture erases an earlier entry), a
   * horizontal castling moves that entry onto the rook's landing square,
   * whose cell then shows the rook glyph: layout and roster disagree.
   */
  lemma {:induction false} CastlingMovesEntryAtRookCell(b: Board, r: MoveResult, from: Coords, to: Coords, matchEnds: bool, result: int)
    requires Agree(b.layout, b.pieces) && IsBoardCoordsValid(from) && IsBoardCoordsValid(to) && from.y == to.y
    requires LocatedFacts(b, from, to, r) && r.pieceIndexFrom >= 0 && Taxicab(from, to) == 2
    requires r.isCastling && !r.isPromotion && !r.isEnPassant && CastlingFacts(b, from, to, r)
    requires PieceGlyph(b.pieces[r.rookIndex]) != r.rookGlyph
    ensures EffectsDefined(b, r, from, to)
    ensures var o := ApplyMove(b, matchEnds, result, r, from, to);
            0 <= r.rookIndex < |o.board.pieces| && o.board.pieces[r.rookIndex].current == r.rookTo &&
            0 <= Cell(r.rookTo) < 64 && o.board.layout[Cell(r.rookTo)] == r.rookGlyph &&
            PieceGlyph(o.board.pieces[r.rookIndex]) != r.rookGlyph &&
            !Agree(o.board.layout, o.board.pieces)
  {
    var i := r.pieceIndexFrom;
    var ri := r.rookIndex;
    var mc := MoveCase(from, to);
    assert Abs(to.x - from.x) == 2 && mc == Coords(Sign(to.x - from.x), 0);
    var mid := Add(from, mc);
    assert r.rookTo == mid && IsBoardCoordsValid(mid);
    assert ri != i;
    AgreeEmptyIffFree(b.layout, b.pieces, to);
    assert !r.isCapturing;
    var o := ApplyMove(b, matchEnds, result, r, from, to);
    var l1 := MoveOnLayout(b.layout, r.rookFrom, mid, r.rookGlyph);
    var p1 := MoveInRoster(b.pieces, ri, mid, b.turnNumber);
    assert o.board.layout == MoveOnLayout(l1, from, to, r.fromGlyph);
    assert o.board.pieces == MoveInRoster(p1, i, to, b.turnNumber);
    CellInjective(mid, from);
    CellInjective(mid, to);
    assert o.board.layout[Cell(mid)] == r.rookGlyph;
    assert o.board.pieces[ri] == p1[ri];
  }

  /**
   * A castling record that sends the rook to the mover's origin square: the
   * mover's own move then empties that square's cell, so the rook stands on
   * a square whose cell shows nothing.
   */
  lemma CastlingOntoOriginStrandsRook(b: Board, matchEnds: bool, result: int, r: MoveResult, from: Coords, to: Coords)
    requires EffectsDefined(b, r, from, to) && from != to
    requires r.isCastling && !r.isCapturing && !r.isPromotion
    requires r.rookTo == from && r.rookIndex != r.pieceIndexFrom
    ensures var o := ApplyMove(b, matchEnds, result, r, from, to);
            0 <= r.rookIndex < |o.board.pieces| && o.board.pieces[r.rookIndex].current == from &&
            o.board.layout[Cell(from)] == Empty &&
            !Agree(o.board.layout, o.board.pieces)
  {
    var ri := r.rookIndex;
    var o := ApplyMove(b, matchEnds, result, r, from, to);
    var p1 := MoveInRoster(b.pieces, ri, from, b.turnNumber);
    assert o.board.pieces == MoveInRoster(p1, r.pieceIndexFrom, to, b.turnNumber);
    assert o.board.pieces[ri].current == from;
    CellInjective(from, to);
    GlyphRoundTrip(o.board.pieces[ri].kind, o.board.pieces[ri].player1Side);
    assert o.board.layout[Cell(o.board.pieces[ri].current)] != PieceGlyph(o.board.pieces[ri]);
  }

  /**
   * A king's diagonal step has taxicab distance 2 and so is validated as a
   * castling; an accepted one sends the rook to the king's origin square,
   * with no capture and no promotion.
   */
  lemma DiagonalCastlingRecord(b: Board, s: Staged, from: Coords, to: Coords)
    requires Agree(b.layout, b.pieces) && IsBoardCoordsValid(from) && IsBoardCoordsValid(to)
    requires ProbesDefined(b, s, from, to) && !s.isTeleporting
    requires Validate(b, s, from, to).result.isValidMove
    requires Validate(b, s, from, to).result.isCastling && from.y != to.y
    ensures var r := Validate(b, s, from, to).result;
            EffectsDefined(b, r, from, to) && from != to &&
            !r.isCapturing && !r.isPromotion &&
            r.rookTo == from && r.rookIndex != r.pieceIndexFrom
  {
    var v := Validate(b, s, from, to);
    assert ValidMoveFacts(b, s, from, to, v);
    DiagonalCastlingVerdict(b, s, from, to, v);
  }

  /** `DiagonalCastlingRecord` for any verdict with the facts of an accepted castling. */
  lemma DiagonalCastlingVerdict(b: Board, s: Staged, from: Coords, to: Coords, v: Verdict)
    requires Agree(b.layout, b.pieces) && IsBoardCoordsValid(from) && IsBoardCoordsValid(to)
    requires from != to && LocatedFacts(b, from, to, v.result) && ValidMoveFacts(b, s, from, to, v)
    requires v.result.isCastling && from.y != to.y
    ensures var r := v.result;
            EffectsDefined(b, r, from, to) && !r.isCapturing && !r.isPromotion &&
            r.rookTo == from && r.rookIndex != r.pieceIndexFrom
  {
    var r := v.result;
    var king := b.pieces[r.pieceIndexFrom];
    assert CastlingFacts(b, from, to, r);
    KingPattern(king, to);
    assert Abs(to.x - from.x) == 1 && Abs(to.y - from.y) == 1;
    assert r.rookTo == from;
    AgreeEmptyIffFree(b.layout, b.pieces, to);
    assert !r.isCapturing && !r.isPromotion;
  }

  /**
   * A king's diagonal step has taxicab distance 2 and so is validated as a
   * castling. When an unmoved rook of its side lies in that diagonal
   * direction, the "castling" is accepted and the rook is sent to the king's
   * origin square, which the king's own move then empties on the layout:
   * the rook stands on a square whose cell shows nothing.
   */
  lemma DiagonalCastlingStrandsRook(b: Board, s: Staged, from: Coords, to: Coords, matchEnds: bool, result: int)
    requires Agree(b.layout, b.pieces) && IsBoardCoordsValid(from) && IsBoardCoordsValid(to)
    requires ProbesDefined(b, s, from, to) && !s.isTeleporting
    requires Validate(b, s, from, to).result.isValidMove
    requires Validate(b, s, from, to).result.isCastling && from.y != to.y
    ensures var r := Validate(b, s, from, to).result;
            r.rookTo == from && EffectsDefined(b, r, from, to)
    ensures var r := Validate(b, s, from, to).result;
            var o := ApplyMove(b, matchEnds, result, r, from, to);
            0 <= r.rookIndex < |o.board.pieces| && o.board.pieces[r.rookIndex].current == from &&
            o.board.layout[Cell(from)] == Empty &&
            !Agree(o.board.layout, o.board.pieces)
  {
    DiagonalCastlingRecord(b, s, from, to);
    CastlingOntoOriginStrandsRook(b, matchEnds, result, Validate(b, s, from, to).result, from, to);
  }

  /**
   * When a promoting pawn captures a piece that comes earlier in the roster,
   * the erase shifts the pawn down one place, and the promotion, applied at
   * the index recorded before the erase, changes the kind of the piece that
   * followed the pawn. The pawn stays a pawn while its cell shows the
   * promoted glyph.
   */
  lemma {:induction false} PromotionAfterEarlierCaptureHitsNextPiece(b: Board, s: Staged, from: Coords, to: Coords, matchEnds: bool, result: int)
    requires Agree(b.layout, b.pieces) && IsBoardCoordsValid(from) && IsBoardCoordsValid(to)
    requires ProbesDefined(b, s, from, to) && !s.isTeleporting
    requires Validate(b, s, from, to).result.isValidMove
    requires var r := Validate(b, s, from, to).result;
             r.isPromotion && r.isCapturing && !r.isEnPassant &&
             r.pieceIndexToErase < r.pieceIndexFrom < |b.pieces| - 1 &&
             IsPieceGlyph(r.promoteGlyph) && KindOfGlyph(r.promoteGlyph) != Some(Pawn)
    ensures var r := Validate(b, s, from, to).result;
            EffectsDefined(b, r, from, to)
    ensures var r := Validate(b, s, from, to).result;
            var o := ApplyMove(b, matchEnds, result, r, from, to);
            var i := r.pieceIndexFrom;
            o.board.pieces[i - 1].current == to && o.board.pieces[i - 1].kind == Pawn &&
            o.board.pieces[i] == b.pieces[i + 1].(kind := KindOfGlyph(r.promoteGlyph).value) &&
            o.board.layout[Cell(to)] == r.promoteGlyph &&
            !Agree(o.board.layout, o.board.pieces)
  {
    var v := Validate(b, s, from, to);
    assert ValidMoveFacts(b, s, from, to, v);
    PromotionAfterEarlierCaptureRecord(b, v.result, from, to, matchEnds, result);
  }

  /** `PromotionAfterEarlierCaptureHitsNextPiece` for a located pawn's promoting capture record. */
  lemma {:induction false} PromotionAfterEarlierCaptureRecord(b: Board, r: MoveResult, from: Coords, to: Coords, matchEnds: bool, result: int)
    requires |b.layout| == LayoutSize && IsBoardCoordsValid(from) && IsBoardCoordsValid(to)
    requires LocatedFacts(b, from, to, r) && !r.isCastling
    requires r.isPromotion && r.isCapturing && !r.isEnPassant
    requires 0 <= r.pieceIndexToErase < r.pieceIndexFrom < |b.pieces| - 1 && b.pieces[r.pieceIndexFrom].kind == Pawn
    requires IsPieceGlyph(r.promoteGlyph) && KindOfGlyph(r.promoteGlyph) != Some(Pawn)
    ensures EffectsDefined(b, r, from, to)
    ensures var o := ApplyMove(b, matchEnds, result, r, from, to);
            var i := r.pieceIndexFrom;
            o.board.pieces[i - 1].current == to && o.board.pieces[i - 1].kind == Pawn &&
            o.board.pieces[i] == b.pieces[i + 1].(kind := KindOfGlyph(r.promoteGlyph).value) &&
            o.board.layout[Cell(to)] == r.promoteGlyph &&
            !Agree(o.board.layout, o.board.pieces)
  {
    var i := r.pieceIndexFrom;
    var o := ApplyMove(b, matchEnds, result, r, from, to);
    var p2 := MoveInRoster(b.pieces, i, to, b.turnNumber);
    var p3 := Erase(p2, r.pieceIndexToErase);
    PlainApplyShape(b, matchEnds, result, r, from, to);
    assert o.board.pieces == ChangeKind(p3, i, r.promoteGlyph);
    assert p3[i - 1] == p2[i];
    assert o.board.pieces[i - 1] == p3[i - 1];
    var g := r.promoteGlyph;
    var pawn := o.board.pieces[i - 1];
    if PieceGlyph(pawn) == g {
      GlyphRoundTrip(Pawn, pawn.player1Side);
    }
  }

  /**
   * A staged promotion glyph of the other side is installed as it stands.
   * Only the rule path consumes the staged glyph, so one left by a teleported
   * move survives, and a later move command without `promoteTo` keeps it.
   * The promoted pawn keeps its side while its cell shows the other side's
   * glyph.
   */
  lemma {:induction false} ForeignPromotionGlyphBreaks(b: Board, s: Staged, from: Coords, to: Coords, matchEnds: bool, result: int)
    requires Agree(b.layout, b.pieces) && IsBoardCoordsValid(from) && IsBoardCoordsValid(to)
    requires ProbesDefined(b, s, from, to) && !s.isTeleporting
    requires Validate(b, s, from, to).result.isValidMove
    requires var r := Validate(b, s, from, to).result;
             r.isPromotion && !r.isEnPassant && (r.isCapturing ==> r.pieceIndexToErase > r.pieceIndexFrom)
    requires !s.autoPromoteToQueen && IsPieceGlyph(s.promoteToPiece)
    requires PlayerIndexForGlyph(s.promoteToPiece) != PlayerIndexForGlyph(Validate(b, s, from, to).result.fromGlyph)
    ensures EffectsDefined(b, Validate(b, s, from, to).result, from, to)
    ensures var r := Validate(b, s, from, to).result;
            var o := ApplyMove(b, matchEnds, result, r, from, to);
            r.promoteGlyph == s.promoteToPiece &&
            o.board.layout[Cell(to)] == s.promoteToPiece &&
            0 <= r.pieceIndexFrom < |o.board.pieces| && o.board.pieces[r.pieceIndexFrom].current == to &&
            PieceGlyph(o.board.pieces[r.pieceIndexFrom]) != s.promoteToPiece &&
            !Agree(o.board.layout, o.board.pieces)
  {
    var v := Validate(b, s, from, to);
    assert ValidMoveFacts(b, s, from, to, v) && LocatedFacts(b, from, to, v.result);
    assert v.result.promoteGlyph == s.promoteToPiece && !v.result.isCastling;
    var mover := b.pieces[v.result.pieceIndexFrom];
    GlyphRoundTrip(mover.kind, mover.player1Side);
    ForeignPromotionRecord(b, v.result, from, to, matchEnds, result);
  }

  /** `ForeignPromotionGlyphBreaks` for a located promotion record. */
  lemma {:induction false} ForeignPromotionRecord(b: Board, r: MoveResult, from: Coords, to: Coords, matchEnds: bool, result: int)
    requires Agree(b.layout, b.pieces) && IsBoardCoordsValid(from) && IsBoardCoordsValid(to) && from != to
    requires LocatedFacts(b, from, to, r) && r.pieceIndexFrom >= 0
    requires !r.isCastling && !r.isEnPassant && r.isPromotion
    requires r.isCapturing ==> r.pieceIndexToErase > r.pieceIndexFrom
    requires IsPieceGlyph(r.promoteGlyph)
    requires PlayerIndexForGlyph(r.promoteGlyph) != (if b.pieces[r.pieceIndexFrom].player1Side then 1 else 0)
    ensures EffectsDefined(b, r, from, to)
    ensures var o := ApplyMove(b, matchEnds, result, r, from, to);
            o.board.layout[Cell(to)] == r.promoteGlyph &&
            0 <= r.pieceIndexFrom < |o.board.pieces| && o.board.pieces[r.pieceIndexFrom].current == to &&
            PieceGlyph(o.board.pieces[r.pieceIndexFrom]) != r.promoteGlyph &&
            !Agree(o.board.layout, o.board.pieces)
  {
    var i := r.pieceIndexFrom;
    LocatedMoveKeepsAgreement(b, r, from, to);
    PlainApplyShape(b, matchEnds, result, r, from, to);
    var moved := MoveInRoster(b.pieces, i, to, b.turnNumber);
    var p3 := if r.isCapturing then Erase(moved, r.pieceIndexToErase) else moved;
    assert p3[i] == moved[i];
    var o := ApplyMove(b, matchEnds, result, r, from, to);
    assert o.board.pieces == ChangeKind(p3, i, r.promoteGlyph);
    var promoted := o.board.pieces[i];
    assert promoted.player1Side == b.pieces[i].player1Side && promoted.current == to;
    GlyphRoundTrip(promoted.kind, promoted.player1Side);
  }

  /**
   * A king's diagonal step onto a free square, away from the enemy king, is
   * refused as a castling whose rook has moved whenever its side has no rook
   * glyph on the layout, though its pattern allows it.
   */
  lemma {:induction false} DiagonalKingStepRefused(b: Board, s: Staged, from: Coords, to: Coords)
    requires |b.layout| == LayoutSize && !s.isTeleporting && s.promoteToPiece == NoPromotion
    requires var i := LastIndexAt(b.pieces, from);
             0 <= i && b.pieces[i].kind == King &&
             Abs(to.x - from.x) == 1 && Abs(to.y - from.y) == 1 &&
             LastIndexAt(b.pieces, to) < 0 && PlayerIndexAt(b.layout, to) == -1 &&
             !NextToGlyph(b.layout, to, OpponentKing(PieceGlyph(b.pieces[i]))) &&
             GlyphAtCoords(b.layout, to) == Empty &&
             forall k :: 0 <= k < 64 ==> b.layout[k] != RookGlyph(b.pieces[i].player1Side)
    ensures ProbesDefined(b, s, from, to)
    ensures IsValidMoveForCoords(b.pieces[LastIndexAt(b.pieces, from)], to)
    ensures !Validate(b, s, from, to).ok && Validate(b, s, from, to).result.error == CastlingRookMoved
  {
    var king := b.pieces[LastIndexAt(b.pieces, from)];
    CastlingScanNoRookGlyph(b.layout, b.pieces, RookGlyph(king.player1Side), to, MoveCase(from, to), 0);
    DiagonalKingStepReachesScan(b, s, from, to);
  }

  /** `DiagonalKingStepRefused` up to the castling scan: a scan that finds no rook refuses the step. */
  lemma {:induction false} DiagonalKingStepReachesScan(b: Board, s: Staged, from: Coords, to: Coords)
    requires |b.layout| == LayoutSize && !s.isTeleporting && s.promoteToPiece == NoPromotion
    requires var i := LastIndexAt(b.pieces, from);
             0 <= i && b.pieces[i].kind == King &&
             Abs(to.x - from.x) == 1 && Abs(to.y - from.y) == 1 &&
             LastIndexAt(b.pieces, to) < 0 && PlayerIndexAt(b.layout, to) == -1 &&
             !NextToGlyph(b.layout, to, OpponentKing(PieceGlyph(b.pieces[i]))) &&
             GlyphAtCoords(b.layout, to) == Empty &&
             RookCellsIndexed(b.layout, b.pieces, RookGlyph(b.pieces[i].player1Side)) &&
             CastlingScan(b.layout, b.pieces, RookGlyph(b.pieces[i].player1Side), to, MoveCase(from, to), 0) == NoRook
    ensures ProbesDefined(b, s, from, to)
    ensures IsValidMoveForCoords(b.pieces[LastIndexAt(b.pieces, from)], to)
    ensures !Validate(b, s, from, to).ok && Validate(b, s, from, to).result.error == CastlingRookMoved
  {
    var i := LastIndexAt(b.pieces, from);
    var king := b.pieces[i];
    assert ProbesDefined(b, s, from, to);
    var r := Locate(b, from, to);
    assert forall j :: 0 <= j < |b.pieces| ==> !Blocks(b.pieces[j].current, king, from, to);
    assert FirstBlocker(b.pieces, king, from, to) == -1;
    assert s.(promoteToPiece := NoPromotion) == s;
    calc {
      Validate(b, s, from, to);
      RuleChecks(b, s, from, to, r);
      MoverChecks(b, s, NoPromotion, from, to, r);
      PathChecks(b, s, NoPromotion, from, to, r);
      KingChecks(b, s, from, to, r);
      CastlingChecks(b, s, from, to, r);
    }
  }

  // ---------------------------------------------------------------------
  // Concrete boards on which the disagreeing moves are accepted
  // ---------------------------------------------------------------------

  /**
   * A white pawn on e5 and a black pawn on d5 that made its two-square step
   * on the turn before; white to move at turn 5.
   */
  function EnPassantBoard(): Board {
    Board(seq(64, k => if k == 36 then 'P' else if k == 35 then 'p' else Empty),
          [Piece(Pawn, false, Coords(4, 4), Coords(4, 3), 3), Piece(Pawn, true, Coords(3, 4), Coords(3, 6), 4)],
          5, false)
  }

  /** The en passant board agrees with its roster. */
  lemma EnPassantBoardAgrees(b: Board)
    requires b == EnPassantBoard()
    ensures Agree(b.layout, b.pieces)
  {
    assert b.pieces[0].current == SquareOf(36) && b.pieces[1].current == SquareOf(35);
  }

  /** The pawn on e5 is entry 1's neighbour; d6 is empty, and the diagonal step is unblocked. */
  lemma EnPassantBoardMove(b: Board)
    requires b == EnPassantBoard()
    ensures LastIndexAt(b.pieces, Coords(4, 4)) == 0 && b.pieces[0].kind == Pawn
    ensures LastIndexAt(b.pieces, Coords(3, 5)) == -1 && FirstIndexAt(b.pieces, Coords(3, 4)) == 1
    ensures IsValidMoveForCoords(b.pieces[0], Coords(3, 5)) && NoBlocker(b.pieces, b.pieces[0], Coords(4, 4), Coords(3, 5))
  {
  }

  /** d6 shows nothing and d5, the square beside the origin, shows the black pawn. */
  lemma EnPassantBoardCells(b: Board)
    requires b == EnPassantBoard()
    ensures PlayerIndexAt(b.layout, Coords(3, 5)) == -1 && GlyphAtCoords(b.layout, Coords(3, 4)) == 'p'
  {
    assert b.layout[43] == Empty && b.layout[35] == 'p';
  }

  /** On that board e5 to d6 is accepted as en passant, erasing roster entry 1, the black pawn. */
  lemma EnPassantBoardVerdict(b: Board)
    requires b == EnPassantBoard()
    ensures ProbesDefined(b, Staged(NoPromotion, false, false), Coords(4, 4), Coords(3, 5))
    ensures var v := Validate(b, Staged(NoPromotion, false, false), Coords(4, 4), Coords(3, 5));
            v.ok && v.result.isEnPassant && v.result.pieceIndexToErase == 1 && !v.result.isPromotion
  {
    var s := Staged(NoPromotion, false, false);
    var from, to := Coords(4, 4), Coords(3, 5);
    EnPassantBoardMove(b);
    EnPassantBoardCells(b);
    assert MoveCase(from, to) == Coords(-1, 1) && EnPassantSquare(from, MoveCase(from, to)) == Coords(3, 4);
    assert ProbesDefined(b, s, from, to);
    assert !PromotionTargetMissing(b, s, from, to);
    assert EnPassantOpen(b, from, to, 'P');
    DiagonalPawnStepVerdict(b, s, from, to);
    var v := Validate(b, s, from, to);
    assert v.ok && v.result.isValidMove;
    assert ValidMoveFacts(b, s, from, to, v) && LocatedFacts(b, from, to, v.result);
    assert v.result.fromGlyph == 'P' && !ReachesEnd('P', MoveCase(from, to), to);
  }

  /** On that board, e5 to d6 is accepted as an en passant capture and leaves the black pawn's glyph on d5. */
  lemma {:induction false} EnPassantStaleCellExample(b: Board)
    requires b == EnPassantBoard()
    ensures var s := Staged(NoPromotion, false, false);
            Agree(b.layout, b.pieces) && ProbesDefined(b, s, Coords(4, 4), Coords(3, 5)) &&
            var v := Validate(b, s, Coords(4, 4), Coords(3, 5));
            v.ok && v.result.isEnPassant && EffectsDefined(b, v.result, Coords(4, 4), Coords(3, 5)) &&
            var o := ApplyMove(b, false, Undetermined, v.result, Coords(4, 4), Coords(3, 5));
            o.board.layout[Cell(Coords(3, 4))] == 'p' && !Occupied(o.board.pieces, Coords(3, 4)) &&
            !Agree(o.board.layout, o.board.pieces)
  {
    EnPassantBoardAgrees(b);
    EnPassantBoardVerdict(b);
    EnPassantLeavesStaleCell(b, Staged(NoPromotion, false, false), Coords(4, 4), Coords(3, 5), false, Undetermined);
  }

  /**
   * A white rook on a1 that has never moved and a white king on d3; white
   * to move at turn 3. The rook's roster index is its cell, as in a roster
   * built from the layout.
   */
  function DiagonalCastlingBoard(): Board {
    Board(seq(64, k => if k == 0 then 'R' else if k == 19 then 'K' else Empty),
          [Piece(Rook, false, Coords(0, 0), Coords(0, 0), 0), Piece(King, false, Coords(3, 2), Coords(3, 1), 2)],
          3, false)
  }

  /** The diagonal castling board agrees with its roster. */
  lemma DiagonalCastlingBoardAgrees(b: Board)
    requires b == DiagonalCastlingBoard()
    ensures Agree(b.layout, b.pieces)
  {
    assert b.pieces[0].current == SquareOf(0) && b.pieces[1].current == SquareOf(19);
  }

  /** Its rook cell indexes the roster, and the scan for a move towards c2 finds the a1 rook. */
  lemma DiagonalCastlingBoardScan(b: Board)
    requires b == DiagonalCastlingBoard()
    ensures RookCellsIndexed(b.layout, b.pieces, 'R') &&
            CastlingScan(b.layout, b.pieces, 'R', Coords(2, 1), Coords(-1, -1), 0) == RookFound(0)
  {
    assert RookCellsIndexed(b.layout, b.pieces, 'R');
    assert GlyphAtCoords(b.layout, Coords(1, 0)) == Empty;
  }

  /** No black king stands next to c2. */
  lemma DiagonalCastlingBoardKingsApart(b: Board)
    requires b == DiagonalCastlingBoard()
    ensures !NextToGlyph(b.layout, Coords(2, 1), 'k')
  {
    assert forall k :: 0 <= k < 64 ==> b.layout[k] != 'k';
  }

  /** The king on d3 may step to the empty c2, and nothing blocks it. */
  lemma DiagonalCastlingBoardMove(b: Board)
    requires b == DiagonalCastlingBoard()
    ensures LastIndexAt(b.pieces, Coords(3, 2)) == 1 && b.pieces[1].kind == King
    ensures LastIndexAt(b.pieces, Coords(2, 1)) == -1 && GlyphAtCoords(b.layout, Coords(2, 1)) == Empty
    ensures PlayerIndexAt(b.layout, Coords(2, 1)) == -1
    ensures IsValidMoveForCoords(b.pieces[1], Coords(2, 1)) && NoBlocker(b.pieces, b.pieces[1], Coords(3, 2), Coords(2, 1))
  {
  }

  /** A board that agrees with its roster, on which a diagonal king step is accepted as a castling. */
  predicate DiagonalCastlingAccepted(b: Board, from: Coords, to: Coords) {
    Agree(b.layout, b.pieces) && IsBoardCoordsValid(from) && IsBoardCoordsValid(to) && from.y != to.y &&
    ProbesDefined(b, Staged(NoPromotion, false, false), from, to) &&
    Validate(b, Staged(NoPromotion, false, false), from, to).ok &&
    Validate(b, Staged(NoPromotion, false, false), from, to).result.isCastling
  }

  /** A diagonal castling that leaves layout and roster disagreeing. */
  predicate DiagonalCastlingBreaks(b: Board, from: Coords, to: Coords) {
    DiagonalCastlingAccepted(b, from, to) &&
    var v := Validate(b, Staged(NoPromotion, false, false), from, to);
    EffectsDefined(b, v.result, from, to) &&
    var o := ApplyMove(b, false, Undetermined, v.result, from, to);
    !Agree(o.board.layout, o.board.pieces)
  }

  /** Every accepted diagonal castling from an agreeing board breaks the agreement. */
  lemma DiagonalCastlingAcceptedBreaks(b: Board, from: Coords, to: Coords)
    requires DiagonalCastlingAccepted(b, from, to)
    ensures DiagonalCastlingBreaks(b, from, to)
  {
    DiagonalCastlingStrandsRook(b, Staged(NoPromotion, false, false), from, to, false, Undetermined);
  }

  /** On that board the king's diagonal step d3 to c2 is accepted as a castling with the rook on a1. */
  lemma DiagonalCastlingBoardVerdict(b: Board)
    requires b == DiagonalCastlingBoard()
    ensures DiagonalCastlingAccepted(b, Coords(3, 2), Coords(2, 1))
    ensures Validate(b, Staged(NoPromotion, false, false), Coords(3, 2), Coords(2, 1)).result.rookIndex == 0
  {
    DiagonalCastlingBoardAgrees(b);
    DiagonalCastlingBoardMove(b);
    DiagonalCastlingBoardScan(b);
    DiagonalCastlingBoardKingsApart(b);
    assert CastlingSearch(b, Coords(3, 2), Coords(2, 1), b.pieces[1]) == RookFound(0);
    KingTwoStepVerdict(b, Staged(NoPromotion, false, false), Coords(3, 2), Coords(2, 1));
  }

  /**
   * That castling sends the rook to d3, which the king leaves empty: some
   * board in agreement is broken by an accepted move.
   */
  lemma {:induction false} DiagonalCastlingExample(b: Board)
    requires b == DiagonalCastlingBoard()
    ensures DiagonalCastlingBreaks(b, Coords(3, 2), Coords(2, 1))
  {
    DiagonalCastlingBoardVerdict(b);
    DiagonalCastlingAcceptedBreaks(b, Coords(3, 2), Coords(2, 1));
  }

  /**
   * A white rook on a1, a black pawn on b2 that has moved and a black king
   * on e8, in that roster order; black to move at turn 9 with
   * auto-promotion to a queen.
   */
  function PromotionBoard(): Board {
    Board(seq(64, k => if k == 0 then 'R' else if k == 9 then 'p' else if k == 60 then 'k' else Empty),
          [Piece(Rook, false, Coords(0, 0), Coords(0, 0), 0), Piece(Pawn, true, Coords(1, 1), Coords(1, 2), 8),
           Piece(King, true, Coords(4, 7), Coords(4, 7), 0)],
          9, true)
  }

  /** The staged state of a move with no promotion glyph and auto-promotion on. */
  const AutoQueen := Staged(NoPromotion, true, false)

  /** A layout showing the rook on a1, the black pawn on b2 and the black king on e8 and nothing else agrees with the promotion roster. */
  lemma PromotionRosterAgrees(layout: seq<char>, pieces: seq<Piece>)
    requires |layout| == LayoutSize && layout[0] == 'R' && layout[9] == 'p' && layout[60] == 'k'
    requires forall k :: 0 <= k < 64 && layout[k] != Empty ==> k == 0 || k == 9 || k == 60
    requires pieces == PromotionBoard().pieces
    ensures Agree(layout, pieces)
  {
    assert OnBoardApart(pieces);
    assert Cell(pieces[0].current) == 0 && Cell(pieces[1].current) == 9 && Cell(pieces[2].current) == 60;
    assert GlyphsShown(layout, pieces);
    forall k | 0 <= k < 64 && layout[k] != Empty
      ensures Occupied(pieces, SquareOf(k))
    {
      if k == 0 {
        assert pieces[0].current == SquareOf(0);
      } else if k == 9 {
        assert pieces[1].current == SquareOf(9);
      } else {
        assert pieces[2].current == SquareOf(60);
      }
    }
  }

  /** The promotion board agrees with its roster. */
  lemma PromotionBoardAgrees(b: Board)
    requires b == PromotionBoard()
    ensures Agree(b.layout, b.pieces)
  {
    assert |b.layout| == LayoutSize && b.layout[0] == 'R' && b.layout[9] == 'p' && b.layout[60] == 'k';
    PromotionRosterAgrees(b.layout, b.pieces);
  }

  /** The pawn on b2 is entry 1, the rook it takes on a1 entry 0, and the diagonal step is unblocked. */
  lemma PromotionBoardMove(b: Board)
    requires b == PromotionBoard()
    ensures LastIndexAt(b.pieces, Coords(1, 1)) == 1 && b.pieces[1].kind == Pawn
    ensures LastIndexAt(b.pieces, Coords(0, 0)) == 0
    ensures IsValidMoveForCoords(b.pieces[1], Coords(0, 0)) && NoBlocker(b.pieces, b.pieces[1], Coords(1, 1), Coords(0, 0))
  {
  }

  /** a1 holds a white piece and a2, the square beside the pawn's origin, is empty. */
  lemma PromotionBoardCells(b: Board)
    requires b == PromotionBoard()
    ensures PlayerIndexAt(b.layout, Coords(0, 0)) == 0 && GlyphAtCoords(b.layout, Coords(0, 1)) == Empty
  {
    assert b.layout[0] == 'R' && b.layout[8] == Empty;
    assert GlyphAtCoords(b.layout, Coords(0, 0)) == 'R';
  }

  /** A promotion that captures a piece listed before the pawn, with a piece listed after it. */
  predicate PromotionCaptureAccepted(b: Board, from: Coords, to: Coords) {
    Agree(b.layout, b.pieces) && IsBoardCoordsValid(from) && IsBoardCoordsValid(to) &&
    ProbesDefined(b, AutoQueen, from, to) &&
    Validate(b, AutoQueen, from, to).result.isValidMove &&
    var r := Validate(b, AutoQueen, from, to).result;
    r.isPromotion && r.isCapturing && !r.isEnPassant &&
    r.pieceIndexToErase < r.pieceIndexFrom < |b.pieces| - 1 &&
    IsPieceGlyph(r.promoteGlyph) && KindOfGlyph(r.promoteGlyph) != Some(Pawn)
  }

  /** Such a promotion changes the kind of the piece listed after the pawn and breaks the agreement. */
  predicate PromotionCaptureBreaks(b: Board, from: Coords, to: Coords) {
    PromotionCaptureAccepted(b, from, to) &&
    var r := Validate(b, AutoQueen, from, to).result;
    EffectsDefined(b, r, from, to) &&
    var o := ApplyMove(b, false, Undetermined, r, from, to);
    o.board.pieces[r.pieceIndexFrom - 1].kind == Pawn &&
    o.board.pieces[r.pieceIndexFrom].kind == KindOfGlyph(r.promoteGlyph).value &&
    !Agree(o.board.layout, o.board.pieces)
  }

  /** Every such promotion breaks the agreement. */
  lemma PromotionCaptureAcceptedBreaks(b: Board, from: Coords, to: Coords)
    requires PromotionCaptureAccepted(b, from, to)
    ensures PromotionCaptureBreaks(b, from, to)
  {
    PromotionAfterEarlierCaptureHitsNextPiece(b, AutoQueen, from, to, false, Undetermined);
  }

  /** On that board b2 takes a1 and promotes, erasing roster entry 0 while the pawn is entry 1. */
  lemma PromotionBoardVerdict(b: Board)
    requires b == PromotionBoard()
    ensures PromotionCaptureAccepted(b, Coords(1, 1), Coords(0, 0))
    ensures Validate(b, AutoQueen, Coords(1, 1), Coords(0, 0)).result.promoteGlyph == 'q'
  {
    var from, to := Coords(1, 1), Coords(0, 0);
    PromotionBoardAgrees(b);
    PromotionBoardMove(b);
    PromotionBoardCells(b);
    assert MoveCase(from, to) == Coords(-1, -1) && EnPassantSquare(from, MoveCase(from, to)) == Coords(0, 1);
    assert ProbesDefined(b, AutoQueen, from, to);
    assert !PromotionTargetMissing(b, AutoQueen, from, to);
    DiagonalPawnStepVerdict(b, AutoQueen, from, to);
    var v := Validate(b, AutoQueen, from, to);
    assert v.ok && v.result.isValidMove;
    assert ValidMoveFacts(b, AutoQueen, from, to, v) && LocatedFacts(b, from, to, v.result);
    assert v.result.fromGlyph == 'p' && ReachesEnd('p', MoveCase(from, to), to);
    assert v.result.isPromotion && v.result.promoteGlyph == 'q';
    assert !v.result.isEnPassant;
    assert v.result.isCapturing && v.result.pieceIndexToErase == 0 && v.result.pieceIndexFrom == 1;
    assert KindOfGlyph('q') == Some(Queen);
  }

  /**
   * There, the promotion turns the black king into a queen while the pawn
   * on a1 stays a pawn under the queen's glyph.
   */
  lemma {:induction false} PromotionExample(b: Board)
    requires b == PromotionBoard()
    ensures PromotionCaptureBreaks(b, Coords(1, 1), Coords(0, 0))
  {
    PromotionBoardVerdict(b);
    PromotionCaptureAcceptedBreaks(b, Coords(1, 1), Coords(0, 0));
  }
}
