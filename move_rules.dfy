/**
 * The move validator of a chess match (`ChessMatch::CheckMoveValidity`) as
 * a function of the board, the staged command statics and the two squares.
 *
 * The board is the 64-cell glyph layout plus the roster of live pieces; the
 * validator reads both, and the two can disagree (see MoveEffects), so every
 * lookup below says which of the two it reads.
 */
module MoveRules {
  import opened Wrappers
  import opened BoardCoords
  import opened PieceRules
  import opened MatchTypes

  /** What validation reads of a match: layout, roster, turn number, side to move. */
  datatype Board = Board(layout: seq<char>, pieces: seq<Piece>, turnNumber: int, player1Turn: bool)

  /** The command statics validation reads and resets: staged promotion glyph, auto-queen, teleport. */
  datatype Staged = Staged(promoteToPiece: char, autoPromoteToQueen: bool, isTeleporting: bool)

  /** The validator's return value, the record it filled and the statics it leaves behind. */
  datatype Verdict = Verdict(ok: bool, result: MoveResult, staged: Staged)

  // ---------------------------------------------------------------------
  // Board geometry
  // ---------------------------------------------------------------------

  function Add(a: Coords, b: Coords): Coords {
    Coords(a.x + b.x, a.y + b.y)
  }

  function Sub(a: Coords, b: Coords): Coords {
    Coords(a.x - b.x, a.y - b.y)
  }

  function Sign(n: int): int {
    if n > 0 then 1 else if n < 0 then -1 else 0
  }

  /** `ChessMatch::GetMoveCase`: the compass direction from one square toward another. */
  function MoveCase(from: Coords, to: Coords): (mc: Coords)
    ensures mc == Coords(Sign(to.x - from.x), Sign(to.y - from.y))
    ensures mc == Coords(0, 0) <==> from == to
  {
    var distX := to.x - from.x;
    var distY := to.y - from.y;
    var hori := distX != 0;
    var verti := distY != 0;
    if hori && !verti then (if distX > 0 then Coords(1, 0) else Coords(-1, 0))
    else if !hori && verti then (if distY > 0 then Coords(0, 1) else Coords(0, -1))
    else if hori && verti then
      (if distY > 0 then (if distX > 0 then Coords(1, 1) else Coords(-1, 1))
       else (if distX > 0 then Coords(1, -1) else Coords(-1, -1)))
    else Coords(0, 0)
  }

  /** The engine's taxicab distance between two squares. */
  function Taxicab(a: Coords, b: Coords): nat {
    Abs(b.x - a.x) + Abs(b.y - a.y)
  }

  /** The engine's eight neighbours of a square. */
  function Nearby8(c: Coords): (n: seq<Coords>)
    ensures |n| == 8
  {
    [Coords(c.x - 1, c.y - 1), Coords(c.x, c.y - 1), Coords(c.x + 1, c.y - 1), Coords(c.x - 1, c.y),
     Coords(c.x + 1, c.y), Coords(c.x - 1, c.y + 1), Coords(c.x, c.y + 1), Coords(c.x + 1, c.y + 1)]
  }

  /** The neighbours are exactly the other squares at most one file and one rank away. */
  lemma Nearby8Exactly(c: Coords, d: Coords)
    ensures d in Nearby8(c) <==> (d != c && Abs(d.x - c.x) <= 1 && Abs(d.y - c.y) <= 1)
  {
    if d != c && Abs(d.x - c.x) <= 1 && Abs(d.y - c.y) <= 1 {
      var n := Nearby8(c);
      if d.y == c.y - 1 {
        assert d == n[d.x - c.x + 1];
      } else if d.y == c.y {
        assert d == n[if d.x < c.x then 3 else 4];
      } else {
        assert d == n[d.x - c.x + 6];
      }
    }
  }

  // ---------------------------------------------------------------------
  // Reading the layout
  // ---------------------------------------------------------------------

  /**
   * `ChessMatch::GetGlyphAtCoords`: the layout cell at the coordinates'
   * flattened index, `'?'` when that index is off the layout. Only the
   * flattened index is bounds-checked.
   */
  function GlyphAtCoords(layout: seq<char>, c: Coords): (g: char)
    requires |layout| == LayoutSize
    ensures IsBoardCoordsValid(c) ==> g == layout[BoardStateIndexForBoardCoords(c)]
    ensures !(0 <= BoardStateIndexForBoardCoords(c) < 64) ==> g == '?'
  {
    var index := BoardStateIndexForBoardCoords(c);
    if index < 0 || index > 63 then '?' else layout[index]
  }

  /**
   * Coordinates one file off the board still read a real cell: the
   * neighbouring rank's far cell, not `'?'`.
   */
  lemma {:induction false} GlyphAtOffBoardReadsWrappedCell(layout: seq<char>, c: Coords)
    requires |layout| == LayoutSize
    requires 0 <= c.y <= 7 && (c.x == -1 || c.x == 8)
    requires !(c.y == 0 && c.x == -1) && !(c.y == 7 && c.x == 8)
    ensures !IsBoardCoordsValid(c)
    ensures GlyphAtCoords(layout, c) ==
            layout[BoardStateIndexForBoardCoords(if c.x == -1 then Coords(7, c.y - 1) else Coords(0, c.y + 1))]
  {
    var w := if c.x == -1 then Coords(7, c.y - 1) else Coords(0, c.y + 1);
    assert BoardStateIndexForBoardCoords(c) == BoardStateIndexForBoardCoords(w);
    CoordsThenIndex(w);
  }

  /** `ChessMatch::GetPlayerIndexForPieceAtCoords`: 0, 1, or -1 for no piece glyph there. */
  function PlayerIndexAt(layout: seq<char>, c: Coords): (i: int)
    requires |layout| == LayoutSize
    ensures i == 0 || i == 1 || i == -1
    ensures i != -1 <==> IsPieceGlyph(GlyphAtCoords(layout, c))
  {
    PlayerIndexForGlyph(GlyphAtCoords(layout, c))
  }

  /** Whether some neighbour of a square shows the given glyph (read through `GlyphAtCoords`). */
  predicate NextToGlyph(layout: seq<char>, c: Coords, g: char)
    requires |layout| == LayoutSize
  {
    exists i :: 0 <= i < 8 && GlyphAtCoords(layout, Nearby8(c)[i]) == g
  }

  // ---------------------------------------------------------------------
  // Reading the roster
  // ---------------------------------------------------------------------

  /** `ChessMatch::GetPieceIndexForCoords`: the first roster index at the coordinates, -1 if none. */
  function FirstIndexAt(pieces: seq<Piece>, c: Coords): (i: int)
    ensures -1 <= i < |pieces|
    ensures i >= 0 ==> pieces[i].current == c && forall j :: 0 <= j < i ==> pieces[j].current != c
    ensures i == -1 ==> forall j :: 0 <= j < |pieces| ==> pieces[j].current != c
  {
    if |pieces| == 0 then -1
    else if pieces[0].current == c then 0
    else
      var k := FirstIndexAt(pieces[1..], c);
      if k == -1 then -1 else k + 1
  }

  /** The roster index the validator's scan keeps: the last one at the coordinates, -1 if none. */
  function LastIndexAt(pieces: seq<Piece>, c: Coords): (i: int)
    ensures -1 <= i < |pieces|
    ensures i >= 0 ==> pieces[i].current == c && forall j :: i < j < |pieces| ==> pieces[j].current != c
    ensures i == -1 ==> forall j :: 0 <= j < |pieces| ==> pieces[j].current != c
  {
    if |pieces| == 0 then -1
    else if pieces[|pieces| - 1].current == c then |pieces| - 1
    else LastIndexAt(pieces[..|pieces| - 1], c)
  }

  /** Where at most one piece stands on a square, the first and the last lookups agree. */
  lemma FirstIsLastWhenUnique(pieces: seq<Piece>, c: Coords)
    requires forall i, j :: 0 <= i < j < |pieces| ==> pieces[i].current != pieces[j].current
    ensures FirstIndexAt(pieces, c) == LastIndexAt(pieces, c)
  {
  }

  /**
   * The blocking test: another square in the same direction from the
   * origin, nearer by taxicab distance, that the mover's pattern reaches.
   */
  predicate Blocks(other: Coords, mover: Piece, from: Coords, to: Coords) {
    other != from && other != to
    && Taxicab(from, other) < Taxicab(from, to)
    && MoveCase(from, other) == MoveCase(from, to)
    && IsValidMoveForCoords(mover, other)
  }

  /** The first roster index whose piece blocks the move, -1 if none does. */
  function FirstBlocker(pieces: seq<Piece>, mover: Piece, from: Coords, to: Coords): (i: int)
    ensures -1 <= i < |pieces|
    ensures i >= 0 ==> Blocks(pieces[i].current, mover, from, to) &&
                       forall j :: 0 <= j < i ==> !Blocks(pieces[j].current, mover, from, to)
    ensures i == -1 ==> forall j :: 0 <= j < |pieces| ==> !Blocks(pieces[j].current, mover, from, to)
  {
    if |pieces| == 0 then -1
    else if Blocks(pieces[0].current, mover, from, to) then 0
    else
      var k := FirstBlocker(pieces[1..], mover, from, to);
      if k == -1 then -1 else k + 1
  }

  /** The square `k` steps from `from` in a compass direction `d` (components -1, 0 or 1). */
  function Step(from: Coords, d: Coords, k: int): Coords {
    Coords(from.x + (if d.x > 0 then k else if d.x < 0 then -k else 0),
           from.y + (if d.y > 0 then k else if d.y < 0 then -k else 0))
  }

  /** The number of king steps a straight or diagonal move takes. */
  function Steps(from: Coords, to: Coords): nat {
    if Abs(to.x - from.x) >= Abs(to.y - from.y) then Abs(to.x - from.x) else Abs(to.y - from.y)
  }

  /** Straight or diagonal: the lines the sliding pieces move along. */
  predicate OnLine(from: Coords, to: Coords) {
    from.x == to.x || from.y == to.y || Abs(to.x - from.x) == Abs(to.y - from.y)
  }

  /** A sliding piece's pattern is a move along a line. */
  lemma SlidingPatternOnLine(mover: Piece, to: Coords)
    requires mover.kind == Rook || mover.kind == Bishop || mover.kind == Queen
    ensures IsValidMoveForCoords(mover, to) ==> OnLine(mover.current, to)
    ensures OnLine(mover.current, to) && mover.kind == Queen ==> IsValidMoveForCoords(mover, to)
  {
  }

  /** A blocking square of a sliding move lies on the line of the move, strictly before the destination. */
  lemma SlidingBlockerOnSegment(mover: Piece, from: Coords, to: Coords, other: Coords)
    requires mover.kind == Rook || mover.kind == Bishop || mover.kind == Queen
    requires mover.current == from && IsValidMoveForCoords(mover, to)
    requires Blocks(other, mover, from, to)
    ensures 0 < Steps(from, other) < Steps(from, to)
    ensures other == Step(from, MoveCase(from, to), Steps(from, other))
  {
    var mc := MoveCase(from, to);
    SlidingPatternOnLine(mover, to);
    SlidingPatternOnLine(mover, other);
    assert MoveCase(from, other) == mc;
  }

  /** Every square strictly between the ends of a sliding move blocks it. */
  lemma SlidingSegmentBlocks(mover: Piece, from: Coords, to: Coords, k: int)
    requires mover.kind == Rook || mover.kind == Bishop || mover.kind == Queen
    requires mover.current == from && IsValidMoveForCoords(mover, to)
    requires 0 < k < Steps(from, to)
    ensures Blocks(Step(from, MoveCase(from, to), k), mover, from, to)
  {
    var mc := MoveCase(from, to);
    var other := Step(from, mc, k);
    SlidingPatternOnLine(mover, to);
    assert MoveCase(from, other) == mc;
    assert Taxicab(from, other) < Taxicab(from, to);
  }

  /**
   * For the sliding pieces the blocking test means what chess means: a
   * square blocks exactly when it lies on the line of the move, strictly
   * between the origin and the destination.
   */
  lemma {:induction false} SlidingBlockerIsBetween(mover: Piece, from: Coords, to: Coords, other: Coords)
    requires mover.kind == Rook || mover.kind == Bishop || mover.kind == Queen
    requires mover.current == from && IsValidMoveForCoords(mover, to)
    ensures Blocks(other, mover, from, to) <==>
            (0 < Steps(from, other) < Steps(from, to) && other == Step(from, MoveCase(from, to), Steps(from, other)))
  {
    if Blocks(other, mover, from, to) {
      SlidingBlockerOnSegment(mover, from, to, other);
    }
    if 0 < Steps(from, other) < Steps(from, to) && other == Step(from, MoveCase(from, to), Steps(from, other)) {
      SlidingSegmentBlocks(mover, from, to, Steps(from, other));
    }
  }

  // ---------------------------------------------------------------------
  // The castling rook lookup
  // ---------------------------------------------------------------------

  /** Outcome of the search for a castling rook. */
  datatype RookSearch = RookFound(index: int) | PieceBetween | NoRook

  /**
   * Every layout cell that shows the rook glyph is also an index into the
   * roster. The source reads the roster entry whose index is the rook's
   * layout cell (a layout index used as a roster index, unchecked), so the
   * read is defined only then.
   */
  predicate RookCellsIndexed(layout: seq<char>, pieces: seq<Piece>, rookGlyph: char)
    requires |layout| == LayoutSize
  {
    forall k :: 0 <= k < 64 && layout[k] == rookGlyph ==> k < |pieces|
  }

  /**
   * The rook scan of castling, over layout cells `k..63` in order. For each
   * cell showing the rook glyph it examines the roster entry at that cell's
   * index: it skips the entry when it has moved or stands in another
   * direction from the destination; for the first that remains, it refuses
   * when that entry is more than one step away and the square one step past
   * the destination is occupied (the source tests that same square on every
   * pass of its between-scan), and otherwise takes that index as the rook's.
   */
  function CastlingScan(layout: seq<char>, pieces: seq<Piece>, rookGlyph: char, to: Coords, mc: Coords, k: nat): (s: RookSearch)
    requires |layout| == LayoutSize && k <= 64
    requires RookCellsIndexed(layout, pieces, rookGlyph)
    ensures s.RookFound? ==>
      k <= s.index < 64 && s.index < |pieces| && layout[s.index] == rookGlyph &&
      pieces[s.index].turnLastMoved == 0 && MoveCase(to, pieces[s.index].current) == mc &&
      (Taxicab(to, pieces[s.index].current) <= 1 || GlyphAtCoords(layout, Add(to, mc)) == Empty)
    ensures s.RookFound? && rookGlyph != Empty ==>
      forall j :: k <= j < s.index && layout[j] == rookGlyph ==>
        pieces[j].turnLastMoved != 0 || MoveCase(to, pieces[j].current) != mc
    decreases 64 - k
  {
    if k == 64 then NoRook
    else if layout[k] == Empty || layout[k] != rookGlyph then CastlingScan(layout, pieces, rookGlyph, to, mc, k + 1)
    else
      var rook := pieces[k];
      if rook.turnLastMoved != 0 then CastlingScan(layout, pieces, rookGlyph, to, mc, k + 1)
      else if MoveCase(to, rook.current) != mc then CastlingScan(layout, pieces, rookGlyph, to, mc, k + 1)
      else if Taxicab(to, rook.current) > 1 && GlyphAtCoords(layout, Add(to, mc)) != Empty then PieceBetween
      else RookFound(k)
  }

  /** With no rook glyph on the layout the scan finds no rook. */
  lemma {:induction false} CastlingScanNoRookGlyph(layout: seq<char>, pieces: seq<Piece>, rookGlyph: char, to: Coords, mc: Coords, k: nat)
    requires |layout| == LayoutSize && k <= 64
    requires forall j :: 0 <= j < 64 ==> layout[j] != rookGlyph
    ensures RookCellsIndexed(layout, pieces, rookGlyph)
    ensures CastlingScan(layout, pieces, rookGlyph, to, mc, k) == NoRook
    decreases 64 - k
  {
    if k < 64 {
      CastlingScanNoRookGlyph(layout, pieces, rookGlyph, to, mc, k + 1);
    }
  }

  // ---------------------------------------------------------------------
  // The validator
  // ---------------------------------------------------------------------

  /** The glyph of the opponent's pawn, as the validator derives it from the mover's glyph. */
  function OpponentPawn(moverGlyph: char): char {
    if moverGlyph == 'P' then 'p' else 'P'
  }

  /** The glyph of the opponent's king, as the validator derives it from the mover's glyph. */
  function OpponentKing(moverGlyph: char): char {
    if moverGlyph == 'K' then 'k' else 'K'
  }

  /** The side's rook glyph. */
  function RookGlyph(player1Side: bool): char {
    if player1Side then 'r' else 'R'
  }

  /** The square beside the origin that an en-passant capture takes from. */
  function EnPassantSquare(from: Coords, mc: Coords): Coords {
    Coords(from.x + mc.x, from.y)
  }

  /**
   * The roster lookups validation makes are defined: a piece stands at the
   * origin, a piece stands on the en-passant square when its cell shows the
   * opponent's pawn, and every cell showing the side's rook is a roster
   * index when a king moves two squares. The source indexes the roster with
   * -1, or past its end, otherwise.
   */
  predicate ProbesDefined(b: Board, s: Staged, from: Coords, to: Coords)
    requires |b.layout| == LayoutSize
  {
    from != to && !s.isTeleporting ==>
      var iFrom := LastIndexAt(b.pieces, from);
      iFrom >= 0 &&
      var mover := b.pieces[iFrom];
      var mc := MoveCase(from, to);
      (mover.kind == Pawn && Abs(mc.x) + Abs(mc.y) == 2 &&
       GlyphAtCoords(b.layout, EnPassantSquare(from, mc)) == OpponentPawn(PieceGlyph(mover))
       ==> FirstIndexAt(b.pieces, EnPassantSquare(from, mc)) >= 0) &&
      (mover.kind == King && Taxicab(from, to) == 2 ==> RookCellsIndexed(b.layout, b.pieces, RookGlyph(mover.player1Side)))
  }

  /** The record after the scan of the roster for the pieces at both squares. */
  function Locate(b: Board, from: Coords, to: Coords): (r: MoveResult)
    ensures !r.isValidMove && !r.isCastling && !r.isPromotion && !r.isEnPassant
    ensures LocatedFacts(b, from, to, r)
  {
    var iFrom := LastIndexAt(b.pieces, from);
    var iTo := LastIndexAt(b.pieces, to);
    DefaultMoveResult().(
      fromCoordsStr := SquareCoordsForBoardCoords(from),
      toCoordsStr := SquareCoordsForBoardCoords(to),
      pieceIndexFrom := iFrom,
      fromKind := if iFrom >= 0 then Some(b.pieces[iFrom].kind) else None,
      fromGlyph := if iFrom >= 0 then PieceGlyph(b.pieces[iFrom]) else Empty,
      pieceIndexTo := iTo,
      toKind := if iTo >= 0 then Some(b.pieces[iTo].kind) else None,
      toGlyph := if iTo >= 0 then PieceGlyph(b.pieces[iTo]) else Empty,
      pieceIndexToErase := iTo,
      isCapturing := iTo != -1)
  }

  /**
   * What the roster scan records: the last roster index at each square, the
   * glyphs of the pieces found there (`'.'` when none), and, unless an en
   * passant capture replaced it, a capture of exactly the piece on the
   * destination.
   */
  predicate LocatedFacts(b: Board, from: Coords, to: Coords, r: MoveResult) {
    r.pieceIndexFrom == LastIndexAt(b.pieces, from)
    && r.pieceIndexTo == LastIndexAt(b.pieces, to)
    && r.fromGlyph == (if r.pieceIndexFrom >= 0 then PieceGlyph(b.pieces[r.pieceIndexFrom]) else Empty)
    && r.toGlyph == (if r.pieceIndexTo >= 0 then PieceGlyph(b.pieces[r.pieceIndexTo]) else Empty)
    && (!r.isEnPassant ==> r.pieceIndexToErase == r.pieceIndexTo && (r.isCapturing <==> r.pieceIndexTo >= 0))
  }

  /** The later checks keep what the scan recorded. */
  predicate SameLocation(r: MoveResult, r': MoveResult) {
    r'.pieceIndexFrom == r.pieceIndexFrom && r'.pieceIndexTo == r.pieceIndexTo
    && r'.fromGlyph == r.fromGlyph && r'.toGlyph == r.toGlyph
    && r'.fromCoordsStr == r.fromCoordsStr && r'.toCoordsStr == r.toCoordsStr
    && (!r'.isEnPassant ==> r'.pieceIndexToErase == r.pieceIndexToErase && r'.isCapturing == r.isCapturing)
  }

  function Accept(r: MoveResult, s: Staged): (v: Verdict)
    ensures v.ok && v.result.isValidMove && v.staged == s.(isTeleporting := false)
    ensures SameLocation(r, v.result)
  {
    Verdict(true, r.(isValidMove := true), s.(isTeleporting := false))
  }

  function Reject(r: MoveResult, e: MoveError, s: Staged): (v: Verdict)
    requires !r.isValidMove
    ensures !v.ok && !v.result.isValidMove && v.result.error == e && v.staged == s
  {
    Verdict(false, r.(error := e), s)
  }

  /** The glyph a promotion installs: the side's queen under auto-promotion, else the staged glyph. */
  function PromotionGlyph(s: Staged, player1Turn: bool): char {
    if s.autoPromoteToQueen then (if player1Turn then 'q' else 'Q') else s.promoteToPiece
  }

  /**
   * `ChessMatch::CheckMoveValidity`. A move onto its own square answers
   * `true` with an invalid record; a teleport skips every rule but the
   * own-piece test; every other move must pass all rules of its piece.
   */
  function Validate(b: Board, s: Staged, from: Coords, to: Coords): (v: Verdict)
    requires |b.layout| == LayoutSize && ProbesDefined(b, s, from, to)
    ensures from == to ==> v.ok && !v.result.isValidMove && v.result.error == FromEqualsTo && v.staged == s
    ensures from != to ==> (v.ok <==> v.result.isValidMove)
    ensures !v.ok ==> v.staged.isTeleporting == s.isTeleporting
    ensures from != to && PlayerIndexAt(b.layout, to) == SideIndex(b.player1Turn) ==>
              !v.ok && v.result.error == ToIsOwnPiece && v.staged == s
    ensures v.result.isValidMove ==> from != to && LocatedFacts(b, from, to, v.result)
    ensures v.result.isValidMove ==>
              v.result.fromCoordsStr == SquareCoordsForBoardCoords(from) &&
              v.result.toCoordsStr == SquareCoordsForBoardCoords(to)
    ensures v.result.isValidMove && s.isTeleporting ==>
              !v.result.isCastling && !v.result.isPromotion && !v.result.isEnPassant &&
              v.staged == s.(isTeleporting := false)
    ensures v.result.isValidMove && !s.isTeleporting ==> ValidMoveFacts(b, s, from, to, v)
    ensures from != to && !s.isTeleporting && PromotionTargetMissing(b, s, from, to) ==> !v.ok
  {
    if from == to then Verdict(true, DefaultMoveResult().(error := FromEqualsTo), s)
    else
      var r := Locate(b, from, to);
      if PlayerIndexAt(b.layout, to) == SideIndex(b.player1Turn) then Reject(r, ToIsOwnPiece, s)
      else if s.isTeleporting then Accept(r, s)
      else RuleChecks(b, s, from, to, r)
  }

  /**
   * The piece found on the origin is a pawn stepping onto its far rank, and
   * neither a promotion glyph is staged nor auto-promotion set.
   */
  predicate PromotionTargetMissing(b: Board, s: Staged, from: Coords, to: Coords) {
    var i := LastIndexAt(b.pieces, from);
    0 <= i && b.pieces[i].kind == Pawn && ReachesEnd(PieceGlyph(b.pieces[i]), MoveCase(from, to), to)
    && s.promoteToPiece == NoPromotion && !s.autoPromoteToQueen
  }

  /** No roster piece blocks the move. */
  predicate NoBlocker(pieces: seq<Piece>, mover: Piece, from: Coords, to: Coords) {
    forall j :: 0 <= j < |pieces| ==> !Blocks(pieces[j].current, mover, from, to)
  }

  /** What an accepted en passant capture checked. */
  predicate EnPassantFacts(b: Board, from: Coords, to: Coords, r: MoveResult)
    requires |b.layout| == LayoutSize
  {
    var adj := EnPassantSquare(from, MoveCase(from, to));
    var mc := MoveCase(from, to);
    Abs(mc.x) + Abs(mc.y) == 2
    && r.isCapturing
    && GlyphAtCoords(b.layout, adj) == OpponentPawn(r.fromGlyph)
    && r.pieceIndexToErase == FirstIndexAt(b.pieces, adj)
    && 0 <= r.pieceIndexToErase < |b.pieces|
    && b.pieces[r.pieceIndexToErase].turnLastMoved == b.turnNumber - 1
    && Abs(b.pieces[r.pieceIndexToErase].current.y - b.pieces[r.pieceIndexToErase].previous.y) == 2
  }

  /**
   * What an accepted, non-teleporting move satisfies: the mover's pattern
   * reaches the destination, nothing blocks it (knights jump), the pawn's
   * occupancy and promotion rules (a promotion only with a staged glyph or
   * auto-promotion), the kings-apart rule, and castling exactly for a king's
   * taxicab-2 move. The staged promotion glyph is consumed, and
   * so is auto-promotion when it was used.
   */
  predicate ValidMoveFacts(b: Board, s: Staged, from: Coords, to: Coords, v: Verdict)
    requires |b.layout| == LayoutSize
  {
    var iFrom := LastIndexAt(b.pieces, from);
    var r := v.result;
    var mc := MoveCase(from, to);
    0 <= iFrom && r.pieceIndexFrom == iFrom &&
    var mover := b.pieces[iFrom];
    IsValidMoveForCoords(mover, to)
    && (mover.kind != Pawn ==> s.promoteToPiece == NoPromotion)
    && (mover.kind != Knight ==> NoBlocker(b.pieces, mover, from, to))
    && (r.isPromotion <==> mover.kind == Pawn && ReachesEnd(r.fromGlyph, mc, to))
    && (r.isPromotion ==> r.promoteGlyph == PromotionGlyph(s, b.player1Turn))
    && (r.isPromotion ==> s.promoteToPiece != NoPromotion || s.autoPromoteToQueen)
    && (r.isEnPassant ==> mover.kind == Pawn && EnPassantFacts(b, from, to, r))
    && (mover.kind == Pawn && mc.x == 0 ==> r.toGlyph == Empty)
    && (mover.kind == Pawn && mc.x != 0 ==> r.toGlyph != Empty || r.isEnPassant)
    && (mover.kind == King ==> !NextToGlyph(b.layout, to, OpponentKing(r.fromGlyph)))
    && (r.isCastling <==> mover.kind == King && Taxicab(from, to) == 2)
    && (r.isCastling ==> CastlingFacts(b, from, to, r))
    && v.staged == s.(promoteToPiece := NoPromotion, isTeleporting := false,
                      autoPromoteToQueen := s.autoPromoteToQueen && !r.isPromotion)
  }

  /** The per-kind rules, reached when not teleporting. */
  function RuleChecks(b: Board, s: Staged, from: Coords, to: Coords, r: MoveResult): (v: Verdict)
    requires |b.layout| == LayoutSize && from != to && !s.isTeleporting
    requires ProbesDefined(b, s, from, to) && r == Locate(b, from, to)
    ensures v.ok <==> v.result.isValidMove
    ensures !v.ok ==> v.staged.isTeleporting == s.isTeleporting
    ensures v.result.isValidMove ==> ValidMoveFacts(b, s, from, to, v) && SameLocation(r, v.result)
  {
    var mover := b.pieces[r.pieceIndexFrom];
    if mover.kind != Pawn && s.promoteToPiece != NoPromotion then Reject(r, PromoteNonPawn, s)
    else MoverChecks(b, s.(promoteToPiece := NoPromotion), s.promoteToPiece, from, to, r)
  }

  /**
   * The rules after the staged promotion glyph `promote` is consumed (`s`
   * holds the statics without it): the pattern, no blocker except for a
   * knight, then the pawn or king rules.
   */
  function MoverChecks(b: Board, s: Staged, promote: char, from: Coords, to: Coords, r: MoveResult): (v: Verdict)
    requires |b.layout| == LayoutSize && from != to && !s.isTeleporting && s.promoteToPiece == NoPromotion
    requires ProbesDefined(b, s.(promoteToPiece := promote), from, to) && r == Locate(b, from, to)
    requires b.pieces[r.pieceIndexFrom].kind != Pawn ==> promote == NoPromotion
    ensures v.ok <==> v.result.isValidMove
    ensures !v.ok ==> v.staged.isTeleporting == s.isTeleporting
    ensures v.result.isValidMove ==> ValidMoveFacts(b, s.(promoteToPiece := promote), from, to, v) && SameLocation(r, v.result)
  {
    var mover := b.pieces[r.pieceIndexFrom];
    if !IsValidMoveForCoords(mover, to) then Reject(r, AgainstPattern(mover.kind), s)
    else if mover.kind == Knight then Accept(r, s)
    else PathChecks(b, s, promote, from, to, r)
  }

  /** For a piece other than a knight whose pattern reaches the destination: no blocker, then the pawn or king rules. */
  function PathChecks(b: Board, s: Staged, promote: char, from: Coords, to: Coords, r: MoveResult): (v: Verdict)
    requires |b.layout| == LayoutSize && from != to && !s.isTeleporting && s.promoteToPiece == NoPromotion
    requires ProbesDefined(b, s.(promoteToPiece := promote), from, to) && r == Locate(b, from, to)
    requires b.pieces[r.pieceIndexFrom].kind != Pawn ==> promote == NoPromotion
    requires b.pieces[r.pieceIndexFrom].kind != Knight && IsValidMoveForCoords(b.pieces[r.pieceIndexFrom], to)
    ensures v.ok <==> v.result.isValidMove
    ensures !v.ok ==> v.staged.isTeleporting == s.isTeleporting
    ensures v.result.isValidMove ==> ValidMoveFacts(b, s.(promoteToPiece := promote), from, to, v) && SameLocation(r, v.result)
  {
    var mover := b.pieces[r.pieceIndexFrom];
    var k := FirstBlocker(b.pieces, mover, from, to);
    if k >= 0 then Reject(r, BlockedBy(mover.kind, b.pieces[k].kind, b.pieces[k].current), s)
    else if mover.kind == Pawn then PawnChecks(b, s, promote, from, to, r)
    else if mover.kind == King then KingChecks(b, s, from, to, r)
    else Accept(r, s)
  }

  /** The far rank test: an upper-case pawn moving north onto rank 7, a lower-case one moving south onto rank 0. */
  predicate ReachesEnd(moverGlyph: char, mc: Coords, to: Coords) {
    (moverGlyph == 'P' && mc.y == 1 && to.y == 7) || (moverGlyph == 'p' && mc.y == -1 && to.y == 0)
  }

  /**
   * The en passant condition of a diagonal pawn step: the cell beside the
   * origin shows the opponent's pawn, and the roster piece found on that
   * square advanced two ranks on the previous turn.
   */
  predicate EnPassantOpen(b: Board, from: Coords, to: Coords, moverGlyph: char)
    requires |b.layout| == LayoutSize
  {
    var adj := EnPassantSquare(from, MoveCase(from, to));
    GlyphAtCoords(b.layout, adj) == OpponentPawn(moverGlyph) &&
    var ti := FirstIndexAt(b.pieces, adj);
    0 <= ti && b.pieces[ti].turnLastMoved == b.turnNumber - 1 &&
    Abs(b.pieces[ti].current.y - b.pieces[ti].previous.y) == 2
  }

  /** The pawn rules: no straight capture, promotion on the far rank, diagonal only to capture. */
  function PawnChecks(b: Board, s: Staged, promote: char, from: Coords, to: Coords, r: MoveResult): (v: Verdict)
    requires |b.layout| == LayoutSize && from != to
    requires !r.isValidMove && !r.isEnPassant && !r.isPromotion && !r.isCastling
    requires ProbesDefined(b, s.(promoteToPiece := promote), from, to) && !s.isTeleporting
    requires 0 <= r.pieceIndexFrom < |b.pieces| && r.pieceIndexFrom == LastIndexAt(b.pieces, from)
    requires r.fromGlyph == PieceGlyph(b.pieces[r.pieceIndexFrom])
    requires b.pieces[r.pieceIndexFrom].kind == Pawn && IsValidMoveForCoords(b.pieces[r.pieceIndexFrom], to)
    ensures var mc := MoveCase(from, to);
            var missing := ReachesEnd(r.fromGlyph, mc, to) && promote == NoPromotion && !s.autoPromoteToQueen;
            (v.ok <==> !(mc.x == 0 && r.toGlyph != Empty) && !missing &&
                       (Abs(mc.x) + Abs(mc.y) == 2 ==> r.toGlyph != Empty || EnPassantOpen(b, from, to, r.fromGlyph))) &&
            (mc.x == 0 && r.toGlyph != Empty ==> v.result.error == PawnVerticalCapture) &&
            (!(mc.x == 0 && r.toGlyph != Empty) && missing ==> v.result.error == PromotionMissing) &&
            (!v.ok && !(mc.x == 0 && r.toGlyph != Empty) && !missing ==> v.result.error == PawnDiagonalToEmpty)
    ensures v.ok <==> v.result.isValidMove
    ensures !v.ok ==> v.staged == s || v.staged == s.(autoPromoteToQueen := false)
    ensures v.ok ==> v.staged == s.(isTeleporting := false, autoPromoteToQueen := s.autoPromoteToQueen && !v.result.isPromotion)
    ensures v.ok ==> SameLocation(r, v.result)
    ensures v.ok ==> (v.result.isPromotion <==> ReachesEnd(r.fromGlyph, MoveCase(from, to), to))
    ensures v.ok && v.result.isPromotion ==>
              v.result.promoteGlyph == PromotionGlyph(s.(promoteToPiece := promote), b.player1Turn) &&
              (promote != NoPromotion || s.autoPromoteToQueen)
    ensures v.ok && v.result.isEnPassant ==> EnPassantFacts(b, from, to, v.result)
    ensures v.ok && Abs(MoveCase(from, to).x) + Abs(MoveCase(from, to).y) == 2 && EnPassantOpen(b, from, to, r.fromGlyph) ==>
              v.result.isEnPassant && v.result.isCapturing &&
              v.result.pieceIndexToErase == FirstIndexAt(b.pieces, EnPassantSquare(from, MoveCase(from, to)))
    ensures !v.result.isCastling
  {
    var mc := MoveCase(from, to);
    if mc.x == 0 && r.toGlyph != Empty then Reject(r, PawnVerticalCapture, s)
    else
      var reachEnd := ReachesEnd(r.fromGlyph, mc, to);
      if reachEnd && promote == NoPromotion && !s.autoPromoteToQueen then Reject(r, PromotionMissing, s)
      else
        var r1 :=
          if !reachEnd then r
          else r.(promoteGlyph := PromotionGlyph(s.(promoteToPiece := promote), b.player1Turn), isPromotion := true);
        var s2 := if reachEnd && s.autoPromoteToQueen then s.(autoPromoteToQueen := false) else s;
        if Abs(mc.x) + Abs(mc.y) == 2 then EnPassantCheck(b, s2, from, to, r1, r.toGlyph)
        else Accept(r1, s2)
  }

  /**
   * The diagonal pawn step: it captures en passant, taking the roster piece
   * beside the origin, exactly when the en passant condition holds;
   * otherwise it needs a piece on the destination.
   */
  function EnPassantCheck(b: Board, s: Staged, from: Coords, to: Coords, r: MoveResult, toGlyph: char): (v: Verdict)
    requires |b.layout| == LayoutSize && !r.isValidMove && !r.isEnPassant && !r.isCastling
    requires Abs(MoveCase(from, to).x) + Abs(MoveCase(from, to).y) == 2
    requires GlyphAtCoords(b.layout, EnPassantSquare(from, MoveCase(from, to))) == OpponentPawn(r.fromGlyph)
             ==> FirstIndexAt(b.pieces, EnPassantSquare(from, MoveCase(from, to))) >= 0
    ensures v.result.isEnPassant <==> EnPassantOpen(b, from, to, r.fromGlyph)
    ensures v.ok <==> EnPassantOpen(b, from, to, r.fromGlyph) || toGlyph != Empty
    ensures v.result.isEnPassant ==>
              v.ok && v.result.isCapturing &&
              v.result.pieceIndexToErase == FirstIndexAt(b.pieces, EnPassantSquare(from, MoveCase(from, to)))
    ensures !v.ok ==> v.result.error == PawnDiagonalToEmpty
    ensures v.ok <==> v.result.isValidMove
    ensures !v.ok ==> v.staged == s
    ensures v.ok ==> v.staged == s.(isTeleporting := false) && SameLocation(r, v.result)
    ensures v.result.isEnPassant ==> EnPassantFacts(b, from, to, v.result)
    ensures v.result.isPromotion == r.isPromotion && !v.result.isCastling
    ensures v.result.promoteGlyph == r.promoteGlyph
  {
    var adj := EnPassantSquare(from, MoveCase(from, to));
    var r2 :=
      if GlyphAtCoords(b.layout, adj) == OpponentPawn(r.fromGlyph) then
        var ti := FirstIndexAt(b.pieces, adj);
        var victim := b.pieces[ti];
        if victim.turnLastMoved == b.turnNumber - 1 && Abs(victim.current.y - victim.previous.y) == 2
        then r.(isCapturing := true, isEnPassant := true, pieceIndexToErase := ti)
        else r
      else r;
    if !r2.isEnPassant && toGlyph == Empty then Reject(r2, PawnDiagonalToEmpty, s) else Accept(r2, s)
  }

  /** What the castling rook scan finds for a king's move, searching with its side's rook glyph. */
  function CastlingSearch(b: Board, from: Coords, to: Coords, king: Piece): RookSearch
    requires |b.layout| == LayoutSize && RookCellsIndexed(b.layout, b.pieces, RookGlyph(king.player1Side))
  {
    CastlingScan(b.layout, b.pieces, RookGlyph(king.player1Side), to, MoveCase(from, to), 0)
  }

  /** The king rules: never next to the enemy king; a two-square move castles. */
  function KingChecks(b: Board, s: Staged, from: Coords, to: Coords, r: MoveResult): (v: Verdict)
    requires |b.layout| == LayoutSize && from != to && !r.isValidMove && !r.isCastling && !r.isPromotion && !r.isEnPassant
    requires 0 <= r.pieceIndexFrom < |b.pieces|
    requires Taxicab(from, to) == 2 ==> RookCellsIndexed(b.layout, b.pieces, RookGlyph(b.pieces[r.pieceIndexFrom].player1Side))
    ensures v.ok <==>
              !NextToGlyph(b.layout, to, OpponentKing(r.fromGlyph)) &&
              (Taxicab(from, to) == 2 ==>
                 GlyphAtCoords(b.layout, to) == Empty && CastlingSearch(b, from, to, b.pieces[r.pieceIndexFrom]).RookFound?)
    ensures NextToGlyph(b.layout, to, OpponentKing(r.fromGlyph)) ==> v.result.error == KingsAdjacent
    ensures !v.ok && !NextToGlyph(b.layout, to, OpponentKing(r.fromGlyph)) ==>
              v.result.error == CastlingPieceBetween || v.result.error == CastlingRookMoved
    ensures v.ok <==> v.result.isValidMove
    ensures !v.ok ==> v.staged == s
    ensures v.ok ==> v.staged == s.(isTeleporting := false) && SameLocation(r, v.result)
    ensures !v.result.isPromotion && !v.result.isEnPassant
    ensures v.result.isCastling <==> v.ok && Taxicab(from, to) == 2
    ensures v.result.isCastling ==> CastlingFacts(b, from, to, v.result)
  {
    if NextToGlyph(b.layout, to, OpponentKing(r.fromGlyph)) then Reject(r, KingsAdjacent, s)
    else if Taxicab(from, to) == 2 then CastlingChecks(b, s, from, to, r)
    else Accept(r, s)
  }

  /**
   * An accepted castling: the destination cell is empty, and the rook is
   * the roster entry whose index is a layout cell showing the side's rook
   * glyph; that entry is unmoved, stands in the move's direction from the
   * destination, and lands one step back from the destination.
   */
  predicate CastlingFacts(b: Board, from: Coords, to: Coords, r: MoveResult)
    requires |b.layout| == LayoutSize
  {
    var mc := MoveCase(from, to);
    GlyphAtCoords(b.layout, to) == Empty
    && 0 <= r.rookIndex < 64 && r.rookIndex < |b.pieces|
    && 0 <= r.pieceIndexFrom < |b.pieces|
    && r.rookGlyph == RookGlyph(b.pieces[r.pieceIndexFrom].player1Side)
    && b.layout[r.rookIndex] == r.rookGlyph
    && r.rookFrom == b.pieces[r.rookIndex].current
    && b.pieces[r.rookIndex].turnLastMoved == 0
    && MoveCase(to, r.rookFrom) == mc
    && r.rookTo == Sub(to, mc)
  }

  /**
   * Castling: refused with "a piece is between" when the destination cell
   * is not empty or the scan stops at a blocked rook, refused with "the rook
   * has moved" when it finds none, and otherwise accepted with the rook the
   * scan found.
   */
  function CastlingChecks(b: Board, s: Staged, from: Coords, to: Coords, r: MoveResult): (v: Verdict)
    requires |b.layout| == LayoutSize && from != to && !r.isValidMove && !r.isCastling && !r.isPromotion && !r.isEnPassant
    requires 0 <= r.pieceIndexFrom < |b.pieces|
    requires RookCellsIndexed(b.layout, b.pieces, RookGlyph(b.pieces[r.pieceIndexFrom].player1Side))
    ensures var search := CastlingSearch(b, from, to, b.pieces[r.pieceIndexFrom]);
            (v.ok <==> GlyphAtCoords(b.layout, to) == Empty && search.RookFound?) &&
            (v.ok ==> v.result.rookIndex == search.index) &&
            (!v.ok ==> v.result.error ==
                         if GlyphAtCoords(b.layout, to) != Empty || search.PieceBetween? then CastlingPieceBetween
                         else CastlingRookMoved)
    ensures v.ok <==> v.result.isValidMove
    ensures !v.ok ==> v.staged == s
    ensures v.ok ==> v.staged == s.(isTeleporting := false) && SameLocation(r, v.result)
    ensures v.result.isCastling <==> v.ok
    ensures !v.result.isPromotion && !v.result.isEnPassant
    ensures v.result.isCastling ==> CastlingFacts(b, from, to, v.result)
  {
    var rookGlyph := RookGlyph(b.pieces[r.pieceIndexFrom].player1Side);
    var r1 := r.(rookGlyph := rookGlyph);
    if GlyphAtCoords(b.layout, to) != Empty then Reject(r1, CastlingPieceBetween, s)
    else
      var mc := MoveCase(from, to);
      match CastlingScan(b.layout, b.pieces, rookGlyph, to, mc, 0)
      case PieceBetween => Reject(r1, CastlingPieceBetween, s)
      case NoRook => Reject(r1, CastlingRookMoved, s)
      case RookFound(ri) =>
        Accept(r1.(isCastling := true, rookFrom := b.pieces[ri].current, rookTo := Sub(to, mc), rookIndex := ri), s)
  }

  // ---------------------------------------------------------------------
  // Validation of pawn and king moves, end to end
  // ---------------------------------------------------------------------

  /**
   * A pawn or king move, not teleporting and not onto an own piece, whose
   * pattern reaches the destination and that nothing blocks, is decided by
   * the pawn or the king rules alone.
   */
  lemma {:induction false} ValidateReachesKindRules(b: Board, s: Staged, from: Coords, to: Coords)
    requires |b.layout| == LayoutSize && ProbesDefined(b, s, from, to) && from != to && !s.isTeleporting
    requires PlayerIndexAt(b.layout, to) != SideIndex(b.player1Turn)
    requires var i := LastIndexAt(b.pieces, from);
             0 <= i && var mover := b.pieces[i];
             (mover.kind == Pawn || (mover.kind == King && s.promoteToPiece == NoPromotion)) &&
             IsValidMoveForCoords(mover, to) && NoBlocker(b.pieces, mover, from, to)
    ensures var r := Locate(b, from, to);
            var mover := b.pieces[LastIndexAt(b.pieces, from)];
            Validate(b, s, from, to) ==
              if mover.kind == Pawn then PawnChecks(b, s.(promoteToPiece := NoPromotion), s.promoteToPiece, from, to, r)
              else KingChecks(b, s, from, to, r)
  {
    var r := Locate(b, from, to);
    var mover := b.pieces[r.pieceIndexFrom];
    var s0 := s.(promoteToPiece := NoPromotion);
    assert FirstBlocker(b.pieces, mover, from, to) == -1;
    assert s0.(promoteToPiece := s.promoteToPiece) == s;
    calc {
      Validate(b, s, from, to);
      RuleChecks(b, s, from, to, r);
      MoverChecks(b, s0, s.promoteToPiece, from, to, r);
      PathChecks(b, s0, s.promoteToPiece, from, to, r);
    }
    if mover.kind == King {
      assert s0 == s;
    }
  }

  /**
   * The whole verdict on a knight, rook, bishop or queen move onto a square
   * the mover does not hold, when not teleporting: a staged promotion glyph
   * is refused, then a move outside the pattern, then (except for a knight,
   * which jumps) a move with a piece in the way, reported by the first
   * blocker in roster order; every other move is accepted, with nothing
   * consumed but the teleport flag.
   */
  lemma {:induction false} PlainPieceVerdict(b: Board, s: Staged, from: Coords, to: Coords)
    requires |b.layout| == LayoutSize && ProbesDefined(b, s, from, to) && from != to && !s.isTeleporting
    requires PlayerIndexAt(b.layout, to) != SideIndex(b.player1Turn)
    requires var i := LastIndexAt(b.pieces, from);
             0 <= i && b.pieces[i].kind in {Knight, Rook, Bishop, Queen}
    ensures var mover := b.pieces[LastIndexAt(b.pieces, from)];
            var v := Validate(b, s, from, to);
            (v.ok <==> s.promoteToPiece == NoPromotion && IsValidMoveForCoords(mover, to) &&
                       (mover.kind != Knight ==> NoBlocker(b.pieces, mover, from, to))) &&
            (v.ok ==> v.result.isValidMove && v.staged == s.(isTeleporting := false) &&
                      !v.result.isCastling && !v.result.isPromotion && !v.result.isEnPassant) &&
            (s.promoteToPiece != NoPromotion ==> v.result.error == PromoteNonPawn) &&
            (s.promoteToPiece == NoPromotion && !IsValidMoveForCoords(mover, to) ==>
               v.result.error == AgainstPattern(mover.kind)) &&
            (s.promoteToPiece == NoPromotion && IsValidMoveForCoords(mover, to) &&
             mover.kind != Knight && !NoBlocker(b.pieces, mover, from, to) ==>
               var k := FirstBlocker(b.pieces, mover, from, to);
               0 <= k && v.result.error == BlockedBy(mover.kind, b.pieces[k].kind, b.pieces[k].current))
  {
    var r := Locate(b, from, to);
    var mover := b.pieces[r.pieceIndexFrom];
    if s.promoteToPiece == NoPromotion && IsValidMoveForCoords(mover, to) && mover.kind != Knight {
      var k := FirstBlocker(b.pieces, mover, from, to);
      assert k == -1 <==> NoBlocker(b.pieces, mover, from, to);
      assert s.(promoteToPiece := NoPromotion) == s;
    }
  }

  /**
   * A diagonal pawn step that its pattern allows, that nothing blocks and
   * that either stays off the far rank or has a promotion target, is
   * accepted exactly when the destination holds a piece or the en passant
   * condition holds; under that condition it captures en passant the roster
   * piece beside the origin; otherwise it is refused as a diagonal step to
   * an empty square.
   */
  lemma {:induction false} DiagonalPawnStepVerdict(b: Board, s: Staged, from: Coords, to: Coords)
    requires |b.layout| == LayoutSize && ProbesDefined(b, s, from, to) && from != to && !s.isTeleporting
    requires PlayerIndexAt(b.layout, to) != SideIndex(b.player1Turn)
    requires var i := LastIndexAt(b.pieces, from);
             0 <= i && var pawn := b.pieces[i];
             pawn.kind == Pawn && IsValidMoveForCoords(pawn, to) && NoBlocker(b.pieces, pawn, from, to) &&
             Abs(to.x - from.x) == 1 && !PromotionTargetMissing(b, s, from, to)
    ensures var v := Validate(b, s, from, to);
            var pawn := b.pieces[LastIndexAt(b.pieces, from)];
            var open := EnPassantOpen(b, from, to, PieceGlyph(pawn));
            (v.ok <==> LastIndexAt(b.pieces, to) >= 0 || open) &&
            (open ==> v.result.isEnPassant && v.result.isCapturing &&
                      v.result.pieceIndexToErase == FirstIndexAt(b.pieces, EnPassantSquare(from, MoveCase(from, to)))) &&
            (!v.ok ==> v.result.error == PawnDiagonalToEmpty)
  {
    var i := LastIndexAt(b.pieces, from);
    var pawn := b.pieces[i];
    PawnPattern(pawn, to);
    var r := Locate(b, from, to);
    var mc := MoveCase(from, to);
    assert mc.x != 0 && Abs(mc.x) + Abs(mc.y) == 2;
    ValidateReachesKindRules(b, s, from, to);
    assert r.toGlyph != Empty <==> LastIndexAt(b.pieces, to) >= 0;
  }

  /**
   * A king's two-square move that its pattern allows, that nothing blocks
   * and that keeps the kings apart is accepted, as a castling with the rook
   * the scan finds, exactly when the destination cell is empty and the scan
   * finds a rook; otherwise it is refused with one of the two castling
   * messages.
   */
  lemma {:induction false} KingTwoStepVerdict(b: Board, s: Staged, from: Coords, to: Coords)
    requires |b.layout| == LayoutSize && ProbesDefined(b, s, from, to) && from != to && !s.isTeleporting
    requires PlayerIndexAt(b.layout, to) != SideIndex(b.player1Turn) && s.promoteToPiece == NoPromotion
    requires var i := LastIndexAt(b.pieces, from);
             0 <= i && var king := b.pieces[i];
             king.kind == King && IsValidMoveForCoords(king, to) && NoBlocker(b.pieces, king, from, to) &&
             Taxicab(from, to) == 2 && !NextToGlyph(b.layout, to, OpponentKing(PieceGlyph(king)))
    ensures var v := Validate(b, s, from, to);
            var search := CastlingSearch(b, from, to, b.pieces[LastIndexAt(b.pieces, from)]);
            (v.ok <==> GlyphAtCoords(b.layout, to) == Empty && search.RookFound?) &&
            (v.ok ==> v.result.isCastling && v.result.rookIndex == search.index) &&
            (!v.ok ==> v.result.error ==
                         if GlyphAtCoords(b.layout, to) != Empty || search.PieceBetween? then CastlingPieceBetween
                         else CastlingRookMoved)
  {
    var r := Locate(b, from, to);
    ValidateReachesKindRules(b, s, from, to);
    assert KingChecks(b, s, from, to, r) == CastlingChecks(b, s, from, to, r);
  }
}
