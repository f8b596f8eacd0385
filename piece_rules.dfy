/**
 * Pieces, their glyphs and the per-kind movement geometry of
 * `ChessPiece::IsValidMoveForCoords`.
 *
 * Side 0 plays the upper-case glyphs `PRNBQK` and moves toward higher
 * ranks; side 1 (`player1Side`) plays the lower-case glyphs `prnbqk` and
 * moves toward lower ranks.
 */
module PieceRules {
  import opened Wrappers
  import opened BoardCoords

  datatype PieceKind = Pawn | Rook | Knight | Bishop | Queen | King

  /** A live piece of the roster: kind, owner, position history and the turn it last moved (0 = never). */
  datatype Piece = Piece(kind: PieceKind, player1Side: bool, current: Coords, previous: Coords, turnLastMoved: int)

  /** The glyph of the fixed definition table: upper case for side 0, lower case for side 1. */
  function GlyphOf(kind: PieceKind, player1Side: bool): (g: char)
    ensures player1Side <==> 'a' <= g <= 'z'
    ensures !player1Side <==> 'A' <= g <= 'Z'
  {
    var upper := match kind
      case Pawn => 'P'
      case Rook => 'R'
      case Knight => 'N'
      case Bishop => 'B'
      case Queen => 'Q'
      case King => 'K';
    if player1Side then (upper as int + 32) as char else upper
  }

  function PieceGlyph(p: Piece): char {
    GlyphOf(p.kind, p.player1Side)
  }

  /** `ChessPieceDefinition::GetByGlyph` over the fixed table: either case names the kind. */
  function KindOfGlyph(g: char): Option<PieceKind> {
    match g
    case 'P' => Some(Pawn)   case 'p' => Some(Pawn)
    case 'R' => Some(Rook)   case 'r' => Some(Rook)
    case 'N' => Some(Knight) case 'n' => Some(Knight)
    case 'B' => Some(Bishop) case 'b' => Some(Bishop)
    case 'Q' => Some(Queen)  case 'q' => Some(Queen)
    case 'K' => Some(King)   case 'k' => Some(King)
    case _ => None
  }

  predicate IsPieceGlyph(g: char) {
    KindOfGlyph(g).Some?
  }

  /** The side that owns a glyph: 0 for `PRNBQK`, 1 for `prnbqk`, -1 for anything else. */
  function PlayerIndexForGlyph(g: char): (i: int)
    ensures i == 0 || i == 1 || i == -1
    ensures i != -1 <==> IsPieceGlyph(g)
    ensures i == 1 ==> 'a' <= g <= 'z'
    ensures i == 0 ==> 'A' <= g <= 'Z'
  {
    if g in {'P', 'R', 'N', 'B', 'Q', 'K'} then 0
    else if g in {'p', 'r', 'n', 'b', 'q', 'k'} then 1
    else -1
  }

  lemma {:induction false} GlyphRoundTrip(kind: PieceKind, player1Side: bool)
    ensures KindOfGlyph(GlyphOf(kind, player1Side)) == Some(kind)
    ensures PlayerIndexForGlyph(GlyphOf(kind, player1Side)) == (if player1Side then 1 else 0)
  {
  }

  /** A table glyph names its kind and, by its case, its side: the glyph of that kind and side is the glyph itself. */
  lemma {:induction false} KindOfGlyphRoundTrip(g: char)
    requires IsPieceGlyph(g)
    ensures GlyphOf(KindOfGlyph(g).value, PlayerIndexForGlyph(g) == 1) == g
  {
    match g
    case 'P' => case 'p' => case 'R' => case 'r' => case 'N' => case 'n' =>
    case 'B' => case 'b' => case 'Q' => case 'q' => case 'K' => case 'k' =>
  }

  /** Two pieces that show the same glyph have the same kind and side. */
  lemma GlyphInjective(k1: PieceKind, s1: bool, k2: PieceKind, s2: bool)
    requires GlyphOf(k1, s1) == GlyphOf(k2, s2)
    ensures k1 == k2 && s1 == s2
  {
    GlyphRoundTrip(k1, s1);
    GlyphRoundTrip(k2, s2);
  }

  function Abs(n: int): nat {
    if n < 0 then -n else n
  }

  /** `ChessPiece::IsValidMoveForCoords`: the movement pattern alone, ignoring every other piece. */
  predicate IsValidMoveForCoords(p: Piece, next: Coords) {
    var absDistX := Abs(next.x - p.current.x);
    var absDistY := Abs(next.y - p.current.y);
    var taxicabDist := absDistX + absDistY;
    var firstMove := p.turnLastMoved == 0;
    var movesDiagonally := absDistX == absDistY;
    var movesStraight := next.x == p.current.x || next.y == p.current.y;
    var diagonallyNear := taxicabDist == 2 && movesDiagonally;
    var forwardSign := if p.player1Side then -1 else 1;
    var movesForward := (next.y - p.current.y) * forwardSign > 0;
    match p.kind
    case Pawn =>
      movesForward && ((movesStraight && ((firstMove && absDistY == 2) || absDistY == 1)) || diagonallyNear)
    case King =>
      taxicabDist == 1 || diagonallyNear || (firstMove && absDistX == 2 && absDistY == 0)
    case Rook => movesStraight
    case Bishop => movesDiagonally
    case Knight => (absDistX == 1 && absDistY == 2) || (absDistX == 2 && absDistY == 1)
    case Queen => movesDiagonally || movesStraight
  }

  // ---------------------------------------------------------------------
  // Reference geometry, stated as sets of offsets, and its agreement with
  // the pattern predicate.
  // ---------------------------------------------------------------------

  function Offset(p: Piece, next: Coords): Coords {
    Coords(next.x - p.current.x, next.y - p.current.y)
  }

  /** The eight L-shaped knight jumps. */
  const KnightJumps: set<Coords> :=
    {Coords(1, 2), Coords(2, 1), Coords(-1, 2), Coords(-2, 1),
     Coords(1, -2), Coords(2, -1), Coords(-1, -2), Coords(-2, -1)}

  /** The eight neighbouring squares. */
  const KingSteps: set<Coords> :=
    {Coords(1, 0), Coords(-1, 0), Coords(0, 1), Coords(0, -1),
     Coords(1, 1), Coords(1, -1), Coords(-1, 1), Coords(-1, -1)}

  /** The squares a pawn may reach by pattern: one ahead, one diagonally ahead, two ahead when unmoved. */
  function PawnSteps(player1Side: bool, firstMove: bool): set<Coords> {
    var f := if player1Side then -1 else 1;
    {Coords(0, f), Coords(-1, f), Coords(1, f)} + (if firstMove then {Coords(0, 2 * f)} else {})
  }

  lemma KnightPattern(p: Piece, next: Coords)
    requires p.kind == Knight
    ensures IsValidMoveForCoords(p, next) <==> Offset(p, next) in KnightJumps
  {
  }

  /** A king moves to a neighbour, or two files sideways on its first move. */
  lemma KingPattern(p: Piece, next: Coords)
    requires p.kind == King
    ensures IsValidMoveForCoords(p, next) <==>
            (Offset(p, next) in KingSteps ||
             (p.turnLastMoved == 0 && Offset(p, next) in {Coords(2, 0), Coords(-2, 0)}))
  {
    var o := Offset(p, next);
    if IsValidMoveForCoords(p, next) && o !in KingSteps {
      assert Abs(o.x) == 2 && o.y == 0;
    }
  }

  /** A pawn's pattern: forward only, one square straight or diagonal, or two straight while unmoved. */
  lemma PawnPattern(p: Piece, next: Coords)
    requires p.kind == Pawn
    ensures IsValidMoveForCoords(p, next) <==> Offset(p, next) in PawnSteps(p.player1Side, p.turnLastMoved == 0)
  {
    var o := Offset(p, next);
    if IsValidMoveForCoords(p, next) {
      if o.x == 0 {
        assert o in PawnSteps(p.player1Side, p.turnLastMoved == 0);
      } else {
        assert Abs(o.x) == 1 && Abs(o.y) == 1;
      }
    }
  }

  /** A pawn pattern is accepted only when it moves forward for its side. */
  lemma PawnMovesForward(p: Piece, next: Coords)
    requires p.kind == Pawn && IsValidMoveForCoords(p, next)
    ensures !p.player1Side ==> next.y > p.current.y
    ensures p.player1Side ==> next.y < p.current.y
  {
  }

  /** The one-step forward diagonal is a pawn pattern whatever stands on the destination. */
  lemma PawnDiagonalAlwaysPattern(p: Piece, dx: int)
    requires p.kind == Pawn && (dx == 1 || dx == -1)
    ensures IsValidMoveForCoords(p, Coords(p.current.x + dx, p.current.y + (if p.player1Side then -1 else 1)))
  {
  }

  /** A two-rank pawn step is a pattern exactly when the pawn has never moved. */
  lemma PawnDoubleStepOnlyFirst(p: Piece)
    requires p.kind == Pawn
    ensures IsValidMoveForCoords(p, Coords(p.current.x, p.current.y + (if p.player1Side then -2 else 2)))
            <==> p.turnLastMoved == 0
  {
  }

  /** The queen's pattern is the union of the rook's and the bishop's. */
  lemma QueenIsRookOrBishop(p: Piece, next: Coords)
    requires p.kind == Queen
    ensures IsValidMoveForCoords(p, next) <==>
            (IsValidMoveForCoords(p.(kind := Rook), next) || IsValidMoveForCoords(p.(kind := Bishop), next))
  {
  }

  /** Rook: same file or same rank. Bishop: as many files as ranks. */
  lemma SlidingPatterns(p: Piece, next: Coords)
    ensures p.kind == Rook ==> (IsValidMoveForCoords(p, next) <==> (Offset(p, next).x == 0 || Offset(p, next).y == 0))
    ensures p.kind == Bishop ==> (IsValidMoveForCoords(p, next) <==> Abs(Offset(p, next).x) == Abs(Offset(p, next).y))
  {
  }
}
