/**
 * The records and constants a match is made of: the move-validation record
 * (`ChessMoveResult`), the rejection reasons, the result encoding and the
 * board size.
 */
module MatchTypes {
  import opened Wrappers
  import opened BoardCoords
  import opened PieceRules

  /** The layout holds exactly one cell per square. */
  const LayoutSize: nat := 64

  /** The empty cell of a layout. */
  const Empty: char := '.'

  /** The "no promotion requested" marker of the staged promotion glyph. */
  const NoPromotion: char := '?'

  // Match result encoding.
  const Player0Wins: int := 0
  const Player1Wins: int := 1
  const DrawResult: int := 2
  const Undetermined: int := -1

  /** A match starts at turn number 1. */
  const FirstTurn: int := 1

  /** Every way a move can be refused, one per rejection path of the validator. */
  datatype MoveError =
    | UnknownError
    | FromEqualsTo
    | ToIsOwnPiece
    | PromoteNonPawn
    | AgainstPattern(mover: PieceKind)
    | BlockedBy(mover: PieceKind, blocker: PieceKind, at: Coords)
    | PawnVerticalCapture
    | PromotionMissing
    | PawnDiagonalToEmpty
    | KingsAdjacent
    | CastlingPieceBetween
    | CastlingRookMoved

  /** The English name that stands in for a piece definition's display name. */
  function KindName(k: PieceKind): string {
    match k
    case Pawn => "Pawn"
    case Rook => "Rook"
    case Knight => "Knight"
    case Bishop => "Bishop"
    case Queen => "Queen"
    case King => "King"
  }

  /** The console text of each rejection. */
  function Message(e: MoveError): string {
    match e
    case UnknownError => "UNKNOWN ERROR"
    case FromEqualsTo => "Invalid format: FROM piece is equal to TO piece"
    case ToIsOwnPiece => "Invalid TO args: TO Piece is your piece"
    case PromoteNonPawn => "Invalid move: cannot promote non-pawn piece"
    case AgainstPattern(m) => "Invalid move: " + KindName(m) + " cannot move to this place by rule"
    case BlockedBy(m, b, at) =>
      "Invalid move: " + KindName(m) + " is blocked by " + KindName(b) + " at " + SquareCoordsForBoardCoords(at)
    case PawnVerticalCapture => "Invalid move: pawn cannot move vertically to capture TO piece"
    case PromotionMissing => "Invalid args: moving pawn to far rank without promoteTo args"
    case PawnDiagonalToEmpty => "Invalid move: pawn cannot move diagonally to empty TO coords"
    case KingsAdjacent => "Invalid move: kings cannot be adjacent to each other"
    case CastlingPieceBetween => "Invalid move: cannot perform castling, a piece is between the king and rook"
    case CastlingRookMoved => "Invalid move: cannot perform castling, the rook has moved"
  }

  /**
   * `ChessMoveResult`. The piece names of the source are carried as kinds;
   * `rookIndex` is the rook's roster index (see the rook lookup in MoveRules).
   */
  datatype MoveResult = MoveResult(
    pieceIndexToErase: int,
    pieceIndexFrom: int,
    pieceIndexTo: int,
    fromKind: Option<PieceKind>,
    toKind: Option<PieceKind>,
    fromCoordsStr: string,
    toCoordsStr: string,
    fromGlyph: char,
    toGlyph: char,
    error: MoveError,
    rookIndex: int,
    rookFrom: Coords,
    rookTo: Coords,
    rookGlyph: char,
    promoteGlyph: char,
    isValidMove: bool,
    isCastling: bool,
    isPromotion: bool,
    isEnPassant: bool,
    isCapturing: bool)

  /** A freshly constructed `ChessMoveResult`: invalid, nothing flagged, no index, unknown error. */
  function DefaultMoveResult(): (r: MoveResult)
    ensures !r.isValidMove && !r.isCastling && !r.isPromotion && !r.isEnPassant && !r.isCapturing
    ensures r.pieceIndexToErase == -1 && r.pieceIndexFrom == -1 && r.pieceIndexTo == -1 && r.rookIndex == -1
    ensures Message(r.error) == "UNKNOWN ERROR"
    ensures r.fromGlyph == Empty && r.toGlyph == Empty && r.rookGlyph == Empty && r.promoteGlyph == Empty
  {
    MoveResult(-1, -1, -1, None, None, "", "", '.', '.', UnknownError,
               -1, Coords(0, 0), Coords(0, 0), '.', '.', false, false, false, false, false)
  }

  /** Only the default error carries the "UNKNOWN ERROR" text. */
  lemma {:induction false} OnlyDefaultIsUnknown(e: MoveError)
    requires e != UnknownError
    ensures Message(e) != "UNKNOWN ERROR"
  {
    match e
    case AgainstPattern(m) =>
      assert Message(e)[..14] == "Invalid move: ";
    case BlockedBy(m, b, at) =>
      assert Message(e)[..14] == "Invalid move: ";
    case _ =>
  }

  /** `ChessMatch::GetGameStateAsString`: the three-valued status shown to the peer. */
  function GameStateString(matchEnds: bool, player1Turn: bool): (s: string)
    ensures s == "GameOver" <==> matchEnds
    ensures !matchEnds ==> (s == "Player2Moving" <==> player1Turn)
  {
    if matchEnds then "GameOver"
    else if player1Turn then "Player2Moving"
    else "Player1Moving"
  }

  /** The side index of the side to move: 0 or 1. */
  function SideIndex(player1Turn: bool): int {
    if player1Turn then 1 else 0
  }
}
