# Chess3D: a verified model of the match rules and the console protocol

Chess3D is a two-player 3D chess game. Players type commands at a developer
console, and a peer-to-peer network link carries them to the other side.
This project models the game's core in Dafny and proves properties of that
model. The core is:

- the board coordinate helpers (`GameCommon.cpp`);
- the per-piece movement pattern (`ChessPiece::IsValidMoveForCoords`);
- the match (`ChessMatch`). It checks a move against the board and the
  piece roster (`CheckMoveValidity`) and applies it to both (`MovePiece`).
  It also keeps the class-wide command state: the staged squares, the
  promotion glyph, the end of the match, the result and the side to move;
- the console protocol (`Game::Event_Chess*`). It covers who may issue
  which command, what is sent to the opponent and relayed to spectators,
  and how the session and the match change.

## Structure

- `wrappers.dfy` (module `Wrappers`): `Option`.
- `board_coords.dfy` (module `BoardCoords`): square names, board coordinates and cell indices, with C++ integer division.
- `piece_rules.dfy` (module `PieceRules`): the glyph table, the piece record and the movement pattern of each kind.
- `match_types.dfy` (module `MatchTypes`): the move-result record, its error messages, result codes, the game-state text.
- `move_rules.dfy` (module `MoveRules`): `Validate`: the checks of `CheckMoveValidity` as pure functions, one per branch.
- `move_effects.dfy` (module `MoveEffects`): `ApplyMove`: what `MovePiece` does to the layout, the roster, the turn and the result; layout/roster agreement.
- `board_setup.dfy` (module `BoardSetup`): the roster built from a layout, the layout loaded from a string.
- `commands.dfy` (module `Commands`): console arguments as a key-ordered map; `GetValue`, `SetValue`, boolean arguments, the command-line text.
- `match_commands.dfy` (module `MatchCommands`): the `ChessMatch` statics as a class and the `chessmove`/`resign` commands.
- `chess_match.dfy` (module `ChessMatchModel`): the `ChessMatch` object: layout array, roster, turn number; its methods proved against the functions above.
- `protocol.dfy` (module `Protocol`): the `Game` handlers, with the network as an outbox of requests.

The board layout is an `array<char>` of 64 cells. The roster is a sequence
of piece records. Both change in place, as in the source. Each method of
`ChessMatch` is proved equal to a pure specification function:
`CheckMoveValidity` to `Validate`, and `MovePiece` to `ApplyMove`. The
properties are then proved about those functions. The main invariant is
`MoveEffects.Agree`: every roster piece stands on a distinct on-board cell
holding its glyph, and every cell holding a piece glyph is occupied by a
roster piece. Several lemmas show where the source breaks this invariant
(en passant, diagonal castling, promotion after an earlier capture). They
model the code as written.

## Model

| member | source | states |
|---|---|---|
| BoardCoords.TruncDiv | Code/Game/GameCommon.cpp:244-248 | C++ division truncates toward zero: a negative dividend gives the negated quotient of its magnitude |
| BoardCoords.TruncMod | Code/Game/GameCommon.cpp:244-248 | the C++ remainder takes the dividend's sign and is smaller than the divisor |
| BoardCoords.BoardCoordsForUserString | Code/Game/GameCommon.cpp:173-230 | a name is a valid square exactly when its coordinates are on the board; an invalid name gives (-1,-1); the rank digit gives the row |
| BoardCoords.BoardStateIndexForUserString | Code/Game/GameCommon.cpp:231-236 | a valid square name gives a cell 0..63, an invalid one -9 |
| BoardCoords.SquareCoordsForBoardCoords | Code/Game/GameCommon.cpp:237-243 | two characters; on-board coordinates print as a valid square name with an upper-case file |
| BoardCoords.PrintThenParse | Code/Game/GameCommon.cpp:209-243 | printing a square and reading the text back gives the same square |
| BoardCoords.ParseThenPrint | Code/Game/GameCommon.cpp:209-243 | reading a valid name and printing it gives the name with its file upper-cased |
| BoardCoords.FileCaseInsensitive | Code/Game/GameCommon.cpp:209-230 | two names with the same rank denote the same square iff they agree once the file is upper-cased |
| BoardCoords.IndexThenCoords | Code/Game/GameCommon.cpp:244-253 | every cell index survives conversion to coordinates and back |
| BoardCoords.CoordsThenIndex | Code/Game/GameCommon.cpp:244-253 | on-board coordinates give a cell 0..63 that converts back to them |
| BoardCoords.IndexOnBoard | Code/Game/GameCommon.cpp:244-248 | each cell 0..63 lies on the board |
| BoardCoords.ValidIffIndexRoundTrips | Code/Game/GameCommon.cpp:196-253 | coordinates are on the board iff their index is a cell that converts back to them |
| BoardCoords.OffBoardIndexWraps | Code/Game/GameCommon.cpp:249-253 | the off-board (-1,3) has the same index as (7,2): the index alone does not detect the board edge |
| PieceRules.GlyphOf | Code/Game/ChessMatch.cpp:956-970 | side 1 pieces use lower-case glyphs, side 0 upper-case |
| PieceRules.PlayerIndexForGlyph | Code/Game/ChessMatch.cpp:956-970 | 0 for the six upper-case piece glyphs, 1 for the lower-case ones, -1 for anything else |
| PieceRules.GlyphRoundTrip | Code/Game/ChessMatch.cpp:956-970 | a kind's glyph reads back as that kind and that side |
| PieceRules.KindOfGlyphRoundTrip | Code/Game/ChessMatch.cpp:956-970 | every piece glyph is the glyph of the kind and side it reads as |
| PieceRules.GlyphInjective | Code/Game/ChessMatch.cpp:956-970 | different kinds or sides never share a glyph |
| PieceRules.KnightPattern | Code/Game/ChessPiece.cpp:153-156 | a knight may go exactly to the eight L-shaped offsets |
| PieceRules.KingPattern | Code/Game/ChessPiece.cpp:138-144 | a king may step to the eight neighbours, or two files sideways before its first move |
| PieceRules.PawnPattern | Code/Game/ChessPiece.cpp:105-137 | a pawn may go one forward, two forward on its first move, or one diagonally forward |
| PieceRules.PawnMovesForward | Code/Game/ChessPiece.cpp:101-109 | a pawn's accepted move always increases its row for side 0 and decreases it for side 1 |
| PieceRules.PawnDiagonalAlwaysPattern | Code/Game/ChessPiece.cpp:96-134 | the pattern accepts a forward diagonal step whether or not anything can be captured |
| PieceRules.PawnDoubleStepOnlyFirst | Code/Game/ChessPiece.cpp:95-110 | the two-square step is accepted iff the pawn has not moved |
| PieceRules.QueenIsRookOrBishop | Code/Game/ChessPiece.cpp:145-160 | a queen's moves are exactly the union of a rook's and a bishop's |
| PieceRules.SlidingPatterns | Code/Game/ChessPiece.cpp:145-152 | a rook moves along a row or file, a bishop along a diagonal |
| MatchTypes.DefaultMoveResult | Code/Game/ChessMatch.hpp:16-48 | a fresh move result is invalid, has no special flags, indices -1, empty glyphs and the message "UNKNOWN ERROR" |
| MatchTypes.OnlyDefaultIsUnknown | Code/Game/ChessMatch.cpp:402-683 | every rejection path gives a message other than the default one |
| MatchTypes.GameStateString | Code/Game/ChessMatch.cpp:913-927 | "GameOver" iff the match has ended, else "Player2Moving" iff side 1 is to move |
| MoveRules.MoveCase | Code/Game/ChessMatch.cpp:1023-1051 | the sign of the file and rank differences from one square to another, zero exactly for equal squares |
| MoveRules.Nearby8Exactly | Code/Game/ChessMatch.cpp:588-603 | the eight probed squares are exactly the neighbours at distance one |
| MoveRules.GlyphAtCoords | Code/Game/ChessMatch.cpp:929-937 | an on-board square reads its cell; an index outside 0..63 reads '?' |
| MoveRules.GlyphAtOffBoardReadsWrappedCell | Code/Game/ChessMatch.cpp:929-937 | a square just off the left or right edge reads the cell at the other end of the neighbouring row |
| MoveRules.PlayerIndexAt | Code/Game/ChessMatch.cpp:956-970 | the side owning a square, -1 exactly when it holds no piece glyph |
| MoveRules.FirstIndexAt | Code/Game/ChessMatch.cpp:972-983 | the first roster piece standing on a square, or -1 when none does |
| MoveRules.LastIndexAt | Code/Game/ChessMatch.cpp:424-452 | the last roster piece standing on a square (the scan keeps overwriting), or -1 |
| MoveRules.FirstIsLastWhenUnique | Code/Game/ChessMatch.cpp:424-452 | with at most one piece per square both lookups agree |
| MoveRules.FirstBlocker | Code/Game/ChessMatch.cpp:486-515 | the first roster piece that blocks the move, or -1 when nothing blocks |
| MoveRules.SlidingPatternOnLine | Code/Game/ChessMatch.cpp:486-515 | every pattern-valid slide lies on a row, file or diagonal, and a queen accepts every such line |
| MoveRules.SlidingBlockerOnSegment | Code/Game/ChessMatch.cpp:486-515 | a piece counted as blocking a slide lies strictly between its two ends |
| MoveRules.SlidingSegmentBlocks | Code/Game/ChessMatch.cpp:486-515 | every square strictly between the two ends of a slide counts as blocking |
| MoveRules.SlidingBlockerIsBetween | Code/Game/ChessMatch.cpp:486-515 | for a slide, the distance test blocks exactly the squares strictly between its ends |
| MoveRules.CastlingScan | Code/Game/ChessMatch.cpp:624-660 | each rook cell is checked through the roster entry whose index is that cell number. A found rook is the entry at the first such cell that is unmoved, lies in the king's direction and has nothing next to the king's destination when not adjacent; every earlier rook cell's entry is moved or lies in another direction |
| MoveRules.CastlingScanNoRookGlyph | Code/Game/ChessMatch.cpp:605-668 | with no rook glyph on the board the scan finds no rook |
| MoveRules.Locate | Code/Game/ChessMatch.cpp:409-452 | the lookup fills in the from and to pieces' indices and glyphs and sets no flag |
| MoveRules.Accept | Code/Game/ChessMatch.cpp:668-682 | an accepted move is valid, keeps the located pieces and clears the teleport flag |
| MoveRules.Reject | Code/Game/ChessMatch.cpp:402-683 | a rejected move carries its error and leaves the staged state alone |
| MoveRules.Validate | Code/Game/ChessMatch.cpp:402-683 | equal squares are reported as such and are no valid move; otherwise the verdict is validity; a destination holding the mover's own piece is refused; a pawn reaching the far rank with no promotion glyph and no auto-promotion is refused; an accepted move names both squares; a teleported move has no castling, promotion or en passant; every other accepted move meets the pattern, blocking, pawn, king and castling facts; the converse is stated per kind by `PlainPieceVerdict` (knight, rook, bishop, queen), `DiagonalPawnStepVerdict` and `KingTwoStepVerdict` |
| MoveRules.RuleChecks | Code/Game/ChessMatch.cpp:461-680 | acceptance is validity; an accepted move satisfies the pattern, blocking and per-kind facts, among them that a pawn reaching the far rank had a promotion glyph or auto-promotion |
| MoveRules.MoverChecks | Code/Game/ChessMatch.cpp:473-486 | after the glyph is consumed: acceptance is validity; an accepted move satisfies the pattern, blocking and per-kind facts, the promotion requirement included |
| MoveRules.PathChecks | Code/Game/ChessMatch.cpp:485-680 | for a non-knight within its pattern: acceptance is validity; an accepted move has no blocker and satisfies the pawn facts (the promotion requirement included) and the king facts |
| MoveRules.PawnChecks | Code/Game/ChessMatch.cpp:517-585 | a pawn move is accepted exactly when it is no straight move onto a piece, no far-rank move without a promotion glyph or auto-promotion, and, when diagonal, has a piece to capture or an open en passant; each refusal has its own error; an open en passant is always taken, erasing the pawn beside the origin; a far-rank move is a promotion to the staged or queen glyph |
| MoveRules.EnPassantCheck | Code/Game/ChessMatch.cpp:555-584 | en passant is taken exactly when an opponent pawn beside the origin moved two squares on the previous turn, and then erases that pawn; the step is accepted exactly when en passant is open or the destination holds a piece, else it is refused as a diagonal move to an empty square |
| MoveRules.KingChecks | Code/Game/ChessMatch.cpp:587-678 | a king move is accepted exactly when it does not land next to the other king and, for a two-square move, the destination is empty and the rook search finds a rook; the refusals carry the adjacent-kings, piece-between or rook-moved error; it is castling iff accepted with a two-square move |
| MoveRules.CastlingChecks | Code/Game/ChessMatch.cpp:605-668 | castling is accepted exactly when the destination is empty and the rook search finds a rook, whose cell becomes the rook index; a refusal is piece-between when the destination or the square next to it is taken, else rook-moved |
| MoveRules.ValidateReachesKindRules | Code/Game/ChessMatch.cpp:461-517 | an unblocked pattern-valid pawn or king move onto a square the mover does not hold is decided by the pawn or king rules alone |
| MoveRules.PlainPieceVerdict | Code/Game/ChessMatch.cpp:461-515 | a knight, rook, bishop or queen move onto a square the mover does not hold, not teleported, is accepted iff no promotion glyph is staged, the pattern reaches the destination and (except for a knight) no piece is in the way; an accepted one is no castling, promotion or en passant and only clears the teleport flag; a refusal names the staged glyph, the pattern, or the first blocker in roster order |
| MoveRules.DiagonalPawnStepVerdict | Code/Game/ChessMatch.cpp:517-585 | an unblocked diagonal pawn step is accepted iff a piece stands on the destination or en passant is open; when open it is en passant erasing the pawn beside the origin; otherwise the error is a diagonal move to an empty square |
| MoveRules.KingTwoStepVerdict | Code/Game/ChessMatch.cpp:587-668 | an unblocked two-square king move away from the other king is accepted iff the destination is empty and the rook search finds a rook; it is then castling with that rook; a refusal has the piece-between or rook-moved error |
| MoveEffects.CellSquare | Code/Game/GameCommon.cpp:244-253 | cell numbering is a bijection between on-board squares and 0..63 |
| MoveEffects.CellInjective | Code/Game/GameCommon.cpp:249-253 | distinct on-board squares have distinct cells |
| MoveEffects.SetCell | Code/Game/ChessMatch.cpp:900-906 | writing a glyph changes that one cell only |
| MoveEffects.Erase | Code/Game/ChessMatch.cpp:778 | erasing a roster entry shifts the later entries down by one |
| MoveEffects.ApplyMove | Code/Game/ChessMatch.cpp:731-815 | a capture shortens the roster by one; capturing a king ends the match with the other side winning; otherwise the turn number grows and the side to move flips |
| MoveEffects.AgreeEmptyIffFree | Code/Game/ChessMatch.cpp:858-898 | under agreement a cell is empty iff no roster piece stands on it |
| MoveEffects.RelocateKeepsAgreement | Code/Game/ChessMatch.cpp:378-393 | moving a piece to a free square on both the layout and the roster keeps them in agreement |
| MoveEffects.EraseKeepsAgreement | Code/Game/ChessMatch.cpp:778 | clearing a piece's cell and erasing it from the roster keeps agreement |
| MoveEffects.PromoteKeepsAgreement | Code/Game/ChessMatch.cpp:395-400 | changing a piece's kind and its cell's glyph to a glyph of its side keeps agreement |
| MoveEffects.MoveThenEraseCommute | Code/Game/ChessMatch.cpp:740-778 | erasing after the move equals moving the re-indexed piece after the erase |
| MoveEffects.CaptureKeepsAgreement | Code/Game/ChessMatch.cpp:740-778 | a capture on the destination keeps agreement |
| MoveEffects.NotOccupiedAfterErase | Code/Game/ChessMatch.cpp:778 | a square held by one piece is free once that piece is erased |
| MoveEffects.MoveCaptureKeepsAgreement | Code/Game/ChessMatch.cpp:740-778 | a move with or without a capture on the destination keeps agreement |
| MoveEffects.ApplyRecordKeepsAgreement | Code/Game/ChessMatch.cpp:731-815 | applying a located, non-castling, non-en-passant result keeps agreement |
| MoveEffects.PlainApplyShape | Code/Game/ChessMatch.cpp:740-801 | without castling the new state is the move, then the capture, then the promotion |
| MoveEffects.ApplyKeepsAgreement | Code/Game/ChessMatch.cpp:685-815 | every validated move keeps agreement except en passant, diagonal castling, castling whose rook entry is not on its cell, a promotion after an earlier capture, and a promotion under a glyph of the other side |
| MoveEffects.KingPassBlocks | Code/Game/ChessMatch.cpp:486-515 | the square a castling king passes counts as blocking its move |
| MoveEffects.CastlingKeepsAgreement | Code/Game/ChessMatch.cpp:731-744 | a validated castling along the back rank keeps agreement when the roster entry at the rook's cell number stands on that cell |
| MoveEffects.CastlingRecordKeepsAgreement | Code/Game/ChessMatch.cpp:731-744 | a horizontal castling record with an unmoved rook, a free destination, no blocker and its rook entry on its cell keeps agreement once applied |
| MoveEffects.LocatedMoveKeepsAgreement | Code/Game/ChessMatch.cpp:740-778 | moving the located piece, and erasing the captured one, keeps agreement |
| MoveEffects.CastlingMovesEntryAtRookCell | Code/Game/ChessMatch.cpp:731-737 | as written: when the roster entry at the rook's cell number is another piece, castling moves that entry to the rook's landing square while the layout shows the rook there, and agreement breaks |
| MoveEffects.EnPassantLeavesStaleCell | Code/Game/ChessMatch.cpp:747-779 | as written: after en passant the captured pawn leaves the roster but its glyph stays on the layout |
| MoveEffects.EnPassantRecordLeavesStaleCell | Code/Game/ChessMatch.cpp:747-779 | as written: the same for any en passant result the pawn rules produce |
| MoveEffects.EnPassantBoardVerdict | Code/Game/ChessMatch.cpp:555-584 | on a board where black has just double-stepped d7-d5 beside a white pawn on e5, e5 to d6 is accepted as en passant erasing the black pawn |
| MoveEffects.EnPassantStaleCellExample | Code/Game/ChessMatch.cpp:747-779 | as written, on that board: after e5 to d6 the layout still shows 'p' on d5 while no roster piece stands there |
| MoveEffects.DiagonalCastlingStrandsRook | Code/Game/ChessMatch.cpp:605-744 | as written: a two-square diagonal king step is accepted as castling, and the rook lands on the king's old cell while the layout shows it empty |
| MoveEffects.DiagonalCastlingBoardVerdict | Code/Game/ChessMatch.cpp:605-668 | on a board with an unmoved rook on a1 and a king on d3, d3 to c2 is accepted as castling with the a1 rook |
| MoveEffects.DiagonalCastlingAcceptedBreaks | Code/Game/ChessMatch.cpp:605-744 | as written: any accepted diagonal castling breaks agreement |
| MoveEffects.DiagonalCastlingExample | Code/Game/ChessMatch.cpp:605-744 | as written, on that board: d3 to c2 is accepted and leaves the rook on d3 while its cell shows empty |
| MoveEffects.PromotionAfterEarlierCaptureHitsNextPiece | Code/Game/ChessMatch.cpp:778-796 | as written: when the captured piece comes earlier in the roster, the promotion changes the next piece's kind instead of the pawn's |
| MoveEffects.PromotionAfterEarlierCaptureRecord | Code/Game/ChessMatch.cpp:778-796 | as written, for any located promoting capture of an earlier roster entry: the pawn stays a pawn under a promoted glyph, the next piece changes kind, and agreement breaks |
| MoveEffects.PromotionBoardVerdict | Code/Game/ChessMatch.cpp:517-585 | on a board with a white rook on a1 (first entry) and a black pawn on b2, b2 takes a1 with auto-promotion to 'q' |
| MoveEffects.PromotionCaptureAcceptedBreaks | Code/Game/ChessMatch.cpp:778-796 | as written: an accepted promoting capture of an earlier roster entry breaks agreement |
| MoveEffects.PromotionExample | Code/Game/ChessMatch.cpp:778-796 | as written, on that board: after b2 takes a1 the pawn stays a pawn under 'q' and the black king becomes a queen |
| MoveEffects.ForeignPromotionGlyphBreaks | Code/Game/ChessMatch.cpp:461-471 | as written: when the staged promotion glyph belongs to the other side (left by a teleported move, which does not consume it), an accepted promotion shows that glyph on a piece of the mover's side, and agreement breaks |
| MoveEffects.ForeignPromotionRecord | Code/Game/ChessMatch.cpp:791-796 | as written: applying a promotion record whose glyph is of the other side leaves the promoted piece's glyph different from the one its cell shows |
| MoveEffects.DiagonalKingStepRefused | Code/Game/ChessMatch.cpp:587-668 | as written: a one-square diagonal king step that the pattern accepts is refused with "the rook has moved" |
| BoardSetup.NewPiece | Code/Game/ChessMatch.cpp:869-896 | a new piece shows its glyph, stands where it was created and has not moved |
| BoardSetup.RosterUpToFacts | Code/Game/ChessMatch.cpp:858-898 | the roster built from the first cells has pieces on distinct squares matching their cells and covers every piece glyph there |
| BoardSetup.RosterOfAgrees | Code/Game/ChessMatch.cpp:858-898 | a layout of piece glyphs and empty cells gives a roster in agreement with it |
| BoardSetup.StrayGlyphDisagrees | Code/Game/ChessMatch.cpp:869-877 | a cell holding a character that is neither empty nor a piece glyph breaks agreement |
| BoardSetup.RosterOfUnmoved | Code/Game/ChessMatch.cpp:869-896 | every piece of a new roster is unmoved and has no earlier square |
| BoardSetup.LayoutFromString | Code/Game/ChessMatch.cpp:853-856 | the first 64 characters of the text replace the cells; cells beyond a shorter text keep their glyphs |
| BoardSetup.FullTextFixesLayout | Code/Game/ChessMatch.cpp:853-856 | a text of 64 or more characters fixes the whole layout whatever it was |
| BoardSetup.LoadOwnTextIsIdentity | Code/Game/ChessMatch.cpp:853-913 | loading the board's own text leaves it unchanged |
| Commands.KeyLessIrreflexive | Code/Game/Game.cpp:2032-2039 | no key orders before itself |
| Commands.KeyLessTransitive | Code/Game/Game.cpp:2032-2039 | key order is transitive |
| Commands.KeyLessTotal | Code/Game/Game.cpp:2032-2039 | two different keys are ordered one way or the other |
| Commands.SortedKeysDistinct | Code/Game/Game.cpp:2032-2039 | a key-ordered argument list has no repeated key |
| Commands.GetValue | Code/Game/ChessMatch.cpp:1068-1131 | a missing key gives the default; a present one gives the value stored under it |
| Commands.SetValue | Code/Game/ChessMatch.cpp:716-726 | setting keeps the list ordered, adds the pair, and keeps every pair for another key |
| Commands.GetAfterSet | Code/Game/ChessMatch.cpp:716-726 | a value just set is read back |
| Commands.GetAfterSetOther | Code/Game/ChessMatch.cpp:716-726 | setting one key leaves the others' values alone |
| Commands.BoolArg | Code/Game/Game.cpp:2062-2068 | 1 exactly for "true", 0 exactly for no value or "false", -1 for anything else |
| Commands.JoinCons | Code/Game/Game.cpp:2032-2041 | joining a list with a first piece puts that piece first |
| Commands.ArgsTextCons | Code/Game/Game.cpp:2032-2041 | the text of a list is its first pair's piece followed by the rest's text |
| Commands.SkippedKeyNotInText | Code/Game/Game.cpp:2471-2481 | adding a pair whose key is skipped does not change the command text |
| MatchCommands.PromotionKind | Code/Game/ChessMatch.cpp:1098-1109 | only the four lower-case names are accepted, and none names a pawn or a king |
| MatchCommands.SideGlyph | Code/Game/ChessMatch.cpp:1124-1128 | the glyph of a kind in the case of the side to move |
| MatchCommands.ParseMoveCommand | Code/Game/ChessMatch.cpp:1068-1131 | an accepted command has two arguments or more, two valid squares, a teleport flag read from "true", and a promotion glyph of the named kind for the side to move |
| MatchCommands.PrintedSquaresAccepted | Code/Game/ChessMatch.cpp:1068-1131 | a command naming two different printed squares is accepted and stages exactly those squares |
| MatchCommands.CapitalisedPromotionRefused | Code/Game/ChessMatch.cpp:1098-1109 | "Queen" is not one of the accepted names: the whole command is refused |
| MatchCommands.CaseVariantSameSquareAccepted | Code/Game/ChessMatch.cpp:1076-1096 | as written: "e2" to "E2" passes the textual from-equals-to test and stages a move onto its own square |
| MatchCommands.MatchStatics.constructor | Code/Game/ChessMatch.hpp:111-120 | the statics start with no staged move, no promotion, no end, no result, side 0 to move |
| MatchCommands.MatchStatics.ResetMatchData | Code/Game/ChessMatch.cpp:842-851 | the staged squares, promotion, end, result and side to move are reset; auto-promotion and teleport are kept |
| MatchCommands.MatchStatics.EventChessMove | Code/Game/ChessMatch.cpp:1068-1131 | answers whether the command parses; a refused command changes nothing; an accepted one stages its squares, teleport flag and promotion glyph |
| MatchCommands.MatchStatics.EventResign | Code/Game/ChessMatch.cpp:1133-1152 | always handled; with no argument, in a running match, the side to move loses |
| MatchCommands.MatchStatics.SetMatchResultAndEndTheGame | Code/Game/ChessMatch.cpp:371-376 | the match ends with the given result and nothing else changes |
| ChessMatchModel.ScanReachesFirstListedCell | Code/Game/ChessMatch.cpp:605-668 | the castling scan skips straight to the next cell holding the rook glyph |
| ChessMatchModel.ScanAtRookCell | Code/Game/ChessMatch.cpp:626-660 | at a rook cell the scan reads the roster entry of that index: it skips a moved or misdirected entry, else finds it or reports a piece in between |
| ChessMatchModel.RookCellStep | Code/Game/ChessMatch.cpp:626-660 | the i-th listed rook cell indexes the roster, and when its entry is not passed over, the whole scan stops there with that entry's verdict |
| ChessMatchModel.RelayValues | Code/Game/ChessMatch.cpp:713-724 | the relay carries the result's two squares, "true" for teleport only when teleporting, "Queen" only for a promotion, and no remote mark |
| ChessMatchModel.ReceivedValues | Code/Game/ChessMatch.cpp:716-727 | the relayed command, once marked remote, carries both squares, the teleport flag and "Queen" for a promotion |
| ChessMatchModel.RelayedMoveReplays | Code/Game/ChessMatch.cpp:708-727 | the opponent reads a relayed non-promotion move back as the same two squares, with no teleport: the flag is already cleared when the relay is built |
| ChessMatchModel.RelayedPromotionRefused | Code/Game/ChessMatch.cpp:723-726 | as written: a relayed promotion says "Queen", which the receiving command refuses |
| ChessMatchModel.StagedMoveGate | Code/Game/ChessMatch.cpp:260-303 | a staged move reaches the validator iff the squares differ, the match runs, the origin is the mover's and the destination is not |
| ChessMatchModel.EndedMatchStopsEveryMove | Code/Game/ChessMatch.cpp:270-274 | once the match has ended, every staged pair of different squares is stopped as "match ended" |
| ChessMatchModel.ChessMatch.constructor | Code/Game/ChessMatch.cpp:33-60 | the layout is loaded from the default board over an empty array, the roster is empty, and the starting side is set |
| ChessMatchModel.ChessMatch.SetBoardStateByString | Code/Game/ChessMatch.cpp:853-856 | the layout becomes `LayoutFromString` of the old layout and the text |
| ChessMatchModel.ChessMatch.InitPiecesToMatchBoardState | Code/Game/ChessMatch.cpp:858-898 | the roster is rebuilt from the layout and agrees with it when every cell is empty or a piece |
| ChessMatchModel.ChessMatch.GetPieceIndexForCoords | Code/Game/ChessMatch.cpp:972-983 | the loop returns the first roster piece on the square, or -1 |
| ChessMatchModel.ChessMatch.GetIndexArrForGlyph | Code/Game/ChessMatch.cpp:939-954 | the loop lists, in order, every cell holding the glyph |
| ChessMatchModel.ChessMatch.FindBlocker | Code/Game/ChessMatch.cpp:486-515 | the loop finds the first blocking roster piece, or -1 |
| ChessMatchModel.ChessMatch.GlyphNextTo | Code/Game/ChessMatch.cpp:588-603 | the loop finds whether a neighbour of the square holds the glyph |
| ChessMatchModel.ChessMatch.FindCastlingRook | Code/Game/ChessMatch.cpp:605-668 | the nested loops over the rook cells, reading the roster entry at each cell number, and over the squares between give the castling scan's answer |
| ChessMatchModel.ChessMatch.ExamineRookCell | Code/Game/ChessMatch.cpp:628-658 | the entry at the rook cell stops the scan iff it is unmoved and in the king's direction, and then the answer is a piece in between or that cell |
| ChessMatchModel.ChessMatch.CheckPawnRules | Code/Game/ChessMatch.cpp:517-585 | the pawn branch gives the verdict and staged state of `PawnChecks`, so a far-rank move with no promotion glyph and no auto-promotion is refused, and touches no other static |
| ChessMatchModel.ChessMatch.CheckEnPassant | Code/Game/ChessMatch.cpp:555-584 | the en passant branch gives `EnPassantCheck`: taken exactly when open |
| ChessMatchModel.ChessMatch.CheckKingRules | Code/Game/ChessMatch.cpp:587-678 | the king branch gives `KingChecks`, with its acceptance condition and refusal errors |
| ChessMatchModel.ChessMatch.LocatePieces | Code/Game/ChessMatch.cpp:409-452 | the roster scan gives `Locate` |
| ChessMatchModel.ChessMatch.CheckPieceRules | Code/Game/ChessMatch.cpp:461-471 | the promotion test and the consumed glyph give `RuleChecks` |
| ChessMatchModel.ChessMatch.CheckMoverRules | Code/Game/ChessMatch.cpp:473-486 | the pattern test and the knight's acceptance give `MoverChecks` |
| ChessMatchModel.ChessMatch.CheckPathRules | Code/Game/ChessMatch.cpp:485-683 | the blocking scan and the pawn and king branches give `PathChecks`, the promotion refusal included |
| ChessMatchModel.ChessMatch.CheckMoveValidity | Code/Game/ChessMatch.cpp:402-683 | the whole check gives `Validate`'s verdict, result and staged state, leaving the other statics alone; the properties of `Validate` then hold of it, among them the if-and-only-if verdicts of `PlainPieceVerdict`, `DiagonalPawnStepVerdict` and `KingTwoStepVerdict` |
| ChessMatchModel.ChessMatch.SetPieceToCoords | Code/Game/ChessMatch.cpp:900-906 | one cell changes to the glyph |
| ChessMatchModel.ChessMatch.MovePieceOnLayout | Code/Game/ChessMatch.cpp:378-383 | the origin cell empties and the destination cell takes the glyph |
| ChessMatchModel.ChessMatch.MovePieceInVector | Code/Game/ChessMatch.cpp:385-393 | the piece moves to the square, remembers where it was and the turn it moved |
| ChessMatchModel.ChessMatch.ChangePieceForIndex | Code/Game/ChessMatch.cpp:395-400 | the cell takes the new glyph and the piece the new kind |
| ChessMatchModel.ChessMatch.RelocatePieces | Code/Game/ChessMatch.cpp:731-744 | the castling rook (when flagged) and then the mover are moved on the layout and in the roster, as `ApplyMove`'s first steps |
| ChessMatchModel.ChessMatch.ApplyRecord | Code/Game/ChessMatch.cpp:731-815 | the board, the end and the result become those of `ApplyMove` |
| ChessMatchModel.ChessMatch.EraseFromRoster | Code/Game/ChessMatch.cpp:778 | the captured entry leaves the roster, later entries shift down |
| ChessMatchModel.ChessMatch.MovePiece | Code/Game/ChessMatch.cpp:685-815 | a refused move changes nothing; an accepted one gives `ApplyMove`; the relay to the opponent is built iff the move was accepted on this peer's own turn while playing remotely and not spectating |
| ChessMatchModel.ChessMatch.UpdateMovePieceCommand | Code/Game/ChessMatch.cpp:260-303 | a staged pair of different squares is cleared; a move the gate stops changes nothing and reports why; one it lets through is made or refused exactly as `MovePiece`; the side to move flips iff a move is made and the match goes on |
| Protocol.PeerSend | Code/Game/Game.cpp:2720-2751 | a line goes to the opponent only from a listening server or a connected client |
| Protocol.SpectatorSend | Code/Game/Game.cpp:2753-2786 | only a server relays, marked `fromServer=true`, and never to the opponent |
| Protocol.SendNow | Code/Game/Game.cpp:2788-2823 | a line goes out at once only from a listening server or a connected client |
| Protocol.ChoosePort | Code/Game/Game.cpp:1826-1845 | the requested port when valid, else the previous one when valid, else none |
| Protocol.ChooseAddress | Code/Game/Game.cpp:1924-1943 | the given address (the previous one when none is given) when valid, else the previous one when valid, else none |
| Protocol.FirstPlayerIndex | Code/Game/Game.cpp:2244-2263 | a seat index or -1, and -1 exactly for a name that is neither empty, one's own nor the opponent's; no name picks one's own seat |
| Protocol.BeginResolvesSameStarter | Code/Game/Game.cpp:2244-2278 | with distinct names the receiver of a `ChessBegin` line picks the same starting seat as its sender |
| Protocol.EqualNamesSplitTheStart | Code/Game/Game.cpp:2244-2278 | with equal names the two peers each pick their own seat |
| Protocol.NatText | Code/Game/Game.cpp:2413-2418 | a printed number is a non-empty string of digits |
| Protocol.NatTextValue | Code/Game/Game.cpp:2370-2418 | a printed number reads back as itself |
| Protocol.PlainValidationSkipsTurnCheck | Code/Game/Game.cpp:2370-2384 | a validation sent without a move number is never compared on turn: the receiver reads the empty number as its own turn |
| Protocol.PrintedTurnIsChecked | Code/Game/Game.cpp:2370-2384 | a validation carrying a printed turn that differs from the receiver's is a mismatch |
| Protocol.Announcement | Code/Game/Game.cpp:2264-2278 | a received command is never sent back to the opponent, and a spectator sends nothing |
| Protocol.CommandLine | Code/Game/Game.cpp:2030-2041 | the loop builds the name followed by ` key=value` for every pair in key order whose key is not skipped |
| Protocol.RemoteMarkNotRelayed | Code/Game/Game.cpp:2471-2481 | the relayed `ChessMove` line is the same whether or not the received arguments carry the remote mark |
| Protocol.Game.SetOutgoingData | Code/Game/Game.cpp:2720-2751 | the opponent's line is queued when connected, and success is reported exactly then |
| Protocol.Game.SetOutgoingDataToAllSpectators | Code/Game/Game.cpp:2753-2786 | a server queues the marked line for the spectators; success for a server or a connected client |
| Protocol.Game.SpectatorCheck | Code/Game/Game.cpp:2862-2881 | a spectator connected to a server may act only on a command its server relayed |
| Protocol.Game.EnterState | Code/Game/Game.cpp:542-583 | attract discards the match and the draw offer and resets six match statics (the staged squares, the promotion glyph, the end flag, the result and the side to move) while auto-promotion and the teleport flag are kept; playing starts a match from the default board with the chosen seat to move and keeps the staged state, the staged squares, the end flag and the result as they were |
| Protocol.Game.EventChessMove | Code/Game/Game.cpp:2450-2514 | both squares valid and the remote flag readable; a self-issued move is sent to the opponent (a spectator's is staged locally); a received one is relayed to spectators and staged |
| Protocol.Game.EventChessResign | Code/Game/Game.cpp:2522-2558 | a self-issued resignation makes the opponent's seat win, a received one this peer's seat |
| Protocol.Game.EventChessOfferDraw | Code/Game/Game.cpp:2568-2619 | needs a match; a pending offer is accepted instead and reported as failure; a received offer becomes pending |
| Protocol.Game.EventChessAcceptDraw | Code/Game/Game.cpp:2630-2674 | a self-issued acceptance needs a pending offer and clears it; either way the match ends drawn |
| Protocol.Game.EventChessRejectDraw | Code/Game/Game.cpp:2675-2716 | a self-issued rejection needs a pending offer and clears it; the match goes on |
| Protocol.Game.EventChessDisconnect | Code/Game/Game.cpp:2059-2130 | a self-issued disconnect sends its line at once and drops every connection; a received one drops them unless a spectator sent it; dropping leaves a match for the attract state, resetting the six match statics and keeping auto-promotion and the teleport flag |
| Protocol.Game.EventChessPlayerInfo | Code/Game/Game.cpp:2139-2213 | renames this seat (self-issued) or the other seat (received), refusing a clash with the other name or an empty received name; distinct non-empty names stay so |
| Protocol.Game.EventChessBegin | Code/Game/Game.cpp:2223-2283 | needs the models loaded and a first player naming a seat; starts a new match with that seat to move and announces it; the end flag, the result and the staged state carry over, so a match begun after one ended makes no move |
| Protocol.Game.StageMove | Code/Game/Game.cpp:2492-2510 | the match's move command is applied to the match statics: the staged squares, teleport flag and promotion glyph change as `ParseMoveCommand` says |
| Protocol.Game.HandleTurnChange | Code/Game/Game.cpp:602-605 | the draw offer can no longer be answered and the current seat becomes the side to move; the session and the outbox are unchanged |
| Protocol.Game.SendOwnMove | Code/Game/ChessMatch.cpp:707-725 | a move this seat made goes to the opponent as a `ChessMove` line marked `remote=true`, and nothing else changes |
| Protocol.Game.UpdateMatchMove | Code/Game/ChessMatch.cpp:685-815 | the match's move step: the relay is sent iff the move was made on this seat's turn while playing remotely and not spectating, naming the printed squares; when a move is made and the match goes on the side to move flips, the draw offer lapses and the current seat follows; otherwise none of these change; in an ended match no move is made and the board, end flag and result stay |
| Protocol.Game.ResolveBegin | Code/Game/Game.cpp:2244-2264 | the starting seat is `FirstPlayerIndex` of the named player, and the line names the given player or this peer's own name |
| Protocol.Game.StartMatch | Code/Game/Game.cpp:2279-2280 | the chosen seat moves first in a new match on the default board; the end flag, the result and the staged state are kept |
| Protocol.Game.FailValidation | Code/Game/Game.cpp:2380-2383 | a `VALIDATION_FAILED` disconnect: the line is sent at once, every connection is dropped and the game returns to the attract state; leaving a match resets the six match statics and keeps auto-promotion and the teleport flag |
| Protocol.Game.FillValidation | Code/Game/Game.cpp:2391-2431 | each missing or differing value is replaced by the local one |
| Protocol.Game.EventChessValidate | Code/Game/Game.cpp:2303-2438 | a received validation that disagrees with the local game raises a `VALIDATION_FAILED` disconnect and one that agrees changes nothing; a self-issued one, refused to spectators, sends the local values |
| Protocol.Game.EventChessListen | Code/Game/Game.cpp:1822-1884 | stops spectating, listens on the chosen port and takes the first seat; a client connection is dropped first; an uninitialised network refuses |
| Protocol.Game.EventChessConnect | Code/Game/Game.cpp:1898-1999 | connects to the chosen address and port as player or spectator and takes the second seat; a listening server is stopped first; an uninitialised network refuses |
| Protocol.Game.EventRemoteCmd | Code/Game/Game.cpp:2019-2048 | sends the named command with every other pair, in key order, marked `remote=true` |

## Left out

- Rendering, raycast selection, the camera, audio, the clock and the console's log messages are not modelled. `HandleTurnChange` is modelled without its camera move and console output; `HandleMatchEnd` only moves the camera and prints, and is not modelled.
- The cached result `s_hasPreDefinedResult`/`s_chessMoveResult` is not modelled. Only the mouse path that is left out sets it, so `MovePiece` always validates.
- Piece definitions come from XML data. The model uses the standard glyph table (`PNBRQK`, lower case for side 1). A piece's display name is not modelled. Error texts are an enumeration whose `Message` gives the source's text.
- ChessMatchModel.ChessMatch.CheckMoveValidity: requires `ProbesDefined`. The source reads the roster out of range in three cases. It indexes at -1 when no piece stands on the origin. It indexes at a rook cell number that is not a roster index when a king moves two squares. It indexes at -1 on a pawn's diagonal step when the square beside the origin shows an opponent pawn glyph with no roster piece on it (`ChessMatch.cpp:560-564`); that is exactly the stale cell an en passant capture leaves (`EnPassantLeavesStaleCell`). The model excludes those inputs instead of modelling the out-of-range reads.
- ChessMatchModel.ChessMatch.MovePiece: requires `MoveDefined` (every index the move result names is in range). The source's behaviour on a stale roster is undefined.
- The castling rook is read as the source reads it: the roster entry whose index is the rook's cell number (`m_pieces[rookIndexArr[i]]`), and that entry is the one castling moves. On the default board this is the right piece only while the roster is untouched: once an entry before it is erased, a different piece is read (after the f1 bishop is captured, cell 7 of the h1 rook reads the a2 pawn's entry, and white's kingside castling is refused as "the rook has moved"), and `CastlingMovesEntryAtRookCell` shows the damage. Black's rook cells (56, 63) lie past a 32-entry roster, where the source reads out of range. The model requires `RookCellsIndexed` (every rook cell is a roster index) for castling moves and does not model that out-of-range read; the agreement lemmas about castling also require the rook entry to stand on its cell (`RookEntryOnItsCell`).
- The board text is taken as the 64 cells. The source builds it with `std::string(m_layout)` on an unterminated 64-character array.
- `GetValidationOfBooleanArgs` and the network system's port and address validity tests are engine code that is not part of this model. The first is `BoolArg` ("", "false", "true"). The validity tests are function parameters.
- `std::stoi` is a total function parameter `stoi` here. The C++ one throws on text that is not a number or is out of range, and the source catches nothing. So a received `ChessValidate` with `move=abc` during a match (`Game.cpp:2370`), or a `ChessListen`/`ChessConnect` with `port=abc` (`Game.cpp:1826`, `Game.cpp:1904`), ends the program. The model does not capture that termination: `EventChessValidate`, `EventChessListen` and `EventChessConnect` promise their outcomes for whatever number `stoi` gives.
- The network system is not modelled. Its connection state, current port and address are parameters. Every request the game makes of it is appended to `Game.outbox`, and the model never changes the connection state.
- The console's parsing of a typed line into arguments is not modelled. Arguments are a key-ordered list. Nothing proves that a sent line is parsed back into the same arguments.
- The console subscription of `chessmove`, `resign` and the other commands is not modelled. Each handler is a method.
- The protocol handlers call `ChessMatch::Event_ChessMove` and `ChessMatch::SetMatchResultAndEndTheGame` through the current match, which may be null. Both act only on class-wide state, and the model applies them to the shared statics.
- `Game::SendOutgoingDataImmediately` is modelled without its `disconnectRightAfter` option, which no modelled handler passes. The drop of every connection that `Game::Event_ChessDisconnect` asks of the network follows it in the outbox.
- MoveEffects.ApplyKeepsAgreement: requires that a promotion installs a glyph of the mover's side. The source does not guarantee this. Only the rule path consumes the staged glyph (`ChessMatch.cpp:461-471`), and a move command without `promoteTo` keeps the old one (`ChessMatch.cpp:1124-1128`). So a teleported `promoteTo=queen` move by one side leaves `Q` staged for the other side's next far-rank pawn move. `ForeignPromotionGlyphBreaks` shows that such a promotion breaks agreement.
- The game's current and next state are one `mode` field. `EnterState` sets it at once.
- Pieces carry only their side, kind, squares and last-moved turn. Their models, positions in 3D and highlighting are not modelled.
- `Game::Event_ChessServerInfo` and the other handlers of `Game.cpp` not listed above (camera, audio and the debug commands) are not part of this model.
- Integer widths: the port is cut to 16 bits as the `unsigned short` cast does. Turn numbers and results are unbounded integers, since the source never comes near its `int` limit.
