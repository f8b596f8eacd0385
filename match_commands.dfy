/**
 * The class-wide command state of a chess match (the `static` members of
 * `ChessMatch`) and the console command that stages a move
 * (`ChessMatch::Event_ChessMove`) or resigns (`ChessMatch::Event_Resign`).
 */
module MatchCommands {
  import opened Wrappers
  import opened BoardCoords
  import opened PieceRules
  import opened MatchTypes
  import opened MoveRules
  import opened Commands

  /** A staged move as the `chessmove` command leaves it. */
  datatype MoveCommand = MoveCommand(from: Coords, to: Coords, teleport: bool, promoteGlyph: Option<char>)

  /**
   * The piece a `promoteTo` value names. Only the four lower-case names are
   * accepted; any other spelling is refused.
   */
  function PromotionKind(name: string): (k: Option<PieceKind>)
    ensures k.Some? ==> k.value != Pawn && k.value != King
  {
    if name == "knight" then Some(Knight)
    else if name == "bishop" then Some(Bishop)
    else if name == "rook" then Some(Rook)
    else if name == "queen" then Some(Queen)
    else None
  }

  /** The glyph of a kind for the side to move: lower case for side 1 (`ChessPieceDefinition` glyph pair). */
  function SideGlyph(k: PieceKind, player1Turn: bool): (g: char)
    ensures IsPieceGlyph(g) && KindOfGlyph(g) == Some(k) && PlayerIndexForGlyph(g) == SideIndex(player1Turn)
  {
    GlyphRoundTrip(k, player1Turn);
    GlyphOf(k, player1Turn)
  }

  /**
   * `ChessMatch::Event_ChessMove`: at least two arguments, two valid and
   * textually different squares, an optional promotion name (`"?"` means
   * none) and an optional `teleport` that is `"true"` or `"false"`. The
   * promotion glyph takes the case of the side to move.
   */
  function ParseMoveCommand(args: Args, player1Turn: bool): (c: Option<MoveCommand>)
    ensures c.Some? ==> KeyCount(args) >= 2
    ensures c.Some? ==> IsBoardCoordsValid(c.value.from) && IsBoardCoordsValid(c.value.to)
    ensures c.Some? ==> (c.value.teleport <==> GetValue(args, "teleport", "") == "true")
    ensures c.Some? && c.value.promoteGlyph.Some? ==>
              IsPieceGlyph(c.value.promoteGlyph.value) &&
              PlayerIndexForGlyph(c.value.promoteGlyph.value) == SideIndex(player1Turn) &&
              KindOfGlyph(c.value.promoteGlyph.value) == PromotionKind(GetValue(args, "promoteTo", "?"))
    ensures GetValue(args, "promoteTo", "?") == "?" ==> c.None? || c.value.promoteGlyph.None?
  {
    var fromText := GetValue(args, "from", "");
    var toText := GetValue(args, "to", "");
    var promoteText := GetValue(args, "promoteTo", "?");
    var teleportText := GetValue(args, "teleport", "");
    if KeyCount(args) < 2 then None
    else if !IsSquareCoordsValid(fromText) || !IsSquareCoordsValid(toText) then None
    else if fromText == toText then None
    else if promoteText != "?" && PromotionKind(promoteText).None? then None
    else if teleportText != "" && teleportText != "true" && teleportText != "false" then None
    else
      var glyph := if promoteText == "?" then None else Some(SideGlyph(PromotionKind(promoteText).value, player1Turn));
      Some(MoveCommand(BoardCoordsForUserString(fromText), BoardCoordsForUserString(toText),
                       teleportText == "true", glyph))
  }

  /**
   * A command naming two valid, different squares in upper case and nothing
   * else is accepted, and stages exactly those squares: the text the match
   * prints for a square is read back as the same square.
   */
  lemma {:induction false} PrintedSquaresAccepted(args: Args, c1: Coords, c2: Coords, player1Turn: bool)
    requires IsBoardCoordsValid(c1) && IsBoardCoordsValid(c2) && c1 != c2
    requires KeyCount(args) >= 2
    requires GetValue(args, "from", "") == SquareCoordsForBoardCoords(c1)
    requires GetValue(args, "to", "") == SquareCoordsForBoardCoords(c2)
    requires GetValue(args, "promoteTo", "?") == "?" && GetValue(args, "teleport", "") == ""
    ensures ParseMoveCommand(args, player1Turn) == Some(MoveCommand(c1, c2, false, None))
  {
    PrintThenParse(c1);
    PrintThenParse(c2);
  }

  /** A `promoteTo` name in any other case than lower case refuses the whole command. */
  lemma {:induction false} CapitalisedPromotionRefused(args: Args, player1Turn: bool)
    requires GetValue(args, "promoteTo", "?") == "Queen"
    ensures ParseMoveCommand(args, player1Turn) == None
  {
    assert "Queen" != "?" && "Queen" != "queen";
  }

  /**
   * The same square spelt with a lower- and an upper-case file passes the
   * textual from-equals-to test and stages a move onto its own square.
   */
  lemma {:induction false} CaseVariantSameSquareAccepted(player1Turn: bool)
    ensures var args := [("from", "e2"), ("to", "E2")];
            Sorted(args) &&
            ParseMoveCommand(args, player1Turn).Some? &&
            ParseMoveCommand(args, player1Turn).value.from == ParseMoveCommand(args, player1Turn).value.to
  {
    var args := [("from", "e2"), ("to", "E2")];
    assert KeyLess("from", "to");
    assert !HasKey(args, "promoteTo") && !HasKey(args, "teleport");
    assert args[0] == ("from", "e2") && args[1] == ("to", "E2");
    assert GetValue(args, "from", "") == "e2";
    assert GetValue(args, "to", "") == "E2";
    assert "e2" != "E2";
  }

  /**
   * The statics of `ChessMatch`: the staged move squares, the staged
   * promotion glyph, auto-promotion, the match end and result, the side to
   * move and the teleport flag. The predefined-result cache is not modelled.
   */
  class MatchStatics {
    var formerCoords: Coords
    var desiredCoords: Coords
    var promoteToPiece: char
    var autoPromoteToQueen: bool
    var matchEnds: bool
    var result: int
    var player1Turn: bool
    var isTeleporting: bool

    /** The static initialisers. */
    constructor ()
      ensures formerCoords == Coords(0, 0) && desiredCoords == Coords(0, 0)
      ensures promoteToPiece == NoPromotion && !autoPromoteToQueen
      ensures !matchEnds && result == Undetermined && !player1Turn && !isTeleporting
    {
      formerCoords := Coords(0, 0);
      desiredCoords := Coords(0, 0);
      promoteToPiece := NoPromotion;
      autoPromoteToQueen := false;
      matchEnds := false;
      result := Undetermined;
      player1Turn := false;
      isTeleporting := false;
    }

    /** The statics the validator reads and resets. */
    function StagedState(): Staged
      reads this
    {
      Staged(promoteToPiece, autoPromoteToQueen, isTeleporting)
    }

    /** The statics the validator leaves alone. */
    function Rest(): (Coords, Coords, bool, int, bool)
      reads this
    {
      (formerCoords, desiredCoords, matchEnds, result, player1Turn)
    }

    /**
     * `ChessMatch::ResetMatchData`: the staged squares, the promotion glyph,
     * the match end, the result and the side to move go back to their
     * initial values; auto-promotion and the teleport flag are kept.
     */
    method ResetMatchData()
      modifies this
      ensures formerCoords == Coords(0, 0) && desiredCoords == Coords(0, 0)
      ensures promoteToPiece == NoPromotion && !matchEnds && result == Undetermined && !player1Turn
      ensures autoPromoteToQueen == old(autoPromoteToQueen) && isTeleporting == old(isTeleporting)
    {
      formerCoords := Coords(0, 0);
      desiredCoords := Coords(0, 0);
      promoteToPiece := NoPromotion;
      matchEnds := false;
      result := Undetermined;
      player1Turn := false;
    }

    /**
     * `ChessMatch::Event_ChessMove`: a refused command changes nothing; an
     * accepted one stages its squares and teleport flag, and its promotion
     * glyph when it names one (an earlier staged glyph is kept otherwise).
     */
    method EventChessMove(args: Args) returns (ok: bool)
      modifies this
      ensures var c := ParseMoveCommand(args, old(player1Turn));
              ok == c.Some? &&
              (c.None? ==> formerCoords == old(formerCoords) && desiredCoords == old(desiredCoords) &&
                           isTeleporting == old(isTeleporting) && promoteToPiece == old(promoteToPiece)) &&
              (c.Some? ==> formerCoords == c.value.from && desiredCoords == c.value.to &&
                           isTeleporting == c.value.teleport &&
                           promoteToPiece == (if c.value.promoteGlyph.Some? then c.value.promoteGlyph.value
                                              else old(promoteToPiece)))
      ensures autoPromoteToQueen == old(autoPromoteToQueen) && matchEnds == old(matchEnds)
      ensures result == old(result) && player1Turn == old(player1Turn)
    {
      if KeyCount(args) < 2 {
        return false;
      }
      var fromText := GetValue(args, "from", "");
      if !IsSquareCoordsValid(fromText) {
        return false;
      }
      var toText := GetValue(args, "to", "");
      if !IsSquareCoordsValid(toText) {
        return false;
      }
      if fromText == toText {
        return false;
      }
      var promoteText := GetValue(args, "promoteTo", "?");
      var hasPromotion := promoteText != "?";
      if hasPromotion && PromotionKind(promoteText).None? {
        return false;
      }
      var teleportText := GetValue(args, "teleport", "");
      if teleportText != "" && teleportText != "true" && teleportText != "false" {
        return false;
      }
      isTeleporting := teleportText == "true";
      formerCoords := BoardCoordsForUserString(fromText);
      desiredCoords := BoardCoordsForUserString(toText);
      if hasPromotion {
        promoteToPiece := SideGlyph(PromotionKind(promoteText).value, player1Turn);
      }
      ok := true;
    }

    /**
     * `ChessMatch::Event_Resign`: always answers `true`. After the match has
     * ended, or with any argument, it changes nothing; otherwise the side to
     * move resigns and the other side wins.
     */
    method EventResign(args: Args) returns (handled: bool)
      modifies this
      ensures handled
      ensures old(matchEnds) || KeyCount(args) > 0 ==>
                matchEnds == old(matchEnds) && result == old(result)
      ensures !old(matchEnds) && KeyCount(args) == 0 ==>
                matchEnds && result == (if player1Turn then Player0Wins else Player1Wins)
      ensures player1Turn == old(player1Turn) && StagedState() == old(StagedState())
      ensures formerCoords == old(formerCoords) && desiredCoords == old(desiredCoords)
    {
      if matchEnds {
        return true;
      }
      if KeyCount(args) > 0 {
        return true;
      }
      matchEnds := true;
      result := if player1Turn then Player0Wins else Player1Wins;
      handled := true;
    }

    /** `ChessMatch::SetMatchResultAndEndTheGame`: the match ends with the given result. */
    method SetMatchResultAndEndTheGame(gameResult: int)
      modifies this
      ensures matchEnds && result == gameResult
      ensures player1Turn == old(player1Turn) && StagedState() == old(StagedState())
      ensures formerCoords == old(formerCoords) && desiredCoords == old(desiredCoords)
    {
      matchEnds := true;
      result := gameResult;
    }
  }
}
