/**
 * `ChessMatch`: a match's 64-cell glyph layout (a fixed array), its piece
 * roster and its turn number, with the lookups, the move validator and the
 * move itself as they update that state step by step. Each method is proved
 * against the pure definitions of MoveRules, MoveEffects and BoardSetup.
 */
module ChessMatchModel {
  import opened Wrappers
  import opened BoardCoords
  import opened PieceRules
  import opened MatchTypes
  import opened MoveRules
  import opened MoveEffects
  import opened BoardSetup
  import opened Commands
  import opened MatchCommands

  /**
   * The layout cells from `k` on that show a glyph, in cell order
   * (`ChessMatch::GetIndexArrForGlyph` lists them from cell 0; empty cells
   * are never listed).
   */
  function GlyphCellsFrom(layout: seq<char>, g: char, k: nat): seq<int>
    requires |layout| == LayoutSize && k <= 64
    decreases 64 - k
  {
    if k == 64 then []
    else (if layout[k] != Empty && layout[k] == g then [k] else []) + GlyphCellsFrom(layout, g, k + 1)
  }

  /**
   * The castling scan from cell `k` goes straight to the first listed cell
   * from `k` on, and finds no rook when none is listed; the rest of the list
   * is the list from the cell after it.
   */
  lemma {:induction false} ScanReachesFirstListedCell(layout: seq<char>, pieces: seq<Piece>, g: char, to: Coords, mc: Coords, k: nat)
    requires |layout| == LayoutSize && k <= 64 && g != Empty
    requires RookCellsIndexed(layout, pieces, g)
    ensures var cells := GlyphCellsFrom(layout, g, k);
            (cells == [] ==> CastlingScan(layout, pieces, g, to, mc, k) == NoRook) &&
            (cells != [] ==>
               k <= cells[0] < 64 && layout[cells[0]] == g &&
               cells[1..] == GlyphCellsFrom(layout, g, cells[0] + 1) &&
               CastlingScan(layout, pieces, g, to, mc, k) == CastlingScan(layout, pieces, g, to, mc, cells[0]))
    decreases 64 - k
  {
    if k < 64 {
      var rest := GlyphCellsFrom(layout, g, k + 1);
      if layout[k] == g {
        assert GlyphCellsFrom(layout, g, k) == [k] + rest;
      } else {
        assert GlyphCellsFrom(layout, g, k) == rest;
        ScanReachesFirstListedCell(layout, pieces, g, to, mc, k + 1);
      }
    }
  }

  /**
   * Where the rook loop stands: `cells[i..]` is what is left of the list,
   * which is the list from cell `k` on, and the scan from `k` gives the
   * answer of the whole scan.
   */
  predicate RookScanAt(layout: seq<char>, pieces: seq<Piece>, g: char, to: Coords, mc: Coords,
                       cells: seq<int>, i: nat, k: nat)
  {
    |layout| == LayoutSize && k <= 64 && g != Empty && RookCellsIndexed(layout, pieces, g) &&
    i <= |cells| && cells[i..] == GlyphCellsFrom(layout, g, k) &&
    CastlingScan(layout, pieces, g, to, mc, k) == CastlingScan(layout, pieces, g, to, mc, 0)
  }

  /** The loop starts on the whole list, at cell 0. */
  lemma RookScanStart(layout: seq<char>, pieces: seq<Piece>, g: char, to: Coords, mc: Coords, cells: seq<int>)
    requires |layout| == LayoutSize && g != Empty && RookCellsIndexed(layout, pieces, g)
    requires cells == GlyphCellsFrom(layout, g, 0)
    ensures RookScanAt(layout, pieces, g, to, mc, cells, 0, 0)
  {
    assert cells[0..] == cells;
  }

  /** When the list is used up, the scan finds no rook. */
  lemma RookScanEnd(layout: seq<char>, pieces: seq<Piece>, g: char, to: Coords, mc: Coords, cells: seq<int>, k: nat)
    requires RookScanAt(layout, pieces, g, to, mc, cells, |cells|, k)
    ensures CastlingScan(layout, pieces, g, to, mc, 0) == NoRook
  {
    assert GlyphCellsFrom(layout, g, k) == cells[|cells|..] == [];
    ScanReachesFirstListedCell(layout, pieces, g, to, mc, k);
  }

  /**
   * The roster entry at a listed rook cell's index is passed over by the
   * castling loop: it has moved, or it stands in another direction than the
   * king's move.
   */
  predicate RookPassedOver(pieces: seq<Piece>, to: Coords, mc: Coords, cell: int)
  {
    0 <= cell < |pieces| && (pieces[cell].turnLastMoved != 0 || MoveCase(to, pieces[cell].current) != mc)
  }

  /**
   * One round of the rook loop: the next listed cell shows the rook glyph
   * and is a roster index; the scan either passes the entry there over (and
   * the loop goes on with the rest of the list) or stops there.
   */
  lemma RookCellStep(layout: seq<char>, pieces: seq<Piece>, g: char, to: Coords, mc: Coords,
                     cells: seq<int>, i: nat, k: nat)
    requires RookScanAt(layout, pieces, g, to, mc, cells, i, k) && i < |cells|
    ensures 0 <= cells[i] < 64 && layout[cells[i]] == g && cells[i] < |pieces|
    ensures var rook := pieces[cells[i]];
            !RookPassedOver(pieces, to, mc, cells[i]) ==>
              CastlingScan(layout, pieces, g, to, mc, 0) ==
              if Taxicab(to, rook.current) > 1 && GlyphAtCoords(layout, Add(to, mc)) != Empty then PieceBetween
              else RookFound(cells[i])
  {
    ScanReachesFirstListedCell(layout, pieces, g, to, mc, k);
    assert cells[i] == cells[i..][0];
    assert cells[i + 1..] == cells[i..][1..];
    ScanAtRookCell(layout, pieces, g, to, mc, cells[i]);
  }

  /** A rook passed over moves the loop on to the rest of the list, after its cell. */
  lemma RookCellSkip(layout: seq<char>, pieces: seq<Piece>, g: char, to: Coords, mc: Coords,
                     cells: seq<int>, i: nat, k: nat, i': nat, k': nat)
    requires RookScanAt(layout, pieces, g, to, mc, cells, i, k) && i < |cells|
    requires RookPassedOver(pieces, to, mc, cells[i]) && i' == i + 1 && k' == cells[i] + 1
    ensures RookScanAt(layout, pieces, g, to, mc, cells, i', k')
  {
    ScanReachesFirstListedCell(layout, pieces, g, to, mc, k);
    assert cells[i] == cells[i..][0];
    assert cells[i + 1..] == cells[i..][1..];
    ScanAtRookCell(layout, pieces, g, to, mc, cells[i]);
  }

  /**
   * The castling scan at a cell showing the rook glyph examines the roster
   * entry at that cell's index: it skips the entry when it has moved or
   * stands in another direction, and otherwise stops there, taking the cell
   * as the rook's roster index.
   */
  lemma ScanAtRookCell(layout: seq<char>, pieces: seq<Piece>, g: char, to: Coords, mc: Coords, cell: int)
    requires |layout| == LayoutSize && 0 <= cell < 64 && g != Empty && layout[cell] == g
    requires RookCellsIndexed(layout, pieces, g)
    ensures cell < |pieces|
    ensures var rook := pieces[cell];
            (rook.turnLastMoved != 0 || MoveCase(to, rook.current) != mc ==>
               CastlingScan(layout, pieces, g, to, mc, cell) == CastlingScan(layout, pieces, g, to, mc, cell + 1)) &&
            (rook.turnLastMoved == 0 && MoveCase(to, rook.current) == mc ==>
               CastlingScan(layout, pieces, g, to, mc, cell) ==
               if Taxicab(to, rook.current) > 1 && GlyphAtCoords(layout, Add(to, mc)) != Empty then PieceBetween
               else RookFound(cell))
  {
  }

  /** The layout cells before `n` that show a glyph, in cell order: what the scan has listed after `n` cells. */
  function GlyphCellsUpTo(layout: seq<char>, g: char, n: nat): seq<int>
    requires |layout| == LayoutSize && n <= 64
  {
    if n == 0 then []
    else GlyphCellsUpTo(layout, g, n - 1) + (if layout[n - 1] != Empty && layout[n - 1] == g then [n - 1] else [])
  }

  /** Regrouping a three-part concatenation keeps its value. */
  lemma Regroup(u: seq<int>, x: seq<int>, f: seq<int>, w: seq<int>)
    requires u + (x + f) == w
    ensures (u + x) + f == w
  {
    Associative(u, x, f);
  }

  /** The cells listed before `n` followed by those from `n` on are the whole list. */
  lemma {:induction false} UpToThenFrom(layout: seq<char>, g: char, n: nat)
    requires |layout| == LayoutSize && n <= 64
    ensures GlyphCellsUpTo(layout, g, n) + GlyphCellsFrom(layout, g, n) == GlyphCellsFrom(layout, g, 0)
  {
    if n == 0 {
      assert GlyphCellsUpTo(layout, g, 0) == [];
    } else {
      UpToThenFrom(layout, g, n - 1);
      var u, f := GlyphCellsUpTo(layout, g, n - 1), GlyphCellsFrom(layout, g, n);
      var x := if layout[n - 1] != Empty && layout[n - 1] == g then [n - 1] else [];
      assert GlyphCellsUpTo(layout, g, n) == u + x;
      assert GlyphCellsFrom(layout, g, n - 1) == x + f;
      Regroup(u, x, f, GlyphCellsFrom(layout, g, 0));
    }
  }

  /**
   * The arguments `ChessMatch::MovePiece` hands to the game to send to the
   * peer: the printed squares of the record, `teleport=true` when the
   * teleport flag is still set, and `promoteTo=Queen` for a promotion.
   */
  function RelayArgs(r: MoveResult, teleporting: bool): Args {
    var a := SetValue(SetValue([], "from", r.fromCoordsStr), "to", r.toCoordsStr);
    var a1 := if teleporting then SetValue(a, "teleport", "true") else a;
    if r.isPromotion then SetValue(a1, "promoteTo", "Queen") else a1
  }

  /** The arguments the peer's match receives: the relayed ones, marked as remote. */
  function ReceivedArgs(r: MoveResult, teleporting: bool): Args {
    SetValue(RelayArgs(r, teleporting), "remote", "true")
  }

  /** What the relayed arguments hold, key by key. */
  lemma {:induction false} RelayValues(r: MoveResult, teleporting: bool)
    ensures var args := RelayArgs(r, teleporting);
            GetValue(args, "from", "") == r.fromCoordsStr &&
            GetValue(args, "to", "") == r.toCoordsStr &&
            GetValue(args, "teleport", "") == (if teleporting then "true" else "") &&
            GetValue(args, "promoteTo", "?") == (if r.isPromotion then "Queen" else "?") &&
            GetValue(args, "remote", "") == ""
  {
    var a0 := SetValue([], "from", r.fromCoordsStr);
    var a := SetValue(a0, "to", r.toCoordsStr);
    var a1 := if teleporting then SetValue(a, "teleport", "true") else a;
    assert GetValue([], "teleport", "") == "" && GetValue([], "promoteTo", "?") == "?";
    GetAfterSet([], "from", r.fromCoordsStr, "");
    GetAfterSetOther([], "from", r.fromCoordsStr, "to", "");
    GetAfterSetOther([], "from", r.fromCoordsStr, "teleport", "");
    GetAfterSetOther([], "from", r.fromCoordsStr, "promoteTo", "?");
    GetAfterSetOther([], "from", r.fromCoordsStr, "remote", "");
    GetAfterSet(a0, "to", r.toCoordsStr, "");
    GetAfterSetOther(a0, "to", r.toCoordsStr, "from", "");
    GetAfterSetOther(a0, "to", r.toCoordsStr, "teleport", "");
    GetAfterSetOther(a0, "to", r.toCoordsStr, "promoteTo", "?");
    GetAfterSetOther(a0, "to", r.toCoordsStr, "remote", "");
    if teleporting {
      GetAfterSet(a, "teleport", "true", "");
      GetAfterSetOther(a, "teleport", "true", "from", "");
      GetAfterSetOther(a, "teleport", "true", "to", "");
      GetAfterSetOther(a, "teleport", "true", "promoteTo", "?");
      GetAfterSetOther(a, "teleport", "true", "remote", "");
    }
    if r.isPromotion {
      GetAfterSet(a1, "promoteTo", "Queen", "?");
      GetAfterSetOther(a1, "promoteTo", "Queen", "from", "");
      GetAfterSetOther(a1, "promoteTo", "Queen", "to", "");
      GetAfterSetOther(a1, "promoteTo", "Queen", "teleport", "");
      GetAfterSetOther(a1, "promoteTo", "Queen", "remote", "");
    }
  }

  /** What the peer reads back from the received arguments, key by key. */
  lemma {:induction false} ReceivedValues(r: MoveResult, teleporting: bool)
    requires |r.fromCoordsStr| > 0 && r.fromCoordsStr != r.toCoordsStr
    ensures var args := ReceivedArgs(r, teleporting);
            KeyCount(args) >= 2 &&
            GetValue(args, "from", "") == r.fromCoordsStr &&
            GetValue(args, "to", "") == r.toCoordsStr &&
            GetValue(args, "teleport", "") == (if teleporting then "true" else "") &&
            GetValue(args, "promoteTo", "?") == (if r.isPromotion then "Queen" else "?")
  {
    var a2 := RelayArgs(r, teleporting);
    var args := SetValue(a2, "remote", "true");
    RelayValues(r, teleporting);
    GetAfterSetOther(a2, "remote", "true", "from", "");
    GetAfterSetOther(a2, "remote", "true", "to", "");
    GetAfterSetOther(a2, "remote", "true", "teleport", "");
    GetAfterSetOther(a2, "remote", "true", "promoteTo", "?");
    assert HasKey(args, "from") && HasKey(args, "to");
    var i :| 0 <= i < |args| && args[i].0 == "from";
    var j :| 0 <= j < |args| && args[j].0 == "to";
    assert i != j;
  }

  /**
   * An accepted move other than a promotion reaches the peer as a command
   * that stages the same two squares, without teleport: the mover's own
   * teleport flag is cleared by validation before the relay reads it, so a
   * teleport is replayed on the peer as an ordinary move.
   */
  lemma {:induction false} RelayedMoveReplays(b: Board, s: Staged, from: Coords, to: Coords, player1Turn: bool)
    requires |b.layout| == LayoutSize && ProbesDefined(b, s, from, to)
    requires IsBoardCoordsValid(from) && IsBoardCoordsValid(to) && from != to
    requires Validate(b, s, from, to).ok && !Validate(b, s, from, to).result.isPromotion
    ensures var v := Validate(b, s, from, to);
            !v.staged.isTeleporting &&
            ParseMoveCommand(ReceivedArgs(v.result, v.staged.isTeleporting), player1Turn) ==
              Some(MoveCommand(from, to, false, None))
  {
    var v := Validate(b, s, from, to);
    PrintThenParse(from);
    PrintThenParse(to);
    ReceivedValues(v.result, v.staged.isTeleporting);
    PrintedSquaresAccepted(ReceivedArgs(v.result, v.staged.isTeleporting), from, to, player1Turn);
  }

  /**
   * An accepted promotion reaches the peer with `promoteTo=Queen`, a name
   * the peer's command refuses: the peer never stages the move.
   */
  lemma {:induction false} RelayedPromotionRefused(b: Board, s: Staged, from: Coords, to: Coords, player1Turn: bool)
    requires |b.layout| == LayoutSize && ProbesDefined(b, s, from, to)
    requires IsBoardCoordsValid(from) && IsBoardCoordsValid(to) && from != to
    requires Validate(b, s, from, to).ok && Validate(b, s, from, to).result.isPromotion
    ensures var v := Validate(b, s, from, to);
            ParseMoveCommand(ReceivedArgs(v.result, v.staged.isTeleporting), player1Turn) == None
  {
    var v := Validate(b, s, from, to);
    PrintThenParse(from);
    PrintThenParse(to);
    ReceivedValues(v.result, v.staged.isTeleporting);
    CapitalisedPromotionRefused(ReceivedArgs(v.result, v.staged.isTeleporting), player1Turn);
  }

  /** Why `ChessMatch::UpdateMovePieceCommand` stopped, or that the move was tried. */
  datatype MoveStatus = NothingStaged | MatchEnded | FromSquareEmpty | FromIsOpponents | ToIsOwn | MoveRefused | MoveMade

  /**
   * The tests `ChessMatch::UpdateMovePieceCommand` makes before it moves, in
   * its order; `None` when the move goes ahead.
   */
  function StagedMoveGate(layout: seq<char>, matchEnds: bool, player1Turn: bool, from: Coords, to: Coords): (g: Option<MoveStatus>)
    requires |layout| == LayoutSize
    ensures g.None? <==> from != to && !matchEnds &&
                         PlayerIndexAt(layout, from) == SideIndex(player1Turn) &&
                         PlayerIndexAt(layout, to) != SideIndex(player1Turn)
    ensures g.Some? ==> g.value != MoveRefused && g.value != MoveMade
  {
    if from == to then Some(NothingStaged)
    else if matchEnds then Some(MatchEnded)
    else if PlayerIndexAt(layout, from) == -1 then Some(FromSquareEmpty)
    else if PlayerIndexAt(layout, from) != SideIndex(player1Turn) then Some(FromIsOpponents)
    else if PlayerIndexAt(layout, to) == SideIndex(player1Turn) then Some(ToIsOwn)
    else None
  }

  /**
   * Once the match has ended, every staged pair of different squares stops
   * at the gate, whatever the board and the side to move.
   */
  lemma EndedMatchStopsEveryMove(layout: seq<char>, player1Turn: bool, from: Coords, to: Coords)
    requires |layout| == LayoutSize && from != to
    ensures StagedMoveGate(layout, true, player1Turn, from, to) == Some(MatchEnded)
  {
  }

  /**
   * A match: the shared statics, the 64-cell layout, the roster and the
   * turn number. The game that owns the match, the selection and the
   * rendering state are not modelled.
   */
  class ChessMatch {
    const statics: MatchStatics
    const layout: array<char>
    var pieces: seq<Piece>
    var turnNumber: int

    predicate Valid()
      reads this
    {
      layout.Length == LayoutSize
    }

    /** The match as the pure definitions see it. */
    function BoardState(): Board
      reads this, layout, statics
    {
      Board(layout[..], pieces, turnNumber, statics.player1Turn)
    }

    /**
     * `ChessMatch::ChessMatch(owner, startingPlayerIndex)`: side 1 moves
     * first exactly when the starting index is 1; the zeroed layout then
     * takes the game's default board text (`Startup`). The roster stays
     * empty until it is built from the layout.
     */
    constructor (s: MatchStatics, startingPlayerIndex: int, defaultBoard: string)
      modifies s
      ensures statics == s && Valid() && fresh(layout)
      ensures layout[..] == LayoutFromString(seq(LayoutSize, _ => 0 as char), defaultBoard)
      ensures pieces == [] && turnNumber == FirstTurn
      ensures s.player1Turn == (startingPlayerIndex == 1)
      ensures s.StagedState() == old(s.StagedState())
      ensures s.formerCoords == old(s.formerCoords) && s.desiredCoords == old(s.desiredCoords)
      ensures s.matchEnds == old(s.matchEnds) && s.result == old(s.result)
    {
      statics := s;
      layout := new char[LayoutSize](_ => 0 as char);
      pieces := [];
      turnNumber := FirstTurn;
      new;
      s.player1Turn := startingPlayerIndex == 1;
      assert layout[..] == seq(LayoutSize, _ => 0 as char);
      SetBoardStateByString(defaultBoard);
    }

    /**
     * `ChessMatch::SetBoardStateByString`: copies the first (at most) 64
     * characters of the text over the layout.
     */
    method SetBoardStateByString(text: string)
      requires Valid()
      modifies layout
      ensures layout[..] == LayoutFromString(old(layout[..]), text)
    {
      var n := if |text| < 64 then |text| else 64;
      for i := 0 to n
        invariant forall k :: 0 <= k < i ==> layout[k] == text[k]
        invariant forall k :: i <= k < 64 ==> layout[k] == old(layout[k])
      {
        layout[i] := text[i];
      }
      var l := LayoutFromString(old(layout[..]), text);
      assert forall k :: 0 <= k < 64 ==> layout[k] == l[k];
    }

    /**
     * `ChessMatch::InitPiecesToMatchBoardState`: the roster is rebuilt from
     * the layout, one new piece per cell that shows a table glyph.
     */
    method InitPiecesToMatchBoardState()
      requires Valid()
      modifies this
      ensures pieces == RosterOf(layout[..])
      ensures (forall k :: 0 <= k < 64 ==> layout[k] == Empty || IsPieceGlyph(layout[k])) ==>
                Agree(layout[..], pieces)
      ensures turnNumber == old(turnNumber)
    {
      var ps: seq<Piece> := [];
      for i := 0 to 64
        invariant ps == RosterUpTo(layout[..], i)
      {
        if layout[i] == Empty {
          continue;
        }
        if KindOfGlyph(layout[i]).None? {
          continue;
        }
        ps := ps + [NewPiece(layout[i], BoardCoordsForBoardStateIndex(i))];
      }
      pieces := ps;
      if forall k :: 0 <= k < 64 ==> layout[k] == Empty || IsPieceGlyph(layout[k]) {
        RosterOfAgrees(layout[..]);
      }
    }

    /** `ChessMatch::GetPieceIndexForCoords`: the first roster index at the square, -1 when none. */
    method GetPieceIndexForCoords(c: Coords) returns (index: int)
      ensures index == FirstIndexAt(pieces, c)
    {
      for i := 0 to |pieces|
        invariant forall j :: 0 <= j < i ==> pieces[j].current != c
      {
        if pieces[i].current == c {
          return i;
        }
      }
      return -1;
    }

    /** `ChessMatch::GetIndexArrForGlyph`: the layout cells that show the glyph, in order. */
    method GetIndexArrForGlyph(g: char) returns (cells: seq<int>)
      requires Valid()
      ensures cells == GlyphCellsFrom(layout[..], g, 0)
    {
      cells := [];
      for i := 0 to 64
        invariant cells == GlyphCellsUpTo(layout[..], g, i)
      {
        if layout[i] != Empty && layout[i] == g {
          cells := cells + [i];
        }
      }
      UpToThenFrom(layout[..], g, 64);
    }

    /**
     * The blocking loop of `ChessMatch::CheckMoveValidity`: the first roster
     * piece, off both squares, nearer than the destination in the same
     * direction and within the mover's pattern; -1 when there is none.
     */
    method FindBlocker(mover: Piece, from: Coords, to: Coords) returns (k: int)
      ensures k == FirstBlocker(pieces, mover, from, to)
    {
      var mc := MoveCase(from, to);
      var dist := Taxicab(from, to);
      for i := 0 to |pieces|
        invariant forall j :: 0 <= j < i ==> !Blocks(pieces[j].current, mover, from, to)
      {
        var other := pieces[i].current;
        if other == from || other == to {
          continue;
        }
        if Taxicab(from, other) < dist && MoveCase(from, other) == mc && IsValidMoveForCoords(mover, other) {
          return i;
        }
      }
      return -1;
    }

    /** The kings-apart loop: whether one of the eight neighbours of a square shows the glyph. */
    method GlyphNextTo(c: Coords, g: char) returns (found: bool)
      requires Valid()
      ensures found == NextToGlyph(layout[..], c, g)
    {
      var nearby := Nearby8(c);
      for i := 0 to 8
        invariant forall j :: 0 <= j < i ==> GlyphAtCoords(layout[..], nearby[j]) != g
      {
        if GlyphAtCoords(layout[..], nearby[i]) == g {
          return true;
        }
      }
      return false;
    }

    /**
     * The between-scan of castling: once for each of the `dist - 1` squares
     * between the destination and the rook, the source tests the square one
     * step past the destination (never advancing), so only that square counts.
     */
    method BetweenClear(to: Coords, d: Coords, dist: int) returns (clear: bool)
      requires Valid()
      ensures clear <==> dist <= 1 || GlyphAtCoords(layout[..], Add(to, d)) == Empty
    {
      var j := 1;
      while j < dist
        invariant 1 <= j && (j > 1 ==> GlyphAtCoords(layout[..], Add(to, d)) == Empty)
      {
        if GlyphAtCoords(layout[..], Add(to, d)) != Empty {
          return false;
        }
        j := j + 1;
      }
      return true;
    }

    /**
     * One rook of the castling loop, read as the roster entry at the rook
     * cell's index: a moved entry or one in another direction is passed
     * over; otherwise the loop stops there, with a piece in between or with
     * that index as the rook's.
     */
    method ExamineRookCell(cell: int, rookGlyph: char, to: Coords, mc: Coords) returns (stop: bool, search: RookSearch)
      requires Valid() && 0 <= cell < 64 && layout[cell] == rookGlyph
      requires RookCellsIndexed(layout[..], pieces, rookGlyph)
      ensures cell < |pieces|
      ensures var rook := pieces[cell];
              (stop <==> !RookPassedOver(pieces, to, mc, cell)) &&
              (stop ==> search == if Taxicab(to, rook.current) > 1 && GlyphAtCoords(layout[..], Add(to, mc)) != Empty
                                  then PieceBetween else RookFound(cell))
    {
      assert layout[..][cell] == rookGlyph;
      var ri := cell;
      var rook := pieces[ri];
      var rookMoveCase := MoveCase(to, rook.current);
      if rook.turnLastMoved != 0 || rookMoveCase != mc {
        return false, NoRook;
      }
      var clear := BetweenClear(to, rookMoveCase, Taxicab(to, rook.current));
      if !clear {
        return true, PieceBetween;
      }
      return true, RookFound(ri);
    }

    /**
     * The rook loop of castling over the listed rook cells: moved rooks and
     * rooks in another direction are skipped; for the first other one the
     * between-scan tests, once per square between, the square one step past
     * the destination.
     */
    method FindCastlingRook(cells: seq<int>, rookGlyph: char, to: Coords, mc: Coords) returns (search: RookSearch)
      requires Valid() && rookGlyph != Empty
      requires RookCellsIndexed(layout[..], pieces, rookGlyph)
      requires cells == GlyphCellsFrom(layout[..], rookGlyph, 0)
      ensures search == CastlingScan(layout[..], pieces, rookGlyph, to, mc, 0)
    {
      ghost var l := layout[..];
      ghost var k: nat := 0;
      RookScanStart(l, pieces, rookGlyph, to, mc, cells);
      var i := 0;
      while i < |cells|
        invariant layout[..] == l
        invariant RookScanAt(l, pieces, rookGlyph, to, mc, cells, i, k)
      {
        RookCellStep(l, pieces, rookGlyph, to, mc, cells, i, k);
        var stop, found := ExamineRookCell(cells[i], rookGlyph, to, mc);
        if stop {
          return found;
        }
        ghost var i0, k0 := i, k;
        k := cells[i] + 1;
        i := i + 1;
        RookCellSkip(l, pieces, rookGlyph, to, mc, cells, i0, k0, i, k);
      }
      RookScanEnd(l, pieces, rookGlyph, to, mc, cells, k);
      return NoRook;
    }

    /**
     * The pawn rules of `ChessMatch::CheckMoveValidity`: no capture straight
     * ahead, a promotion glyph (or auto-promotion, used up here) on the far
     * rank, and a diagonal step only onto a piece or as an en passant capture.
     */
    method CheckPawnRules(ghost b: Board, promote: char, from: Coords, to: Coords, r: MoveResult)
      returns (ok: bool, r': MoveResult)
      requires Valid() && b == BoardState() && from != to
      requires !r.isValidMove && !r.isEnPassant && !r.isPromotion && !r.isCastling
      requires ProbesDefined(b, statics.StagedState().(promoteToPiece := promote), from, to)
      requires !statics.isTeleporting
      requires 0 <= r.pieceIndexFrom < |pieces| && r.pieceIndexFrom == LastIndexAt(pieces, from)
      requires r.fromGlyph == PieceGlyph(pieces[r.pieceIndexFrom])
      requires pieces[r.pieceIndexFrom].kind == Pawn && IsValidMoveForCoords(pieces[r.pieceIndexFrom], to)
      modifies statics
      ensures Verdict(ok, r', statics.StagedState()) == PawnChecks(b, old(statics.StagedState()), promote, from, to, r)
      ensures statics.Rest() == old(statics.Rest())
    {
      var mc := MoveCase(from, to);
      if mc.x == 0 && r.toGlyph != Empty {
        return false, r.(error := PawnVerticalCapture);
      }
      var reachEnd := ReachesEnd(r.fromGlyph, mc, to);
      r' := r;
      if reachEnd {
        if promote == NoPromotion && !statics.autoPromoteToQueen {
          return false, r.(error := PromotionMissing);
        }
        if statics.autoPromoteToQueen {
          r' := r'.(promoteGlyph := if statics.player1Turn then 'q' else 'Q');
          statics.autoPromoteToQueen := false;
        } else {
          r' := r'.(promoteGlyph := promote);
        }
        r' := r'.(isPromotion := true);
      }
      if Abs(mc.x) + Abs(mc.y) == 2 {
        ok, r' := CheckEnPassant(b, from, to, r', r.toGlyph);
        return;
      }
      statics.isTeleporting := false;
      ok := true;
      r' := r'.(isValidMove := true);
    }

    /**
     * The diagonal pawn step: an en passant capture of the opponent's pawn
     * beside the origin when it advanced two ranks on the previous turn;
     * otherwise the destination must hold a piece.
     */
    method CheckEnPassant(ghost b: Board, from: Coords, to: Coords, r: MoveResult, toGlyph: char)
      returns (ok: bool, r': MoveResult)
      requires Valid() && b == BoardState()
      requires !r.isValidMove && !r.isEnPassant && !r.isCastling
      requires Abs(MoveCase(from, to).x) + Abs(MoveCase(from, to).y) == 2
      requires GlyphAtCoords(layout[..], EnPassantSquare(from, MoveCase(from, to))) == OpponentPawn(r.fromGlyph)
               ==> FirstIndexAt(pieces, EnPassantSquare(from, MoveCase(from, to))) >= 0
      modifies statics
      ensures Verdict(ok, r', statics.StagedState()) == EnPassantCheck(b, old(statics.StagedState()), from, to, r, toGlyph)
      ensures statics.Rest() == old(statics.Rest())
    {
      var adj := EnPassantSquare(from, MoveCase(from, to));
      r' := r;
      if GlyphAtCoords(layout[..], adj) == OpponentPawn(r.fromGlyph) {
        var ti := GetPieceIndexForCoords(adj);
        var victim := pieces[ti];
        if victim.turnLastMoved == turnNumber - 1 && Abs(victim.current.y - victim.previous.y) == 2 {
          r' := r'.(isCapturing := true, isEnPassant := true, pieceIndexToErase := ti);
        }
      }
      if !r'.isEnPassant && toGlyph == Empty {
        return false, r'.(error := PawnDiagonalToEmpty);
      }
      statics.isTeleporting := false;
      ok := true;
      r' := r'.(isValidMove := true);
    }

    /**
     * The king rules of `ChessMatch::CheckMoveValidity`: the kings never
     * stand next to each other, and a two-square king move castles with an
     * unmoved rook of its side in that direction.
     */
    method CheckKingRules(ghost b: Board, from: Coords, to: Coords, r: MoveResult) returns (ok: bool, r': MoveResult)
      requires Valid() && b == BoardState() && from != to
      requires !r.isValidMove && !r.isCastling && !r.isPromotion && !r.isEnPassant
      requires 0 <= r.pieceIndexFrom < |pieces|
      requires Taxicab(from, to) == 2 ==> RookCellsIndexed(layout[..], pieces, RookGlyph(pieces[r.pieceIndexFrom].player1Side))
      modifies statics
      ensures Verdict(ok, r', statics.StagedState()) == KingChecks(b, old(statics.StagedState()), from, to, r)
      ensures statics.Rest() == old(statics.Rest())
    {
      var kingsAdjacent := GlyphNextTo(to, OpponentKing(r.fromGlyph));
      if kingsAdjacent {
        return false, r.(error := KingsAdjacent);
      }
      r' := r;
      if Taxicab(from, to) == 2 {
        var mc := MoveCase(from, to);
        var rookGlyph := RookGlyph(pieces[r.pieceIndexFrom].player1Side);
        r' := r'.(rookGlyph := rookGlyph);
        var cells := GetIndexArrForGlyph(rookGlyph);
        if GlyphAtCoords(layout[..], to) != Empty {
          return false, r'.(error := CastlingPieceBetween);
        }
        var search := FindCastlingRook(cells, rookGlyph, to, mc);
        match search
        case PieceBetween =>
          return false, r'.(error := CastlingPieceBetween);
        case NoRook =>
          return false, r'.(error := CastlingRookMoved);
        case RookFound(ri) =>
          r' := r'.(isCastling := true, rookFrom := pieces[ri].current, rookTo := Sub(to, mc), rookIndex := ri);
      }
      statics.isTeleporting := false;
      ok := true;
      r' := r'.(isValidMove := true);
    }

    /**
     * The roster scan that opens `ChessMatch::CheckMoveValidity`: the last
     * roster index at each square, the pieces found there, and a capture of
     * the piece on the destination.
     */
    method LocatePieces(from: Coords, to: Coords) returns (r: MoveResult)
      requires from != to
      ensures r == Locate(BoardState(), from, to)
    {
      var iFrom, iTo := -1, -1;
      for i := 0 to |pieces|
        invariant iFrom == LastIndexAt(pieces[..i], from)
        invariant iTo == LastIndexAt(pieces[..i], to)
      {
        assert pieces[..i + 1][..i] == pieces[..i];
        if pieces[i].current == from {
          iFrom := i;
        } else if pieces[i].current == to {
          iTo := i;
        }
      }
      assert pieces[..|pieces|] == pieces;
      r := DefaultMoveResult().(
        fromCoordsStr := SquareCoordsForBoardCoords(from),
        toCoordsStr := SquareCoordsForBoardCoords(to),
        pieceIndexFrom := iFrom,
        fromKind := if iFrom >= 0 then Some(pieces[iFrom].kind) else None,
        fromGlyph := if iFrom >= 0 then PieceGlyph(pieces[iFrom]) else Empty,
        pieceIndexTo := iTo,
        toKind := if iTo >= 0 then Some(pieces[iTo].kind) else None,
        toGlyph := if iTo >= 0 then PieceGlyph(pieces[iTo]) else Empty,
        pieceIndexToErase := iTo,
        isCapturing := iTo != -1);
    }

    /**
     * The rules of the moving piece: no promotion glyph for a piece other
     * than a pawn (the staged glyph is consumed here), then the rest of the
     * rules.
     */
    method CheckPieceRules(ghost b: Board, from: Coords, to: Coords, r: MoveResult) returns (ok: bool, r': MoveResult)
      requires Valid() && b == BoardState() && from != to && !statics.isTeleporting
      requires ProbesDefined(b, statics.StagedState(), from, to) && r == Locate(b, from, to)
      modifies statics
      ensures Verdict(ok, r', statics.StagedState()) == RuleChecks(b, old(statics.StagedState()), from, to, r)
      ensures statics.Rest() == old(statics.Rest())
    {
      var mover := pieces[r.pieceIndexFrom];
      if mover.kind != Pawn && statics.promoteToPiece != NoPromotion {
        return false, r.(error := PromoteNonPawn);
      }
      var promote := statics.promoteToPiece;
      statics.promoteToPiece := NoPromotion;
      ok, r' := CheckMoverRules(b, promote, from, to, r);
    }

    /** The mover's pattern; a knight is then accepted, any other piece goes on to the path rules. */
    method CheckMoverRules(ghost b: Board, promote: char, from: Coords, to: Coords, r: MoveResult) returns (ok: bool, r': MoveResult)
      requires Valid() && b == BoardState() && from != to
      requires !statics.isTeleporting && statics.promoteToPiece == NoPromotion
      requires ProbesDefined(b, statics.StagedState().(promoteToPiece := promote), from, to) && r == Locate(b, from, to)
      requires b.pieces[r.pieceIndexFrom].kind != Pawn ==> promote == NoPromotion
      modifies statics
      ensures Verdict(ok, r', statics.StagedState()) == MoverChecks(b, old(statics.StagedState()), promote, from, to, r)
      ensures statics.Rest() == old(statics.Rest())
    {
      var mover := pieces[r.pieceIndexFrom];
      if !IsValidMoveForCoords(mover, to) {
        return false, r.(error := AgainstPattern(mover.kind));
      }
      if mover.kind == Knight {
        statics.isTeleporting := false;
        return true, r.(isValidMove := true);
      }
      ok, r' := CheckPathRules(b, promote, from, to, r);
    }

    /** The blocking scan, then the pawn or king rules; any other piece is accepted. */
    method CheckPathRules(ghost b: Board, promote: char, from: Coords, to: Coords, r: MoveResult) returns (ok: bool, r': MoveResult)
      requires Valid() && b == BoardState() && from != to
      requires !statics.isTeleporting && statics.promoteToPiece == NoPromotion
      requires ProbesDefined(b, statics.StagedState().(promoteToPiece := promote), from, to) && r == Locate(b, from, to)
      requires b.pieces[r.pieceIndexFrom].kind != Pawn ==> promote == NoPromotion
      requires b.pieces[r.pieceIndexFrom].kind != Knight && IsValidMoveForCoords(b.pieces[r.pieceIndexFrom], to)
      modifies statics
      ensures Verdict(ok, r', statics.StagedState()) == PathChecks(b, old(statics.StagedState()), promote, from, to, r)
      ensures statics.Rest() == old(statics.Rest())
    {
      var mover := pieces[r.pieceIndexFrom];
      var k := FindBlocker(mover, from, to);
      if k >= 0 {
        return false, r.(error := BlockedBy(mover.kind, pieces[k].kind, pieces[k].current));
      }
      if mover.kind == Pawn {
        ok, r' := CheckPawnRules(b, promote, from, to, r);
      } else if mover.kind == King {
        ok, r' := CheckKingRules(b, from, to, r);
      } else {
        statics.isTeleporting := false;
        ok := true;
        r' := r.(isValidMove := true);
      }
    }

    /**
     * `ChessMatch::CheckMoveValidity`: the roster scan, the own-piece test
     * and, unless teleporting, the rules of the moving piece, with the
     * staged promotion glyph and teleport flag consumed as the source does.
     */
    method CheckMoveValidity(from: Coords, to: Coords) returns (ok: bool, r: MoveResult)
      requires Valid() && ProbesDefined(BoardState(), statics.StagedState(), from, to)
      modifies statics
      ensures Verdict(ok, r, statics.StagedState()) == Validate(old(BoardState()), old(statics.StagedState()), from, to)
      ensures statics.Rest() == old(statics.Rest())
    {
      ghost var b := BoardState();
      if from == to {
        return true, DefaultMoveResult().(error := FromEqualsTo);
      }
      r := LocatePieces(from, to);
      if PlayerIndexAt(layout[..], to) == SideIndex(statics.player1Turn) {
        return false, r.(error := ToIsOwnPiece);
      }
      if !statics.isTeleporting {
        ok, r := CheckPieceRules(b, from, to, r);
        return;
      }
      statics.isTeleporting := false;
      ok := true;
      r := r.(isValidMove := true);
    }

    /** The lookups and updates a move makes are defined. */
    predicate MoveDefined(from: Coords, to: Coords)
      requires Valid()
      reads this, layout, statics
    {
      ProbesDefined(BoardState(), statics.StagedState(), from, to) &&
      var v := Validate(BoardState(), statics.StagedState(), from, to);
      v.ok ==> EffectsDefined(BoardState(), v.result, from, to)
    }

    /** `ChessMatch::SetPieceToCoords`: the square's cell takes the glyph. */
    method SetPieceToCoords(g: char, c: Coords)
      requires Valid() && IsBoardCoordsValid(c)
      modifies layout
      ensures layout[..] == SetCell(old(layout[..]), c, g)
    {
      CoordsThenIndex(c);
      layout[BoardStateIndexForBoardCoords(c)] := g;
    }

    /** `ChessMatch::MovePieceOnLayout`: the origin's cell emptied, then the destination's cell set. */
    method MovePieceOnLayout(from: Coords, to: Coords, g: char)
      requires Valid() && IsBoardCoordsValid(from) && IsBoardCoordsValid(to)
      modifies layout
      ensures layout[..] == MoveOnLayout(old(layout[..]), from, to, g)
    {
      SetPieceToCoords(Empty, from);
      SetPieceToCoords(g, to);
    }

    /**
     * `ChessMatch::MovePieceInVector`: the piece's current square becomes
     * its previous one and it is stamped with the turn number.
     */
    method MovePieceInVector(i: int, to: Coords)
      requires 0 <= i < |pieces|
      modifies this
      ensures pieces == MoveInRoster(old(pieces), i, to, turnNumber)
      ensures turnNumber == old(turnNumber)
    {
      pieces := pieces[i := pieces[i].(previous := pieces[i].current, current := to, turnLastMoved := turnNumber)];
    }

    /** `ChessMatch::ChangePieceForIndex`: the square's cell shows the glyph and the piece takes its kind. */
    method ChangePieceForIndex(i: int, c: Coords, g: char)
      requires Valid() && 0 <= i < |pieces| && IsBoardCoordsValid(c) && IsPieceGlyph(g)
      modifies this, layout
      ensures layout[..] == SetCell(old(layout[..]), c, g)
      ensures pieces == ChangeKind(old(pieces), i, g)
      ensures turnNumber == old(turnNumber)
    {
      SetPieceToCoords(g, c);
      pieces := pieces[i := pieces[i].(kind := KindOfGlyph(g).value)];
    }

    /**
     * `ChessMatch::MovePiece`: a refused move changes nothing but the staged
     * statics validation consumes; an accepted one relays the command when
     * this side moves in a remote match, and then changes the match exactly
     * as `ApplyMove` says.
     */
    method MovePiece(from: Coords, to: Coords, playingRemotely: bool, myPlayerIndex: int, isSpectator: bool)
      returns (moved: bool, relay: Option<Args>)
      requires Valid() && from != to && MoveDefined(from, to)
      modifies this, layout, statics
      ensures var v := Validate(old(BoardState()), old(statics.StagedState()), from, to);
              moved == v.ok && statics.StagedState() == v.staged &&
              relay == (if v.ok && playingRemotely && SideIndex(old(statics.player1Turn)) == myPlayerIndex && !isSpectator
                        then Some(RelayArgs(v.result, v.staged.isTeleporting)) else None)
      ensures var v := Validate(old(BoardState()), old(statics.StagedState()), from, to);
              !v.ok ==> BoardState() == old(BoardState()) && statics.Rest() == old(statics.Rest())
      ensures var v := Validate(old(BoardState()), old(statics.StagedState()), from, to);
              v.ok ==>
                var o := ApplyMove(old(BoardState()), old(statics.matchEnds), old(statics.result), v.result, from, to);
                BoardState() == o.board && statics.matchEnds == o.matchEnds && statics.result == o.result
      ensures statics.formerCoords == old(statics.formerCoords) && statics.desiredCoords == old(statics.desiredCoords)
    {
      ghost var b := BoardState();
      ghost var ends0, result0 := statics.matchEnds, statics.result;
      var ok, r := CheckMoveValidity(from, to);
      if !ok {
        return false, None;
      }
      if playingRemotely && SideIndex(statics.player1Turn) == myPlayerIndex && !isSpectator {
        relay := Some(RelayArgs(r, statics.isTeleporting));
      } else {
        relay := None;
      }
      ApplyRecord(r, from, to);
      moved := true;
    }

    /**
     * The first updates of `ChessMatch::MovePiece` once a record is accepted:
     * the castling rook when flagged, then the mover, on the layout and in
     * the roster.
     */
    method RelocatePieces(r: MoveResult, from: Coords, to: Coords)
      requires Valid() && EffectsDefined(BoardState(), r, from, to)
      modifies this, layout
      ensures var b := old(BoardState());
              var l1 := if r.isCastling then MoveOnLayout(b.layout, r.rookFrom, r.rookTo, r.rookGlyph) else b.layout;
              var p1 := if r.isCastling then MoveInRoster(b.pieces, r.rookIndex, r.rookTo, b.turnNumber) else b.pieces;
              layout[..] == MoveOnLayout(l1, from, to, r.fromGlyph) &&
              pieces == MoveInRoster(p1, r.pieceIndexFrom, to, b.turnNumber)
      ensures turnNumber == old(turnNumber)
    {
      if r.isCastling {
        MovePieceOnLayout(r.rookFrom, r.rookTo, r.rookGlyph);
        MovePieceInVector(r.rookIndex, r.rookTo);
      }
      MovePieceOnLayout(from, to, r.fromGlyph);
      MovePieceInVector(r.pieceIndexFrom, to);
    }

    /** `m_pieces.erase`: the captured entry leaves the roster and later entries shift down. */
    method EraseFromRoster(i: int)
      requires 0 <= i < |pieces|
      modifies this
      ensures pieces == Erase(old(pieces), i)
      ensures turnNumber == old(turnNumber)
    {
      pieces := pieces[..i] + pieces[i + 1..];
    }

    /**
     * The updates of `ChessMatch::MovePiece` once a record is accepted: the
     * castling rook, the mover, the capture (ending the match when it takes
     * a king), the promotion, then the turn. The end and the result are
     * gathered in locals and stored after the promotion, which neither reads
     * nor writes them.
     */
    method ApplyRecord(r: MoveResult, from: Coords, to: Coords)
      requires Valid() && EffectsDefined(BoardState(), r, from, to)
      modifies this, layout, statics
      ensures var o := ApplyMove(old(BoardState()), old(statics.matchEnds), old(statics.result), r, from, to);
              BoardState() == o.board && statics.matchEnds == o.matchEnds && statics.result == o.result
      ensures statics.StagedState() == old(statics.StagedState())
      ensures statics.formerCoords == old(statics.formerCoords) && statics.desiredCoords == old(statics.desiredCoords)
    {
      ghost var b := BoardState();
      RelocatePieces(r, from, to);
      var ends, result := statics.matchEnds, statics.result;
      if r.isCapturing {
        if r.toGlyph == 'K' {
          ends, result := true, Player1Wins;
        } else if r.toGlyph == 'k' {
          ends, result := true, Player0Wins;
        }
        EraseFromRoster(r.pieceIndexToErase);
      }
      if r.isPromotion {
        ChangePieceForIndex(r.pieceIndexFrom, to, r.promoteGlyph);
      }
      statics.matchEnds, statics.result := ends, result;
      if !ends {
        turnNumber := turnNumber + 1;
        statics.player1Turn := !statics.player1Turn;
      }
    }

    /**
     * `ChessMatch::UpdateMovePieceCommand`: nothing happens until a command
     * has staged two different squares; the staged squares are then cleared
     * and the move is made when the match is running, the origin holds a
     * piece of the side to move and the destination does not.
     */
    method UpdateMovePieceCommand(playingRemotely: bool, myPlayerIndex: int, isSpectator: bool)
      returns (status: MoveStatus, relay: Option<Args>)
      requires Valid()
      requires StagedMoveGate(layout[..], statics.matchEnds, statics.player1Turn,
                              statics.formerCoords, statics.desiredCoords).None? ==>
               MoveDefined(statics.formerCoords, statics.desiredCoords)
      modifies this, layout, statics
      ensures var from, to := old(statics.formerCoords), old(statics.desiredCoords);
              from != to ==> statics.formerCoords == Coords(0, 0) && statics.desiredCoords == Coords(0, 0)
      ensures var gate := StagedMoveGate(old(layout[..]), old(statics.matchEnds), old(statics.player1Turn),
                                         old(statics.formerCoords), old(statics.desiredCoords));
              gate.Some? ==> status == gate.value && relay == None && BoardState() == old(BoardState()) &&
                             statics.StagedState() == old(statics.StagedState()) &&
                             statics.matchEnds == old(statics.matchEnds) && statics.result == old(statics.result)
      ensures var from, to := old(statics.formerCoords), old(statics.desiredCoords);
              var gate := StagedMoveGate(old(layout[..]), old(statics.matchEnds), old(statics.player1Turn), from, to);
              gate.None? ==>
                var v := Validate(old(BoardState()), old(statics.StagedState()), from, to);
                status == (if v.ok then MoveMade else MoveRefused) && statics.StagedState() == v.staged &&
                relay == (if v.ok && playingRemotely && SideIndex(old(statics.player1Turn)) == myPlayerIndex && !isSpectator
                          then Some(RelayArgs(v.result, v.staged.isTeleporting)) else None) &&
                (!v.ok ==> BoardState() == old(BoardState()) &&
                           statics.matchEnds == old(statics.matchEnds) && statics.result == old(statics.result)) &&
                (v.ok ==>
                   var o := ApplyMove(old(BoardState()), old(statics.matchEnds), old(statics.result), v.result, from, to);
                   BoardState() == o.board && statics.matchEnds == o.matchEnds && statics.result == o.result)
      ensures statics.player1Turn == (old(statics.player1Turn) != (status == MoveMade && !statics.matchEnds))
    {
      if statics.formerCoords == statics.desiredCoords {
        return NothingStaged, None;
      }
      var from := statics.formerCoords;
      var to := statics.desiredCoords;
      statics.formerCoords := Coords(0, 0);
      statics.desiredCoords := Coords(0, 0);
      if statics.matchEnds {
        return MatchEnded, None;
      }
      var currentPlayerIndex := SideIndex(statics.player1Turn);
      var playerIndexFrom := PlayerIndexAt(layout[..], from);
      if playerIndexFrom == -1 {
        return FromSquareEmpty, None;
      } else if playerIndexFrom != currentPlayerIndex {
        return FromIsOpponents, None;
      }
      var playerIndexTo := PlayerIndexAt(layout[..], to);
      if playerIndexTo == currentPlayerIndex {
        return ToIsOwn, None;
      }
      var moved;
      moved, relay := MovePiece(from, to, playingRemotely, myPlayerIndex, isSpectator);
      status := if moved then MoveMade else MoveRefused;
    }
  }
}
