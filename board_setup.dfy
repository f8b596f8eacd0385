/**
 * Building a match's piece roster from its layout
 * (`ChessMatch::InitPiecesToMatchBoardState`) and loading a layout from its
 * 64-character text (`ChessMatch::SetBoardStateByString`).
 */
module BoardSetup {
  import opened BoardCoords
  import opened PieceRules
  import opened MatchTypes
  import opened MoveEffects

  /** A piece as the roster builder creates it: never moved, its previous square its current one. */
  function NewPiece(g: char, c: Coords): (p: Piece)
    requires IsPieceGlyph(g)
    ensures PieceGlyph(p) == g
    ensures p.current == c && p.previous == c && p.turnLastMoved == 0
  {
    KindOfGlyphRoundTrip(g);
    Piece(KindOfGlyph(g).value, 'a' <= g <= 'z', c, c, 0)
  }

  /**
   * The roster built from the first `n` layout cells, in cell order: one new
   * piece per cell that shows a glyph of the definition table; empty cells
   * and any other character are skipped.
   */
  function RosterUpTo(layout: seq<char>, n: nat): (ps: seq<Piece>)
    requires |layout| == LayoutSize && n <= 64
    ensures |ps| <= n
  {
    if n == 0 then []
    else
      var k := n - 1;
      RosterUpTo(layout, k) + (if IsPieceGlyph(layout[k]) then [NewPiece(layout[k], SquareOf(k))] else [])
  }

  /** The roster of a whole layout. */
  function RosterOf(layout: seq<char>): seq<Piece>
    requires |layout| == LayoutSize
  {
    RosterUpTo(layout, 64)
  }

  /**
   * What the first `n` cells contribute: pieces on distinct squares among
   * those cells, each showing its cell's glyph, one for every table glyph
   * among them.
   */
  predicate RosterFacts(layout: seq<char>, ps: seq<Piece>, n: nat)
    requires |layout| == LayoutSize && n <= 64
  {
    OnBoardApart(ps) &&
    (forall i :: 0 <= i < |ps| ==> 0 <= Cell(ps[i].current) < n) &&
    (forall i :: 0 <= i < |ps| ==> layout[Cell(ps[i].current)] == PieceGlyph(ps[i])) &&
    (forall k :: 0 <= k < n && IsPieceGlyph(layout[k]) ==> Occupied(ps, SquareOf(k)))
  }

  /** The roster built from the first `n` cells has the facts of those cells. */
  lemma {:induction false} RosterUpToFacts(layout: seq<char>, n: nat)
    requires |layout| == LayoutSize && n <= 64
    ensures RosterFacts(layout, RosterUpTo(layout, n), n)
  {
    if n > 0 {
      var k := n - 1;
      RosterUpToFacts(layout, k);
      var prev := RosterUpTo(layout, k);
      if IsPieceGlyph(layout[k]) {
        assert RosterUpTo(layout, n) == prev + [NewPiece(layout[k], SquareOf(k))];
        AppendCellPiece(layout, prev, k);
      } else {
        assert RosterUpTo(layout, n) == prev;
        assert RosterFacts(layout, prev, n);
      }
    }
  }

  /** Adding the piece of cell `k` to a roster of the cells before it gives a roster of the cells up to `k`. */
  lemma {:induction false} AppendCellPiece(layout: seq<char>, prev: seq<Piece>, k: nat)
    requires |layout| == LayoutSize && k < 64 && IsPieceGlyph(layout[k]) && RosterFacts(layout, prev, k)
    ensures RosterFacts(layout, prev + [NewPiece(layout[k], SquareOf(k))], k + 1)
  {
    IndexOnBoard(k);
    IndexThenCoords(k);
    var p := NewPiece(layout[k], SquareOf(k));
    var ps := prev + [p];
    assert ps[|prev|] == p;
    forall i | 0 <= i < |prev|
      ensures ps[i].current != p.current
    {
      assert Cell(ps[i].current) < k;
    }
    forall j | 0 <= j < k + 1 && IsPieceGlyph(layout[j])
      ensures Occupied(ps, SquareOf(j))
    {
      if j < k {
        var i :| 0 <= i < |prev| && prev[i].current == SquareOf(j);
        assert ps[i].current == SquareOf(j);
      } else {
        assert ps[|prev|].current == SquareOf(j);
      }
    }
  }

  /**
   * Building the roster of a layout whose every cell is empty or a table
   * glyph makes the layout and the roster agree.
   */
  lemma {:induction false} RosterOfAgrees(layout: seq<char>)
    requires |layout| == LayoutSize
    requires forall k :: 0 <= k < 64 ==> layout[k] == Empty || IsPieceGlyph(layout[k])
    ensures Agree(layout, RosterOf(layout))
  {
    RosterUpToFacts(layout, 64);
  }

  /**
   * A cell that holds any other character has no roster piece, so such a
   * layout never agrees with the roster built from it.
   */
  lemma {:induction false} StrayGlyphDisagrees(layout: seq<char>, k: int)
    requires |layout| == LayoutSize && 0 <= k < 64
    requires layout[k] != Empty && !IsPieceGlyph(layout[k])
    ensures !Agree(layout, RosterOf(layout))
  {
    RosterUpToFacts(layout, 64);
    var ps := RosterOf(layout);
    IndexOnBoard(k);
    IndexThenCoords(k);
    if Occupied(ps, SquareOf(k)) {
      var i :| 0 <= i < |ps| && ps[i].current == SquareOf(k);
      GlyphRoundTrip(ps[i].kind, ps[i].player1Side);
    }
  }

  /** Every roster piece built from a layout is unmoved, with its previous square its current one. */
  lemma {:induction false} RosterOfUnmoved(layout: seq<char>, n: nat)
    requires |layout| == LayoutSize && n <= 64
    ensures forall i :: 0 <= i < |RosterUpTo(layout, n)| ==>
              RosterUpTo(layout, n)[i].turnLastMoved == 0 &&
              RosterUpTo(layout, n)[i].previous == RosterUpTo(layout, n)[i].current
  {
    if n > 0 {
      RosterOfUnmoved(layout, n - 1);
    }
  }

  // ---------------------------------------------------------------------
  // The layout text
  // ---------------------------------------------------------------------

  /**
   * `ChessMatch::SetBoardStateByString`: the first (at most) 64 characters of
   * the text overwrite the layout's first cells; the cells past a shorter
   * text keep their old glyphs.
   */
  function LayoutFromString(layout: seq<char>, text: string): (l: seq<char>)
    requires |layout| == LayoutSize
    ensures |l| == LayoutSize
    ensures forall k :: 0 <= k < 64 && k < |text| ==> l[k] == text[k]
    ensures forall k :: |text| <= k < 64 ==> l[k] == layout[k]
  {
    if |text| >= 64 then text[..64] else text + layout[|text|..]
  }

  /**
   * A text of at least 64 characters fixes the whole layout, whatever it was
   * before; reading the layout back as text gives the text's first 64
   * characters.
   */
  lemma {:induction false} FullTextFixesLayout(l1: seq<char>, l2: seq<char>, text: string)
    requires |l1| == LayoutSize && |l2| == LayoutSize && |text| >= 64
    ensures LayoutFromString(l1, text) == LayoutFromString(l2, text) == text[..64]
  {
    var a, b := LayoutFromString(l1, text), LayoutFromString(l2, text);
    assert forall k :: 0 <= k < 64 ==> a[k] == text[k] == b[k];
  }

  /** Loading a layout's own text leaves it unchanged. */
  lemma {:induction false} LoadOwnTextIsIdentity(layout: seq<char>, text: string)
    requires |layout| == LayoutSize && text == layout
    ensures LayoutFromString(layout, text) == layout
  {
    var a := LayoutFromString(layout, text);
    assert forall k :: 0 <= k < 64 ==> a[k] == layout[k];
  }
}
