/**
 * Square notation and board coordinates.
 *
 * A square is written as two characters (a file letter `A`-`H` or `a`-`h`,
 * then a rank digit `1`-`8`), addressed as an (x, y) pair with x the file and
 * y the rank, both 0..7, and stored in the 64-cell layout at the rank-major
 * index y * 8 + x.
 */
module BoardCoords {

  /** A pair of board coordinates; the engine's integer 2-vector. */
  datatype Coords = Coords(x: int, y: int)

  /** The coordinates the parser returns for text that is not a square. */
  const InvalidCoords: Coords := Coords(-1, -1)

  /** Integer division of a 32-bit C++ `int`: truncates toward zero. */
  function TruncDiv(a: int, b: int): (q: int)
    requires b > 0
    ensures a >= 0 ==> q == a / b
    ensures a < 0 ==> q == -((-a) / b)
  {
    if a >= 0 then a / b else -((-a) / b)
  }

  /** Remainder of a 32-bit C++ `int`: takes the sign of the dividend. */
  function TruncMod(a: int, b: int): (r: int)
    requires b > 0
    ensures a >= 0 ==> 0 <= r < b
    ensures a < 0 ==> -b < r <= 0
  {
    if a >= 0 then a % b else -((-a) % b)
  }

  predicate IsFileLetter(c: char) {
    ('A' <= c <= 'H') || ('a' <= c <= 'h')
  }

  predicate IsRankDigit(c: char) {
    49 <= c as int <= 56
  }

  /** `IsSquareCoordsValid`: two characters, a file letter then a rank digit. */
  predicate IsSquareCoordsValid(s: string) {
    |s| == 2 && IsFileLetter(s[0]) && IsRankDigit(s[1])
  }

  /** `IsBoardCoordsValid`: both components lie on the board. */
  predicate IsBoardCoordsValid(c: Coords) {
    0 <= c.x <= 7 && 0 <= c.y <= 7
  }

  /** `GetBoardCoordsForUserString`: square text to coordinates, (-1,-1) when the text is no square. */
  function BoardCoordsForUserString(s: string): (c: Coords)
    ensures IsSquareCoordsValid(s) <==> IsBoardCoordsValid(c)
    ensures !IsSquareCoordsValid(s) ==> c == InvalidCoords
    ensures IsSquareCoordsValid(s) ==> c.y == s[1] as int - '1' as int
  {
    if !IsSquareCoordsValid(s) then InvalidCoords
    else
      var x := if s[0] < 'a' then s[0] as int - 65 else s[0] as int - 97;
      Coords(x, s[1] as int - 49)
  }

  /** `GetBoardStateIndexForBoardCoords`: the rank-major layout index. */
  function BoardStateIndexForBoardCoords(c: Coords): int {
    c.y * 8 + c.x
  }

  /** `GetBoardCoordsForBoardStateIndex`, with C++ truncating `/` and `%`. */
  function BoardCoordsForBoardStateIndex(index: int): Coords {
    Coords(TruncMod(index, 8), TruncDiv(index, 8))
  }

  /** `GetBoardStateIndexForUserString`: square text straight to a layout index. */
  function BoardStateIndexForUserString(s: string): (i: int)
    ensures IsSquareCoordsValid(s) ==> 0 <= i < 64
    ensures !IsSquareCoordsValid(s) ==> i == -9
  {
    BoardStateIndexForBoardCoords(BoardCoordsForUserString(s))
  }

  /** The low eight bits of an `int`, as the `(char)` cast keeps them. */
  function ByteChar(n: int): (c: char)
    ensures 0 <= c as int < 256
    ensures 0 <= n < 256 ==> c as int == n
  {
    (n % 256) as char
  }

  /** `GetSquareCoordsForBoardCoords`: coordinates to upper-case square text. */
  function SquareCoordsForBoardCoords(c: Coords): (s: string)
    ensures |s| == 2
    ensures IsBoardCoordsValid(c) ==> IsSquareCoordsValid(s) && 'A' <= s[0] <= 'H'
  {
    [ByteChar(c.x + 65), ByteChar(c.y + 49)]
  }

  /** Upper-case form of a square's text (the file letter only). */
  function UpperSquare(s: string): string
    requires IsSquareCoordsValid(s)
  {
    [if s[0] < 'a' then s[0] else (s[0] as int - 32) as char, s[1]]
  }

  // ---------------------------------------------------------------------
  // Properties
  // ---------------------------------------------------------------------

  /** Printing valid coordinates and parsing the text gives them back. */
  lemma PrintThenParse(c: Coords)
    requires IsBoardCoordsValid(c)
    ensures IsSquareCoordsValid(SquareCoordsForBoardCoords(c))
    ensures BoardCoordsForUserString(SquareCoordsForBoardCoords(c)) == c
  {
    var s := SquareCoordsForBoardCoords(c);
    assert s[0] as int == c.x + 65 && s[1] as int == c.y + 49;
  }

  /** Parsing valid text and printing the coordinates gives the text back in upper case. */
  lemma ParseThenPrint(s: string)
    requires IsSquareCoordsValid(s)
    ensures SquareCoordsForBoardCoords(BoardCoordsForUserString(s)) == UpperSquare(s)
  {
    var c := BoardCoordsForUserString(s);
    var t := SquareCoordsForBoardCoords(c);
    assert t[0] == UpperSquare(s)[0];
    assert t[1] == s[1];
  }

  /** Upper- and lower-case files name the same column. */
  lemma FileCaseInsensitive(s: string, t: string)
    requires IsSquareCoordsValid(s) && IsSquareCoordsValid(t)
    requires s[1] == t[1]
    ensures BoardCoordsForUserString(s) == BoardCoordsForUserString(t)
            <==> UpperSquare(s) == UpperSquare(t)
  {
    ParseThenPrint(s);
    ParseThenPrint(t);
    if UpperSquare(s) == UpperSquare(t) {
      assert UpperSquare(s)[0] == UpperSquare(t)[0];
    }
  }

  /** Every layout index maps back to itself, for every `int` (C++ division identity). */
  lemma IndexThenCoords(i: int)
    ensures BoardStateIndexForBoardCoords(BoardCoordsForBoardStateIndex(i)) == i
  {
    if i < 0 {
      var q, r := (-i) / 8, (-i) % 8;
      assert -i == q * 8 + r;
    }
  }

  /** On the board, coordinates to index and back is the identity. */
  lemma CoordsThenIndex(c: Coords)
    requires IsBoardCoordsValid(c)
    ensures 0 <= BoardStateIndexForBoardCoords(c) < 64
    ensures BoardCoordsForBoardStateIndex(BoardStateIndexForBoardCoords(c)) == c
  {
    var i := BoardStateIndexForBoardCoords(c);
    assert i == c.y * 8 + c.x;
    assert i / 8 == c.y && i % 8 == c.x;
  }

  /** Indices 0..63 are exactly the layout indices of valid coordinates. */
  lemma IndexOnBoard(i: int)
    requires 0 <= i < 64
    ensures IsBoardCoordsValid(BoardCoordsForBoardStateIndex(i))
  {
  }

  /**
   * Valid coordinates are exactly those whose index is on the board and
   * whose index maps back to them; a flattened index alone can be on the
   * board for coordinates that are not (x = -1 or x = 8 wraps to the
   * neighbouring rank).
   */
  lemma ValidIffIndexRoundTrips(c: Coords)
    ensures IsBoardCoordsValid(c) <==>
            (0 <= BoardStateIndexForBoardCoords(c) < 64 &&
             BoardCoordsForBoardStateIndex(BoardStateIndexForBoardCoords(c)) == c)
  {
    if IsBoardCoordsValid(c) {
      CoordsThenIndex(c);
    } else if 0 <= BoardStateIndexForBoardCoords(c) < 64 {
      IndexOnBoard(BoardStateIndexForBoardCoords(c));
    }
  }

  /** The index of coordinates one file off the board lands on the board (x = -1 at rank 3). */
  lemma OffBoardIndexWraps()
    ensures !IsBoardCoordsValid(Coords(-1, 3))
    ensures BoardStateIndexForBoardCoords(Coords(-1, 3)) == BoardStateIndexForBoardCoords(Coords(7, 2))
  {
  }
}
