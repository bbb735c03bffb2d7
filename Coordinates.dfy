/** The coordinate codec between chess notation ("a1".."h8") and grid
    indices (row, col) with row = 8 - rank and col = file - 'a'
    (chess.py:13-16, chess.py:137-141). */
module Coordinates {
  import opened Board
  import opened Input

  predicate IsDigit(ch: char)
  {
    '0' <= ch <= '9'
  }

  function DigitValue(ch: char): int
    requires IsDigit(ch)
  {
    ch as int - '0' as int
  }

  function DigitChar(d: int): char
    requires 0 <= d <= 9
  {
    ('0' as int + d) as char
  }

  /** Integers that name a Dafny character (a Unicode scalar value). */
  predicate IsCharCode(n: int)
  {
    0 <= n < 0xD800 || 0xE000 <= n < 0x11_0000
  }

  /** Python's str() on a non-negative integer: its decimal digits, most
      significant first, without leading zeros. */
  function NatToDecimal(n: nat): (s: string)
    ensures |s| >= 1 && forall i :: 0 <= i < |s| ==> IsDigit(s[i])
    ensures n < 10 <==> |s| == 1
    ensures n > 0 ==> s[0] != '0'
  {
    if n < 10 then [DigitChar(n)] else NatToDecimal(n / 10) + [DigitChar(n % 10)]
  }

  /** Python's str() on any integer: a minus sign exactly for a negative
      number, followed by the digits of its magnitude. */
  function IntToDecimal(n: int): (s: string)
    ensures |s| >= 1 && (s[0] == '-' <==> n < 0)
    ensures var digits := if n < 0 then s[1..] else s;
      |digits| >= 1 && (forall i :: 0 <= i < |digits| ==> IsDigit(digits[i])) &&
      (n != 0 ==> digits[0] != '0') && DecimalValue(digits) == Abs(n)
  {
    DecimalRoundTrip(Abs(n));
    if n < 0 then "-" + NatToDecimal(-n) else NatToDecimal(n)
  }

  /** The value a string of decimal digits denotes. */
  function DecimalValue(s: string): nat
    requires forall i :: 0 <= i < |s| ==> IsDigit(s[i])
  {
    if s == [] then 0
    else DecimalValue(s[..|s| - 1]) * 10 + DigitValue(s[|s| - 1])
  }

  /** Reading back the decimal rendering gives the number again. */
  lemma {:induction false} DecimalRoundTrip(n: nat)
    ensures DecimalValue(NatToDecimal(n)) == n
  {
    var s := NatToDecimal(n);
    if n >= 10 {
      DecimalRoundTrip(n / 10);
      assert s[..|s| - 1] == NatToDecimal(n / 10);
    }
  }

  /** Grid indices of a coordinate (chess.py:13-16). Python only needs a
      second character that int() accepts; the file letter is not checked,
      so only a valid coordinate is guaranteed to land on the board. */
  function CoordinateToIndices(coord: string): (sq: Square)
    requires |coord| >= 2 && IsDigit(coord[1])
    ensures IsValidPosition(coord) ==> OnBoard(sq)
  {
    (8 - DigitValue(coord[1]), coord[0] as int - 'a' as int)
  }

  /** Chess notation of grid indices (chess.py:137-141): the character
      'a' + col followed by str(8 - row). Python's chr() needs a code point. */
  function IndicesToCoordinate(row: int, col: int): (coord: string)
    requires IsCharCode('a' as int + col)
    ensures |coord| >= 2
  {
    [('a' as int + col) as char] + IntToDecimal(8 - row)
  }

  /** Every on-board square has a valid coordinate, and decoding that
      coordinate gives the square back. */
  lemma IndicesRoundTrip(row: int, col: int)
    requires OnBoard((row, col))
    ensures IsValidPosition(IndicesToCoordinate(row, col))
    ensures CoordinateToIndices(IndicesToCoordinate(row, col)) == (row, col)
  {
    var coord := IndicesToCoordinate(row, col);
    assert coord == [('a' as int + col) as char, DigitChar(8 - row)];
  }

  /** Decoding a valid coordinate lands on the board, and encoding the
      square gives the same coordinate back. */
  lemma CoordinateRoundTrip(coord: string)
    requires IsValidPosition(coord)
    ensures OnBoard(CoordinateToIndices(coord))
    ensures IndicesToCoordinate(CoordinateToIndices(coord).0, CoordinateToIndices(coord).1) == coord
  {
    var sq := CoordinateToIndices(coord);
    var back := IndicesToCoordinate(sq.0, sq.1);
    assert back == [coord[0], coord[1]];
  }

  /** The valid coordinates are exactly the notations of the 64 squares. */
  lemma ValidPositionIffNotation(coord: string)
    ensures IsValidPosition(coord) <==>
      exists row, col :: OnBoard((row, col)) && coord == IndicesToCoordinate(row, col)
  {
    if IsValidPosition(coord) {
      CoordinateRoundTrip(coord);
      var sq := CoordinateToIndices(coord);
      assert OnBoard((sq.0, sq.1)) && coord == IndicesToCoordinate(sq.0, sq.1);
    }
    if exists row, col :: OnBoard((row, col)) && coord == IndicesToCoordinate(row, col) {
      var row, col :| OnBoard((row, col)) && coord == IndicesToCoordinate(row, col);
      IndicesRoundTrip(row, col);
    }
  }

  /** The validation gate accepts exactly a listed piece name together with
      the notation of an on-board square (chess.py:33-38). */
  lemma ValidateIffNotation(piece: string, coord: string)
    ensures ValidatePieceInput(piece, coord) <==>
      (piece == "pawn" || piece == "rook" || piece == "knight" ||
       piece == "bishop" || piece == "queen" || piece == "king") &&
      exists row, col :: OnBoard((row, col)) && coord == IndicesToCoordinate(row, col)
  {
    ValidPositionIffNotation(coord);
  }

  /** The validity checks on sample coordinates. */
  lemma ValidityExamples()
    ensures !IsValidPosition("i9") && !IsValidPosition("a9") && !IsValidPosition("a0")
    ensures IsValidPosition("a1") && IsValidPosition("h8")
    ensures !IsValidPosition("a10") && !IsValidPosition("A1") && !IsValidPosition("")
  {
  }
}
