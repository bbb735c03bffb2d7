# Chess piece capture analyzer — a verified Dafny model

`chess.py` is a small interactive analyzer. The user places one white
piece and one or more black pieces by chess coordinate. The program then
reports which black pieces the white piece attacks from its square.
Sliding pieces ignore blockers, and there is no move legality.

This project models the logic behind the prompts:

- **Board** (`Board.dfy`): grid squares `(row, col)`, with row 0 at
  rank 8 and column 0 at file `a`. It also defines the on-board test and
  a no-duplicates predicate for lists.
- **Input** (`Input.dfy`):
  - the coordinate check;
  - the list of six piece names and the validation gate;
  - `str.lower()` and `str.split()` on ASCII;
  - the parse of a `piece coordinate` line.
- **Coordinates** (`Coordinates.dfy`):
  - the codec between notation (`a1` … `h8`) and grid indices;
  - both round trips;
  - a proof that the valid coordinates are exactly the notations of the
    64 squares.
- **Attacks** (`Attacks.dfy`):
  - one generator per piece, each kept in the source's form: the pawn is
    a function; rook, knight, bishop and king are loop methods; the queen
    concatenates the rook and bishop lists;
  - the dispatch on the piece name.

  Each loop method is proved equal to a specification function that
  appends in the source's order. Lemmas then show that, from an on-board
  square, each function lists exactly the on-board squares the piece's
  geometry threatens, and lists each only once.
- **Capture** (`Capture.dfy`): the script's state as a `Session` class.
  It holds:
  - the white piece and its square;
  - the set of occupied squares;
  - the black pieces in the order they were added.

  Its methods model the admit-a-black-piece step, the whole handling of
  one black-piece line, and the capture filter. The class invariant says:
  - every recorded square is the decoding of its validated coordinate;
  - the black squares are pairwise distinct and never white's square;
  - the occupied set is exactly white's square plus the black squares.

Three points where the code's behaviour is easy to misread:

- The codec does not validate. Decoding is `ord(c[0]) - ord('a')` and
  `8 - int(c[1])`. Encoding is `chr(ord('a') + col) + str(8 - row)` for
  any row and any col for which `'a' + col` is a character code.
- The piece-name check is case-sensitive. Only the parse lower-cases
  the line.
- The dispatch branches on the name string and gives the empty list for
  any other string.

## Model

| member | source | states |
|---|---|---|
| Input.IsValidPosition | chess.py:3-8 | a coordinate is valid iff it has exactly two characters, the first in `a`..`h` and the second in `1`..`8` |
| Input.ValidPieces | chess.py:20-21 | exactly the six names pawn, rook, knight, bishop, queen and king, each once |
| Input.ValidatePieceInput | chess.py:33-38 | the gate holds iff the name is one of the six and the coordinate is two characters, a file `a`..`h` then a rank `1`..`8` |
| Input.Lower | chess.py:25 | the result is as long as the line and each character is that character lower-cased: `A`..`Z` become `a`..`z`, all else is kept |
| Input.Split | chess.py:25 | every token of a whitespace split is non-empty and contains no whitespace |
| Input.SplitOfLower | chess.py:25 | splitting a line with no upper-case letters gives lower-case tokens only |
| Input.SplitAtBlank | chess.py:25 | a non-empty run of whitespace separates the tokens on its two sides: split(a + w + b) = split(a) + split(b) |
| Input.ParsePieceInput | chess.py:24-30 | a parse result, when there is one, is two lower-case, whitespace-free tokens |
| Input.ParseLayout | chess.py:24-30 | two tokens with any leading, separating and trailing whitespace parse to those two tokens lower-cased, in order |
| Input.SplitSpaced | chess.py:25 | a line of whitespace-free tokens separated by non-empty whitespace runs, with optional whitespace at both ends, splits into exactly those tokens |
| Input.LowerSpaced | chess.py:25 | lower-casing such a line lower-cases each token and keeps the whitespace |
| Input.ParseSpaced | chess.py:24-30 | any such line, tokens of any case, parses iff it has exactly two tokens, and then to those two lower-cased, in order; any other count gives no result |
| Coordinates.NatToDecimal | chess.py:140 | the rendering of a natural number is a non-empty digit string with no leading zero for a positive number, and it is one digit long iff the number is below 10 |
| Coordinates.IntToDecimal | chess.py:140 | the rendering of an integer starts with `-` iff it is negative; the rest is a non-empty digit string without a leading zero (unless the number is 0) whose value is the magnitude |
| Coordinates.DecimalRoundTrip | chess.py:140 | reading back the decimal rendering gives the number again |
| Coordinates.CoordinateToIndices | chess.py:13-16 | decoding a valid coordinate gives an on-board square |
| Coordinates.IndicesToCoordinate | chess.py:137-141 | the notation of a square is at least two characters long (its exact meaning is stated by the round-trip lemmas) |
| Coordinates.IndicesRoundTrip | chess.py:137-141 | for every on-board square, its notation is a valid coordinate and decodes back to the square |
| Coordinates.CoordinateRoundTrip | chess.py:13-16 | every valid coordinate decodes to an on-board square whose notation is the same coordinate |
| Coordinates.ValidPositionIffNotation | chess.py:3-8 | a string is a valid coordinate iff it is the notation of some on-board square |
| Coordinates.ValidateIffNotation | chess.py:33-38 | the validation gate holds iff the name is one of the six and the coordinate is the notation of an on-board square |
| Coordinates.ValidityExamples | chess.py:3-8 | `i9`, `a9`, `a0`, `a10`, `A1` and the empty string are rejected; `a1` and `h8` are accepted |
| Attacks.PawnTargets | chess.py:44-51 | no targets from row 0; from an on-board square, exactly the on-board squares one row up and one column aside, each once |
| Attacks.RookTargets | chess.py:55-63 | the reference rook list: from an on-board square it has 14 entries, all on the board |
| Attacks.RookPrefixOnBoard | chess.py:58-62 | from an on-board square, every square of the partial rook list is on the board |
| Attacks.GetRookTargets | chess.py:55-63 | the loop builds the rook list in the source's order (row square, then column square, for i = 0..7) |
| Attacks.RookPrefixMember | chess.py:58-62 | after n rounds the list holds exactly the squares of the row and of the column with index below n, other than the origin |
| Attacks.RookPrefixDistinct | chess.py:58-62 | the rook list never names a square twice |
| Attacks.RookPrefixLength | chess.py:58-62 | after n rounds the list has 2n entries, less one for each of col and row that is already below n |
| Attacks.RookExact | chess.py:55-63 | from an on-board square: exactly the other squares of its row and column, no duplicates, 14 in all |
| Attacks.KnightTargets | chess.py:67-79 | the reference knight list: at most eight squares, all on the board |
| Attacks.KingTargets | chess.py:104-116 | the reference king list: every square on the board |
| Attacks.ShiftsBounds | chess.py:74-78 | an offset table gives at most one square per offset, each on the board |
| Attacks.GetKnightTargets | chess.py:67-79 | the loop keeps, in table order, the on-board landing squares of the eight offsets |
| Attacks.KnightMovesExact | chess.py:70-73 | an offset is in the knight table iff it is an L-shaped jump (±1, ±2) or (±2, ±1) |
| Attacks.KnightMovesDistinct | chess.py:70-73 | the knight table lists each offset once |
| Attacks.ShiftsMember | chess.py:74-78 | a square is a shifted target iff it is on the board and its non-zero offset from the origin is in the table |
| Attacks.ShiftsDistinct | chess.py:74-78 | a duplicate-free offset table gives a duplicate-free target list |
| Attacks.ShiftsSnoc | chess.py:74-78 | one more offset appends at most its own landing square |
| Attacks.KnightExact | chess.py:67-79 | from an on-board square: exactly the on-board squares an L-shaped jump away, each once |
| Attacks.BishopTargets | chess.py:84-95 | the reference bishop list: every square on the board |
| Attacks.RayOnBoard | chess.py:91-94 | every square on a ray is on the board |
| Attacks.RaysOnBoard | chess.py:88-94 | every square on the rays of a direction list is on the board |
| Attacks.GetBishopTargets | chess.py:84-95 | the loops give the four rays in direction-table order, each stepped until it leaves the board |
| Attacks.RayMember | chess.py:91-94 | a square is on a ray iff the ray's start is on the board and the square is on the board, on the same side and the same diagonal |
| Attacks.RayDistinct | chess.py:91-94 | a ray never names a square twice |
| Attacks.NeighbourRayMember | chess.py:89-94 | the ray leaving an on-board square in a direction holds exactly the on-board diagonal squares in that quadrant |
| Attacks.RaysSnoc | chess.py:88-94 | one more direction appends exactly its ray |
| Attacks.BishopRays | chess.py:87-95 | the bishop list is the rays towards (−1,−1), (−1,1), (1,−1) and (1,1), concatenated in that order |
| Attacks.BishopMembers | chess.py:84-95 | from an on-board square, exactly the on-board squares with equal non-zero row and column distance |
| Attacks.BishopDistinct | chess.py:84-95 | from an on-board square the four rays are pairwise disjoint, and the bishop list has no duplicates |
| Attacks.BishopExact | chess.py:84-95 | the bishop list is exactly the on-board diagonal squares, each once |
| Attacks.QueenTargets | chess.py:99-101 | the reference queen list: from an on-board square, every square on the board |
| Attacks.GetQueenTargets | chess.py:99-101 | the queen list is the rook list followed by the bishop list |
| Attacks.QueenExact | chess.py:99-101 | from an on-board square, the rook and bishop lists share no square; the queen list is exactly the line and diagonal squares, each once |
| Attacks.KingGridAt | chess.py:108-109 | round (i, j) of the nested king loops visits the pair (deltas[i], deltas[j]) |
| Attacks.GetKingTargets | chess.py:104-116 | the nested loops keep, in loop order, the on-board squares of the eight non-zero (dr, dc) pairs |
| Attacks.KingGridExact | chess.py:108-109 | the loops visit exactly the pairs with both components in −1..1 |
| Attacks.KingGridDistinct | chess.py:108-109 | the nested loops visit each pair once |
| Attacks.KingExact | chess.py:104-116 | from an on-board square: exactly the on-board squares at Chebyshev distance 1, each once |
| Attacks.AttackList | chess.py:121-134 | the reference dispatch: empty for a name outside the six, and from an on-board square never off the board |
| Attacks.AttackListExact | chess.py:121-134 | from an on-board square, every piece's list is exactly the on-board squares its geometry threatens, with no duplicates, none off the board and never the origin |
| Attacks.AttackListUnknown | chess.py:134 | a name outside the six attacks nothing |
| Attacks.GetAttackPositions | chess.py:121-134 | dispatches to the matching generator; an unknown name gives the empty list; from an on-board square the result is exactly the threatened squares, each once |
| Attacks.RookExample | chess.py:55-63 | a rook on the square decoded from d4 attacks exactly the 14 squares of row 4 and column 3 other than (4, 3) |
| Attacks.KnightExample | chess.py:67-79 | a knight on the square decoded from a1 attacks exactly (5, 1) and (6, 2) |
| Attacks.BishopExample | chess.py:84-95 | a bishop on the square decoded from a1 attacks exactly the seven squares (6, 1) … (0, 7) of its one diagonal |
| Attacks.KingExample | chess.py:104-116 | a king on the square decoded from h8 attacks exactly (0, 6), (1, 6) and (1, 7) |
| Capture.ReadEntry | chess.py:181-189 | a line is malformed iff it does not parse; rejected iff it parses but fails validation; otherwise accepted with the parsed pair, which decodes onto the board |
| Capture.KeptMembers | chess.py:209-211 | a black piece is kept iff it is recorded and its square is in the attack list |
| Capture.KeptAppend | chess.py:209-211 | the filter preserves insertion order: filtering a + b gives the filtered a followed by the filtered b |
| Capture.Kept | chess.py:209-211 | the filter yields no more pieces than were recorded, and only recorded pieces whose square is in the attack list |
| Capture.KeptSnoc | chess.py:209-211 | one more recorded piece is appended to the result exactly when its square is in the attack list |
| Capture.NamesMembers | chess.py:211 | the report has one (piece, coord) pair per kept piece, position by position |
| Capture.FilterCapturable | chess.py:207-211 | the loop reports the (piece, coord) pairs of the recorded pieces whose square is attacked, in insertion order |
| Capture.Session.constructor | chess.py:162-164 | white's square is the decoding of its validated coordinate and the only occupied square; no black pieces yet |
| Capture.Session.AdmitBlack | chess.py:191-198 | admitted iff the square is not yet occupied; if admitted, the square is added and exactly one entry is appended; otherwise nothing changes; the session invariant is kept |
| Capture.Session.SubmitBlack | chess.py:181-198 | a line gives a format error, invalid piece or position, duplicate position, or added, each in exactly its case; only added changes the state, by one square and one entry |
| Capture.Session.FindCapturable | chess.py:206-211 | the report is the ordered filter of the black pieces by white's attack list; a recorded piece is reported iff white's geometry threatens its square |
| Capture.Session.CapturableIffThreatened | chess.py:206-211 | under the session invariant, a recorded piece is in the report iff white threatens its square, and the report is no longer than the list |
| Capture.SampleWhite | chess.py:191-195 | with a white rook on a1, a black pawn offered on a1 is refused; only a1 stays occupied and no black piece is recorded |
| Capture.SampleAttack | chess.py:206 | a rook on a1 attacks a8 and h1 but not b2 |
| Capture.SampleCapture | chess.py:207-211 | for pawns recorded on a8, h1 and b2 and an attack list holding the first two squares but not the third, the report is exactly the a8 and h1 pawns, in that order |

The last three rows work through one sample session. White is a rook on
a1, and a black piece offered on a1 is refused. Of black pawns on a8, h1
and b2, the first two are reported as capturable and the third is not.

## Left out

- The prompt loops, `input()` and every `print()` (chess.py:144-160,
  172-189, 199-222). They are console I/O. The model keeps what they
  compute: `ReadEntry` and `Session.SubmitBlack` for one entry line, and
  `Session.FindCapturable` for the analysis.
- The `done` sentinel and the re-prompt until at least one black piece
  is recorded (chess.py:175-179). This is loop control around console
  input: the analysis is defined for any number of black pieces.
- The white-entry loop (chess.py:147-160) is not a method. Its
  parse-then-validate step is `ReadEntry`, and the `Session` constructor
  requires its accepted result.
- Input.Lower: handles ASCII only. Python's `str.lower()` also maps
  non-ASCII letters, and the Kelvin sign K becomes `k`, so a line such as
  "King a1" would be accepted by the source and rejected here.
- Input.Split: treats only ASCII whitespace (space, `\t`..`\r`,
  `\x1c`..`\x1f`) as separators. Python's `str.split()` also splits on
  Unicode spaces such as U+00A0 and U+2028.
- Coordinates.CoordinateToIndices: requires an ASCII digit as the second
  character. Python's `int()` also accepts other Unicode decimal digits,
  and raises an error on anything else. The script only calls it on
  validated coordinates.
- Coordinates.IndicesToCoordinate: requires that `'a' + col` is a Unicode
  scalar value. Python's `chr()` also accepts surrogate code points.
- Attacks.Ray: returns the empty ray for the step (0, 0). From an on-board
  square the source's `while` loop (chess.py:91-94) never ends on that
  step. For every other step, `Ray` walks the board exactly as the loop
  does. The direction table only holds the four diagonal unit steps.
- Capture.Session.AdmitBlack: requires an entry that has already been
  validated, as the script only reaches this step after validation
  (chess.py:187-189). `Session.SubmitBlack` covers the whole path,
  including rejected lines.
- Move legality (blocking, check, pins, turns). The source does not
  implement it either.
