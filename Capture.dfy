/** The analysis session of the top-level script (chess.py:143-222) without
    its prompts and printing: reading one entry line, the white piece's
    square, admitting black pieces onto free squares (chess.py:191-198) and
    filtering the black pieces the white piece attacks (chess.py:206-211). */
module Capture {
  import opened Board
  import opened Input
  import opened Coordinates
  import opened Attacks

  /** A recorded black piece: the tuple (piece, coord, row, col) that the
      script appends. */
  datatype BlackPiece = BlackPiece(piece: string, coord: string, row: int, col: int)
  {
    function At(): Square
    {
      (row, col)
    }
  }

  /** What reading one "piece coordinate" line gives: a format error (not
      exactly two tokens), a rejected piece name or coordinate, or an
      accepted, lower-cased pair. */
  datatype Entry = Malformed | Rejected | Accepted(piece: string, coord: string)

  /** The parse-then-validate steps both input loops run on a line
      (chess.py:150-158, chess.py:181-189). */
  function ReadEntry(line: string): (e: Entry)
    ensures e.Malformed? <==> ParsePieceInput(line).None?
    ensures e.Accepted? ==>
      ParsePieceInput(line) == Some((e.piece, e.coord)) &&
      ValidatePieceInput(e.piece, e.coord) && OnBoard(CoordinateToIndices(e.coord))
    ensures e.Rejected? ==>
      ParsePieceInput(line).Some? &&
      !ValidatePieceInput(ParsePieceInput(line).value.0, ParsePieceInput(line).value.1)
  {
    match ParsePieceInput(line)
    case None => Malformed
    case Some((piece, coord)) =>
      if ValidatePieceInput(piece, coord) then Accepted(piece, coord) else Rejected
  }

  /** The recorded pieces whose square is in the attack list, in the order
      they were recorded. */
  function Kept(pieces: seq<BlackPiece>, attack: seq<Square>): (kept: seq<BlackPiece>)
    ensures |kept| <= |pieces|
    ensures forall p :: p in kept ==> p in pieces && p.At() in attack
  {
    if pieces == [] then []
    else
      var p := pieces[|pieces| - 1];
      Kept(pieces[..|pieces| - 1], attack) + (if p.At() in attack then [p] else [])
  }

  /** The (piece, coord) pairs the script reports, one per recorded piece. */
  function Names(pieces: seq<BlackPiece>): seq<(string, string)>
  {
    if pieces == [] then []
    else
      var p := pieces[|pieces| - 1];
      Names(pieces[..|pieces| - 1]) + [(p.piece, p.coord)]
  }

  /** A piece is kept exactly when it is recorded and attacked. */
  lemma {:induction false} KeptMembers(pieces: seq<BlackPiece>, attack: seq<Square>)
    ensures forall p :: p in Kept(pieces, attack) <==> p in pieces && p.At() in attack
  {
    if pieces != [] {
      var init := pieces[..|pieces| - 1];
      assert pieces == init + [pieces[|pieces| - 1]];
      KeptMembers(init, attack);
    }
  }

  /** Filtering a session split in two filters each part, in order. */
  lemma {:induction false} KeptAppend(a: seq<BlackPiece>, b: seq<BlackPiece>, attack: seq<Square>)
    ensures Kept(a + b, attack) == Kept(a, attack) + Kept(b, attack)
  {
    if b == [] {
      assert a + b == a;
    } else {
      var init := b[..|b| - 1];
      assert (a + b)[..|a + b| - 1] == a + init;
      KeptAppend(a, init, attack);
    }
  }

  lemma KeptSnoc(pieces: seq<BlackPiece>, p: BlackPiece, attack: seq<Square>)
    ensures Kept(pieces + [p], attack) == Kept(pieces, attack) + (if p.At() in attack then [p] else [])
  {
    assert (pieces + [p])[..|pieces|] == pieces;
  }

  lemma NamesSnoc(pieces: seq<BlackPiece>, p: BlackPiece)
    ensures Names(pieces + [p]) == Names(pieces) + [(p.piece, p.coord)]
  {
    assert (pieces + [p])[..|pieces|] == pieces;
  }

  lemma {:induction false} NamesMembers(pieces: seq<BlackPiece>)
    ensures |Names(pieces)| == |pieces|
    ensures forall i :: 0 <= i < |pieces| ==> Names(pieces)[i] == (pieces[i].piece, pieces[i].coord)
  {
    if pieces != [] {
      NamesMembers(pieces[..|pieces| - 1]);
    }
  }

  /** The outcome of offering one black-piece line. */
  datatype Outcome = FormatError | InvalidPieceOrPosition | DuplicatePosition | Added

  function SquaresOf(pieces: seq<BlackPiece>): set<Square>
  {
    set i | 0 <= i < |pieces| :: pieces[i].At()
  }

  /** A black piece as the script records it: validated, with the grid
      indices of its coordinate. */
  predicate Recorded(p: BlackPiece)
  {
    ValidatePieceInput(p.piece, p.coord) && p.At() == CoordinateToIndices(p.coord)
  }

  /** The session state of the script: the white piece and its square, the
      occupied squares and the black pieces in the order they were added. */
  class Session {
    const whitePiece: string
    const whiteCoord: string
    const whiteRow: int
    const whiteCol: int
    var occupied: set<Square>
    var blackPieces: seq<BlackPiece>

    /** Every black piece is recorded from a validated entry, stands on its
        own square and not on white's, and the occupied set is exactly
        white's square and the black squares. */
    ghost predicate Valid()
      reads this
    {
      && ValidatePieceInput(whitePiece, whiteCoord)
      && (whiteRow, whiteCol) == CoordinateToIndices(whiteCoord)
      && occupied == {(whiteRow, whiteCol)} + SquaresOf(blackPieces)
      && (forall i :: 0 <= i < |blackPieces| ==>
            Recorded(blackPieces[i]) && blackPieces[i].At() != (whiteRow, whiteCol))
      && (forall i, j :: 0 <= i < j < |blackPieces| ==> blackPieces[i].At() != blackPieces[j].At())
    }

    /** The white piece is placed and its square occupied (chess.py:162-164). */
    constructor (piece: string, coord: string)
      requires ValidatePieceInput(piece, coord)
      ensures Valid()
      ensures whitePiece == piece && whiteCoord == coord
      ensures (whiteRow, whiteCol) == CoordinateToIndices(coord)
      ensures occupied == {(whiteRow, whiteCol)} && blackPieces == []
    {
      whitePiece, whiteCoord := piece, coord;
      var (row, col) := CoordinateToIndices(coord);
      whiteRow, whiteCol := row, col;
      occupied := {(row, col)};
      blackPieces := [];
      assert SquaresOf([]) == {};
    }

    /** Admit a validated black piece unless its square is already occupied
        (chess.py:191-198). A rejected piece changes nothing; an admitted
        one adds its square and is appended once. */
    method AdmitBlack(piece: string, coord: string) returns (admitted: bool)
      requires Valid() && ValidatePieceInput(piece, coord)
      modifies this
      ensures Valid()
      ensures admitted <==> CoordinateToIndices(coord) !in old(occupied)
      ensures admitted ==>
        occupied == old(occupied) + {CoordinateToIndices(coord)} &&
        blackPieces == old(blackPieces) +
          [BlackPiece(piece, coord, CoordinateToIndices(coord).0, CoordinateToIndices(coord).1)]
      ensures !admitted ==> occupied == old(occupied) && blackPieces == old(blackPieces)
    {
      var (blackRow, blackCol) := CoordinateToIndices(coord);
      if (blackRow, blackCol) in occupied {
        return false;
      }
      var p := BlackPiece(piece, coord, blackRow, blackCol);
      assert SquaresOf(blackPieces + [p]) == SquaresOf(blackPieces) + {p.At()} by {
        var ps := blackPieces + [p];
        forall sq | sq in SquaresOf(ps) ensures sq in SquaresOf(blackPieces) + {p.At()} {
          var i :| 0 <= i < |ps| && ps[i].At() == sq;
          if i < |blackPieces| {
            assert blackPieces[i] == ps[i];
          }
        }
        forall sq | sq in SquaresOf(blackPieces) ensures sq in SquaresOf(ps) {
          var i :| 0 <= i < |blackPieces| && blackPieces[i].At() == sq;
          assert ps[i] == blackPieces[i];
        }
        assert ps[|blackPieces|] == p;
      }
      forall i | 0 <= i < |blackPieces| ensures blackPieces[i].At() != p.At() {
        assert blackPieces[i].At() in SquaresOf(blackPieces);
      }
      occupied := occupied + {(blackRow, blackCol)};
      blackPieces := blackPieces + [p];
      return true;
    }

    /** One black-piece line through the whole admission path
        (chess.py:181-198): a format error, an invalid piece or
        coordinate, and an occupied square are each reported and leave the
        session unchanged. */
    method SubmitBlack(line: string) returns (outcome: Outcome)
      requires Valid()
      modifies this
      ensures Valid()
      ensures outcome == FormatError <==> ReadEntry(line).Malformed?
      ensures outcome == InvalidPieceOrPosition <==> ReadEntry(line).Rejected?
      ensures outcome == DuplicatePosition <==>
        ReadEntry(line).Accepted? && CoordinateToIndices(ReadEntry(line).coord) in old(occupied)
      ensures outcome == Added ==>
        var e := ReadEntry(line);
        var sq := CoordinateToIndices(e.coord);
        occupied == old(occupied) + {sq} &&
        blackPieces == old(blackPieces) + [BlackPiece(e.piece, e.coord, sq.0, sq.1)]
      ensures outcome != Added ==> occupied == old(occupied) && blackPieces == old(blackPieces)
    {
      var e := ReadEntry(line);
      match e
      case Malformed =>
        outcome := FormatError;
      case Rejected =>
        outcome := InvalidPieceOrPosition;
      case Accepted(piece, coord) =>
        var admitted := AdmitBlack(piece, coord);
        outcome := if admitted then Added else DuplicatePosition;
    }

    /** The black pieces the white piece attacks, as (piece, coord) pairs in
        the order they were added (chess.py:206-211). */
    method FindCapturable() returns (capturable: seq<(string, string)>)
      requires Valid()
      ensures capturable == Names(Kept(blackPieces, AttackList(whitePiece, whiteRow, whiteCol)))
      ensures |capturable| <= |blackPieces|
      ensures forall i :: 0 <= i < |blackPieces| ==>
        ((blackPieces[i].piece, blackPieces[i].coord) in capturable <==>
         Threatens(whitePiece, (whiteRow, whiteCol), blackPieces[i].At()))
    {
      var attackPositions := GetAttackPositions(whitePiece, whiteRow, whiteCol);
      capturable := FilterCapturable(blackPieces, attackPositions);
      CapturableIffThreatened(blackPieces, attackPositions);
    }

    /** With the session invariant, a reported pair names an attacked
        piece, and every attacked piece is reported. */
    lemma CapturableIffThreatened(pieces: seq<BlackPiece>, attack: seq<Square>)
      requires Valid() && pieces == blackPieces
      requires attack == AttackList(whitePiece, whiteRow, whiteCol)
      ensures |Names(Kept(pieces, attack))| <= |pieces|
      ensures forall i :: 0 <= i < |pieces| ==>
        ((pieces[i].piece, pieces[i].coord) in Names(Kept(pieces, attack)) <==>
         Threatens(whitePiece, (whiteRow, whiteCol), pieces[i].At()))
    {
      var kept := Kept(pieces, attack);
      KeptMembers(pieces, attack);
      NamesMembers(kept);
      AttackListExact(whitePiece, whiteRow, whiteCol);
      forall i | 0 <= i < |pieces|
        ensures (pieces[i].piece, pieces[i].coord) in Names(kept) <==>
          Threatens(whitePiece, (whiteRow, whiteCol), pieces[i].At())
      {
        var p := pieces[i];
        if (p.piece, p.coord) in Names(kept) {
          var k :| 0 <= k < |Names(kept)| && Names(kept)[k] == (p.piece, p.coord);
          var q := kept[k];
          assert q in kept;
          assert Recorded(q) && Recorded(p) by {
            var j :| 0 <= j < |pieces| && pieces[j] == q;
          }
          assert q.At() == p.At();
        }
        if Threatens(whitePiece, (whiteRow, whiteCol), p.At()) {
          assert p in kept;
          var k :| 0 <= k < |kept| && kept[k] == p;
          assert Names(kept)[k] == (p.piece, p.coord);
        }
      }
    }
  }

  /** The filtering loop of chess.py:207-211. */
  method FilterCapturable(pieces: seq<BlackPiece>, attack: seq<Square>)
    returns (capturable: seq<(string, string)>)
    ensures capturable == Names(Kept(pieces, attack))
  {
    capturable := [];
    for i := 0 to |pieces|
      invariant capturable == Names(Kept(pieces[..i], attack))
    {
      var p := pieces[i];
      assert pieces[..i + 1][..i] == pieces[..i] && pieces[..i + 1][i] == p;
      assert Kept(pieces[..i + 1], attack) ==
        Kept(pieces[..i], attack) + (if p.At() in attack then [p] else []);
      ghost var kept := Kept(pieces[..i], attack);
      if (p.row, p.col) in attack {
        NamesSnoc(kept, p);
        capturable := capturable + [(p.piece, p.coord)];
      } else {
        assert kept + [] == kept;
      }
    }
    assert pieces[..|pieces|] == pieces;
  }

  /** The start of the sample session: white rook on a1, and a black pawn
      offered on white's square is refused. */
  method SampleWhite() returns (s: Session, admitted: bool)
    ensures s.Valid() && s.whitePiece == "rook" && (s.whiteRow, s.whiteCol) == (7, 0)
    ensures s.occupied == {(7, 0)} && s.blackPieces == []
    ensures !admitted
    ensures fresh(s)
  {
    s := new Session("rook", "a1");
    admitted := s.AdmitBlack("pawn", "a1");
  }

  /** The white rook of the sample session, on a1, attacks a8 and h1 but
      not b2. */
  lemma SampleAttack(row: int, col: int)
    requires (row, col) == CoordinateToIndices("a1")
    ensures CoordinateToIndices("a8") in AttackList("rook", row, col)
    ensures CoordinateToIndices("h1") in AttackList("rook", row, col)
    ensures CoordinateToIndices("b2") !in AttackList("rook", row, col)
  {
    RookExact(row, col);
  }

  /** The analysis of the sample session: of the black pawns recorded on
      a8, h1 and b2, against an attack list holding the first two squares
      and not the third, the first two are reported, in that order. */
  lemma SampleCapture(pieces: seq<BlackPiece>, attack: seq<Square>)
    requires pieces ==
      [BlackPiece("pawn", "a8", 0, 0), BlackPiece("pawn", "h1", 7, 7), BlackPiece("pawn", "b2", 6, 1)]
    requires (0, 0) in attack && (7, 7) in attack && (6, 1) !in attack
    ensures Names(Kept(pieces, attack)) == [("pawn", "a8"), ("pawn", "h1")]
  {
    var p0, p1, p2 := pieces[0], pieces[1], pieces[2];
    KeptSnoc([], p0, attack);
    assert [] + [p0] == [p0];
    KeptSnoc([p0], p1, attack);
    assert [p0] + [p1] == [p0, p1];
    KeptSnoc([p0, p1], p2, attack);
    assert [p0, p1] + [p2] == pieces;
    assert [p0, p1] + [] == [p0, p1];
    NamesSnoc([], p0);
    NamesSnoc([p0], p1);
  }
}
