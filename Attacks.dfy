/** Attack geometry (chess.py:40-134): for each piece the list of grid
    squares it attacks from (row, col). Sliding pieces ignore blockers.
    Each list is given by a specification function that follows the order
    in which the source appends; the loop methods are proved equal to those
    functions, and the lemmas say which squares the functions contain. */
module Attacks {
  import opened Board
  import opened Input
  import opened Coordinates

  // ---------------------------------------------------------------------
  // Reference geometry: which squares each piece threatens.

  predicate PawnCapture(from: Square, to: Square)
  {
    to.0 == from.0 - 1 && Abs(to.1 - from.1) == 1
  }

  predicate RookLine(from: Square, to: Square)
  {
    to != from && (to.0 == from.0 || to.1 == from.1)
  }

  predicate KnightJump(from: Square, to: Square)
  {
    (Abs(to.0 - from.0) == 1 && Abs(to.1 - from.1) == 2) ||
    (Abs(to.0 - from.0) == 2 && Abs(to.1 - from.1) == 1)
  }

  predicate Diagonal(from: Square, to: Square)
  {
    Abs(to.0 - from.0) == Abs(to.1 - from.1) > 0
  }

  /** Chebyshev distance exactly 1. */
  predicate KingStep(from: Square, to: Square)
  {
    to != from && Abs(to.0 - from.0) <= 1 && Abs(to.1 - from.1) <= 1
  }

  /** The square `to` is threatened by the named piece standing on `from`;
      no square is threatened by a name outside the six. */
  predicate Threatens(piece: string, from: Square, to: Square)
  {
    if piece == "pawn" then PawnCapture(from, to)
    else if piece == "rook" then RookLine(from, to)
    else if piece == "knight" then KnightJump(from, to)
    else if piece == "bishop" then Diagonal(from, to)
    else if piece == "queen" then RookLine(from, to) || Diagonal(from, to)
    else if piece == "king" then KingStep(from, to)
    else false
  }

  // ---------------------------------------------------------------------
  // Pawn (chess.py:44-51): white pawns attack the two squares diagonally
  // towards row 0.

  function PawnTargets(row: int, col: int): (targets: seq<Square>)
    ensures row <= 0 ==> targets == []
    ensures OnBoard((row, col)) ==>
      NoDuplicates(targets) &&
      forall sq :: sq in targets <==> OnBoard(sq) && PawnCapture((row, col), sq)
  {
    if row > 0 then
      (if col > 0 then [(row - 1, col - 1)] else []) +
      (if col < 7 then [(row - 1, col + 1)] else [])
    else []
  }

  // ---------------------------------------------------------------------
  // Rook (chess.py:55-63): for i in 0..7, (row, i) unless i == col, then
  // (i, col) unless i == row.

  /** The list after the first n rounds of the rook loop. */
  function RookPrefix(row: int, col: int, n: nat): seq<Square>
  {
    if n == 0 then []
    else
      RookPrefix(row, col, n - 1) +
      (if n - 1 != col then [(row, n - 1)] else []) +
      (if n - 1 != row then [(n - 1, col)] else [])
  }

  /** The rook list: from an on-board square, 14 squares, all on the
      board. */
  function RookTargets(row: int, col: int): (targets: seq<Square>)
    ensures OnBoard((row, col)) ==> |targets| == 14 && forall sq :: sq in targets ==> OnBoard(sq)
  {
    RookPrefixLength(row, col, 8);
    RookPrefixOnBoard(row, col, 8);
    RookPrefix(row, col, 8)
  }

  lemma {:induction false} RookPrefixOnBoard(row: int, col: int, n: nat)
    requires n <= 8
    ensures OnBoard((row, col)) ==> forall sq :: sq in RookPrefix(row, col, n) ==> OnBoard(sq)
  {
    if n > 0 {
      RookPrefixOnBoard(row, col, n - 1);
    }
  }

  method GetRookTargets(row: int, col: int) returns (targets: seq<Square>)
    ensures targets == RookTargets(row, col)
  {
    targets := [];
    for i := 0 to 8
      invariant targets == RookPrefix(row, col, i)
    {
      if i != col {
        targets := targets + [(row, i)];
      }
      if i != row {
        targets := targets + [(i, col)];
      }
    }
  }

  lemma {:induction false} RookPrefixMember(row: int, col: int, n: nat, sq: Square)
    ensures sq in RookPrefix(row, col, n) <==>
      (sq.0 == row && 0 <= sq.1 < n && sq.1 != col) ||
      (sq.1 == col && 0 <= sq.0 < n && sq.0 != row)
  {
    if n > 0 {
      RookPrefixMember(row, col, n - 1, sq);
    }
  }

  lemma {:induction false} RookPrefixDistinct(row: int, col: int, n: nat)
    ensures NoDuplicates(RookPrefix(row, col, n))
  {
    if n > 0 {
      RookPrefixDistinct(row, col, n - 1);
      RookPrefixMember(row, col, n - 1, (row, n - 1));
      RookPrefixMember(row, col, n - 1, (n - 1, col));
      var p := RookPrefix(row, col, n - 1);
      var h: seq<Square> := if n - 1 != col then [(row, n - 1)] else [];
      var v: seq<Square> := if n - 1 != row then [(n - 1, col)] else [];
      NoDuplicatesConcat(p, h);
      NoDuplicatesConcat(p + h, v);
    }
  }

  lemma {:induction false} RookPrefixLength(row: int, col: int, n: nat)
    ensures |RookPrefix(row, col, n)| ==
      2 * n - (if 0 <= col < n then 1 else 0) - (if 0 <= row < n then 1 else 0)
  {
    if n > 0 {
      RookPrefixLength(row, col, n - 1);
    }
  }

  /** From an on-board square the rook attacks exactly the 14 other squares
      of its row and column, each once. */
  lemma RookExact(row: int, col: int)
    requires OnBoard((row, col))
    ensures forall sq :: sq in RookTargets(row, col) <==> OnBoard(sq) && RookLine((row, col), sq)
    ensures NoDuplicates(RookTargets(row, col))
    ensures |RookTargets(row, col)| == 14
  {
    forall sq: Square ensures sq in RookTargets(row, col) <==> OnBoard(sq) && RookLine((row, col), sq) {
      RookPrefixMember(row, col, 8, sq);
    }
    RookPrefixDistinct(row, col, 8);
    RookPrefixLength(row, col, 8);
  }

  // ---------------------------------------------------------------------
  // Knight and king: fixed offset tables, keeping landing squares on the
  // board. The king's nested loops run over all nine (dr, dc) pairs and
  // skip (0, 0).

  const KnightMoves: seq<(int, int)> :=
    [(-2, -1), (-2, 1), (-1, -2), (-1, 2), (1, -2), (1, 2), (2, -1), (2, 1)]

  const KingDeltas: seq<int> := [-1, 0, 1]

  /** The (dr, dc) pairs in the order of the king's nested loops. */
  const KingGrid: seq<(int, int)> :=
    [(-1, -1), (-1, 0), (-1, 1), (0, -1), (0, 0), (0, 1), (1, -1), (1, 0), (1, 1)]

  /** On-board squares reached from (row, col) by the non-zero offsets, in
      table order. */
  function Shifts(row: int, col: int, offsets: seq<(int, int)>): seq<Square>
  {
    if offsets == [] then []
    else
      var o := offsets[|offsets| - 1];
      Shifts(row, col, offsets[..|offsets| - 1]) +
      (if o != (0, 0) && OnBoard((row + o.0, col + o.1)) then [(row + o.0, col + o.1)] else [])
  }

  /** The knight list: at most one square per move, all on the board. */
  function KnightTargets(row: int, col: int): (targets: seq<Square>)
    ensures |targets| <= 8 && forall sq :: sq in targets ==> OnBoard(sq)
  {
    ShiftsBounds(row, col, KnightMoves);
    Shifts(row, col, KnightMoves)
  }

  /** The king list: every square on the board. */
  function KingTargets(row: int, col: int): (targets: seq<Square>)
    ensures forall sq :: sq in targets ==> OnBoard(sq)
  {
    ShiftsBounds(row, col, KingGrid);
    Shifts(row, col, KingGrid)
  }

  lemma {:induction false} ShiftsBounds(row: int, col: int, offsets: seq<(int, int)>)
    ensures |Shifts(row, col, offsets)| <= |offsets|
    ensures forall sq :: sq in Shifts(row, col, offsets) ==> OnBoard(sq)
  {
    if offsets != [] {
      ShiftsBounds(row, col, offsets[..|offsets| - 1]);
    }
  }

  lemma {:induction false} ShiftsMember(row: int, col: int, offsets: seq<(int, int)>, sq: Square)
    ensures sq in Shifts(row, col, offsets) <==>
      OnBoard(sq) && (sq.0 - row, sq.1 - col) in offsets && (sq.0 - row, sq.1 - col) != (0, 0)
  {
    if offsets != [] {
      var init := offsets[..|offsets| - 1];
      assert offsets == init + [offsets[|offsets| - 1]];
      ShiftsMember(row, col, init, sq);
    }
  }

  lemma {:induction false} ShiftsDistinct(row: int, col: int, offsets: seq<(int, int)>)
    requires NoDuplicates(offsets)
    ensures NoDuplicates(Shifts(row, col, offsets))
  {
    if offsets != [] {
      var init := offsets[..|offsets| - 1];
      var o := offsets[|offsets| - 1];
      assert offsets == init + [o];
      NoDuplicatesConcat(init, [o]);
      ShiftsDistinct(row, col, init);
      ShiftsMember(row, col, init, (row + o.0, col + o.1));
      var s: seq<Square> :=
        if o != (0, 0) && OnBoard((row + o.0, col + o.1)) then [(row + o.0, col + o.1)] else [];
      NoDuplicatesConcat(Shifts(row, col, init), s);
    }
  }

  /** Appending one offset to the table appends at most its one square. */
  lemma ShiftsSnoc(row: int, col: int, offsets: seq<(int, int)>, o: (int, int))
    ensures Shifts(row, col, offsets + [o]) ==
      Shifts(row, col, offsets) +
      (if o != (0, 0) && OnBoard((row + o.0, col + o.1)) then [(row + o.0, col + o.1)] else [])
  {
    assert (offsets + [o])[..|offsets|] == offsets;
  }

  method GetKnightTargets(row: int, col: int) returns (targets: seq<Square>)
    ensures targets == KnightTargets(row, col)
  {
    var moves := KnightMoves;
    targets := [];
    for i := 0 to |moves|
      invariant targets == Shifts(row, col, moves[..i])
    {
      var (dr, dc) := moves[i];
      var newRow, newCol := row + dr, col + dc;
      assert moves[..i + 1][..i] == moves[..i];
      if 0 <= newRow < 8 && 0 <= newCol < 8 {
        targets := targets + [(newRow, newCol)];
      }
    }
    assert moves[..|moves|] == moves;
  }

  lemma KnightMovesExact(d: (int, int))
    ensures d in KnightMoves <==> KnightJump((0, 0), d)
  {
  }

  lemma KnightMovesDistinct()
    ensures NoDuplicates(KnightMoves)
  {
  }

  /** From an on-board square the knight attacks exactly the on-board
      squares an L-shaped jump away, each once. */
  lemma KnightExact(row: int, col: int)
    requires OnBoard((row, col))
    ensures forall sq :: sq in KnightTargets(row, col) <==> OnBoard(sq) && KnightJump((row, col), sq)
    ensures NoDuplicates(KnightTargets(row, col))
  {
    KnightMovesDistinct();
    ShiftsDistinct(row, col, KnightMoves);
    forall sq: Square
      ensures sq in KnightTargets(row, col) <==> OnBoard(sq) && KnightJump((row, col), sq)
    {
      ShiftsMember(row, col, KnightMoves, sq);
      var d := (sq.0 - row, sq.1 - col);
      KnightMovesExact(d);
      assert KnightJump((0, 0), d) <==> KnightJump((row, col), sq);
    }
  }

  lemma KingGridAt(i: int, j: int)
    requires 0 <= i < 3 && 0 <= j < 3
    ensures KingGrid[3 * i + j] == (KingDeltas[i], KingDeltas[j])
  {
    if i == 0 {
    } else if i == 1 {
    } else {
    }
  }

  method GetKingTargets(row: int, col: int) returns (targets: seq<Square>)
    ensures targets == KingTargets(row, col)
  {
    var deltas := KingDeltas;
    targets := [];
    ghost var visited: seq<(int, int)> := [];
    for i := 0 to 3
      invariant visited == KingGrid[..3 * i]
      invariant targets == Shifts(row, col, visited)
    {
      var dr := deltas[i];
      for j := 0 to 3
        invariant visited == KingGrid[..3 * i + j]
        invariant targets == Shifts(row, col, visited)
      {
        var dc := deltas[j];
        KingGridAt(i, j);
        assert KingGrid[..3 * i + j + 1] == visited + [(dr, dc)];
        ShiftsSnoc(row, col, visited, (dr, dc));
        visited := visited + [(dr, dc)];
        if dr == 0 && dc == 0 {
          assert targets + [] == targets;
          continue;
        }
        var newRow, newCol := row + dr, col + dc;
        if 0 <= newRow < 8 && 0 <= newCol < 8 {
          targets := targets + [(newRow, newCol)];
        } else {
          assert targets + [] == targets;
        }
      }
    }
    assert KingGrid[..9] == KingGrid;
  }

  lemma KingGridExact(d: (int, int))
    ensures d in KingGrid <==> Abs(d.0) <= 1 && Abs(d.1) <= 1
  {
  }

  lemma KingGridDistinct()
    ensures NoDuplicates(KingGrid)
  {
  }

  /** From an on-board square the king attacks exactly the on-board squares
      at Chebyshev distance 1, each once. */
  lemma KingExact(row: int, col: int)
    requires OnBoard((row, col))
    ensures forall sq :: sq in KingTargets(row, col) <==> OnBoard(sq) && KingStep((row, col), sq)
    ensures NoDuplicates(KingTargets(row, col))
  {
    KingGridDistinct();
    ShiftsDistinct(row, col, KingGrid);
    forall sq: Square
      ensures sq in KingTargets(row, col) <==> OnBoard(sq) && KingStep((row, col), sq)
    {
      ShiftsMember(row, col, KingGrid, sq);
      var d := (sq.0 - row, sq.1 - col);
      KingGridExact(d);
      assert (Abs(d.0) <= 1 && Abs(d.1) <= 1 && d != (0, 0)) <==> KingStep((row, col), sq);
    }
  }

  // ---------------------------------------------------------------------
  // Bishop (chess.py:84-95): along each diagonal direction, step from the
  // neighbouring square until leaving the board.

  const BishopDirections: seq<(int, int)> := [(-1, -1), (-1, 1), (1, -1), (1, 1)]

  predicate IsUnitStep(d: int)
  {
    d == 1 || d == -1
  }

  /** How many more steps of sign d a coordinate x can take before it
      leaves 0..7; zero for a zero step. */
  function StepsLeft(x: int, d: int): int
  {
    if d > 0 then 8 - x else if d < 0 then x + 1 else 0
  }

  /** The squares from (row, col) onwards in steps of (dr, dc) while on the
      board. The source's loop never ends for the step (0, 0) from an
      on-board square; that step gives the empty ray here. */
  function Ray(row: int, col: int, dr: int, dc: int): seq<Square>
    decreases StepsLeft(row, dr), StepsLeft(col, dc)
  {
    if (dr, dc) != (0, 0) && 0 <= row < 8 && 0 <= col < 8 then
      [(row, col)] + Ray(row + dr, col + dc, dr, dc)
    else []
  }

  /** The rays of the listed directions, each starting next to (row, col). */
  function Rays(row: int, col: int, dirs: seq<(int, int)>): seq<Square>
  {
    if dirs == [] then []
    else
      var d := dirs[|dirs| - 1];
      Rays(row, col, dirs[..|dirs| - 1]) + Ray(row + d.0, col + d.1, d.0, d.1)
  }

  /** The bishop list: every square on the board. */
  function BishopTargets(row: int, col: int): (targets: seq<Square>)
    ensures forall sq :: sq in targets ==> OnBoard(sq)
  {
    RaysOnBoard(row, col, BishopDirections);
    Rays(row, col, BishopDirections)
  }

  lemma {:induction false} RayOnBoard(row: int, col: int, dr: int, dc: int)
    ensures forall sq :: sq in Ray(row, col, dr, dc) ==> OnBoard(sq)
    decreases StepsLeft(row, dr), StepsLeft(col, dc)
  {
    if (dr, dc) != (0, 0) && OnBoard((row, col)) {
      RayOnBoard(row + dr, col + dc, dr, dc);
    }
  }

  lemma {:induction false} RaysOnBoard(row: int, col: int, dirs: seq<(int, int)>)
    ensures forall sq :: sq in Rays(row, col, dirs) ==> OnBoard(sq)
  {
    if dirs != [] {
      var d := dirs[|dirs| - 1];
      RaysOnBoard(row, col, dirs[..|dirs| - 1]);
      RayOnBoard(row + d.0, col + d.1, d.0, d.1);
    }
  }

  method GetBishopTargets(row: int, col: int) returns (targets: seq<Square>)
    ensures targets == BishopTargets(row, col)
  {
    var directions := BishopDirections;
    targets := [];
    for i := 0 to |directions|
      invariant targets == Rays(row, col, directions[..i])
    {
      var (dr, dc) := directions[i];
      assert IsUnitStep(dr);
      assert directions[..i + 1] == directions[..i] + [(dr, dc)];
      RaysSnoc(row, col, directions[..i], (dr, dc));
      ghost var before := targets;
      var newRow, newCol := row + dr, col + dc;
      while 0 <= newRow < 8 && 0 <= newCol < 8
        invariant before + Ray(row + dr, col + dc, dr, dc) == targets + Ray(newRow, newCol, dr, dc)
        decreases StepsLeft(newRow, dr)
      {
        ghost var rest := Ray(newRow + dr, newCol + dc, dr, dc);
        assert Ray(newRow, newCol, dr, dc) == [(newRow, newCol)] + rest;
        assert targets + ([(newRow, newCol)] + rest) == (targets + [(newRow, newCol)]) + rest;
        targets := targets + [(newRow, newCol)];
        newRow := newRow + dr;
        newCol := newCol + dc;
      }
      assert targets + [] == targets;
    }
    assert directions[..|directions|] == directions;
  }

  /** Signed distance along a unit step. */
  function Along(d: int, x: int): int
  {
    if d > 0 then x else -x
  }

  lemma {:induction false} RayMember(row: int, col: int, dr: int, dc: int, sq: Square)
    requires IsUnitStep(dr) && IsUnitStep(dc)
    ensures sq in Ray(row, col, dr, dc) <==>
      OnBoard((row, col)) && OnBoard(sq) &&
      Along(dr, sq.0 - row) >= 0 && Along(dr, sq.0 - row) == Along(dc, sq.1 - col)
    decreases StepsLeft(row, dr)
  {
    if OnBoard((row, col)) {
      RayMember(row + dr, col + dc, dr, dc, sq);
      assert Along(dr, sq.0 - (row + dr)) == Along(dr, sq.0 - row) - 1;
      assert Along(dc, sq.1 - (col + dc)) == Along(dc, sq.1 - col) - 1;
      if OnBoard(sq) && Along(dr, sq.0 - row) > 0 {
        assert 0 <= row + dr < 8;
        if Along(dr, sq.0 - row) == Along(dc, sq.1 - col) {
          assert 0 <= col + dc < 8;
        }
      }
    }
  }

  lemma {:induction false} RayDistinct(row: int, col: int, dr: int, dc: int)
    requires IsUnitStep(dr) && IsUnitStep(dc)
    ensures NoDuplicates(Ray(row, col, dr, dc))
    decreases StepsLeft(row, dr)
  {
    if OnBoard((row, col)) {
      RayDistinct(row + dr, col + dc, dr, dc);
      RayMember(row + dr, col + dc, dr, dc, (row, col));
      NoDuplicatesConcat([(row, col)], Ray(row + dr, col + dc, dr, dc));
    }
  }

  /** The ray leaving an on-board square in direction (dr, dc) holds exactly
      the on-board diagonal squares on that side of it. */
  lemma NeighbourRayMember(row: int, col: int, dr: int, dc: int, sq: Square)
    requires OnBoard((row, col)) && IsUnitStep(dr) && IsUnitStep(dc)
    ensures sq in Ray(row + dr, col + dc, dr, dc) <==>
      OnBoard(sq) && Diagonal((row, col), sq) &&
      Along(dr, sq.0 - row) > 0 && Along(dc, sq.1 - col) > 0
  {
    RayMember(row + dr, col + dc, dr, dc, sq);
    var x, y := sq.0 - row, sq.1 - col;
    assert Along(dr, sq.0 - (row + dr)) == Along(dr, x) - 1;
    assert Along(dc, sq.1 - (col + dc)) == Along(dc, y) - 1;
    if Along(dr, x) > 0 && Along(dc, y) > 0 {
      assert Abs(x) == Along(dr, x) && Abs(y) == Along(dc, y);
      if OnBoard(sq) {
        assert OnBoard((row + dr, col + dc));
      }
    }
  }

  /** Appending one direction appends its ray. */
  lemma RaysSnoc(row: int, col: int, dirs: seq<(int, int)>, d: (int, int))
    ensures Rays(row, col, dirs + [d]) == Rays(row, col, dirs) + Ray(row + d.0, col + d.1, d.0, d.1)
  {
    assert (dirs + [d])[..|dirs|] == dirs;
  }

  /** The bishop list is the four rays in the order of the direction table. */
  lemma BishopRays(row: int, col: int)
    ensures BishopTargets(row, col) ==
      Ray(row - 1, col - 1, -1, -1) + Ray(row - 1, col + 1, -1, 1) +
      Ray(row + 1, col - 1, 1, -1) + Ray(row + 1, col + 1, 1, 1)
  {
    var d1: seq<(int, int)> := [(-1, -1)];
    var d2 := d1 + [(-1, 1)];
    var d3 := d2 + [(1, -1)];
    assert BishopDirections == d3 + [(1, 1)];
    RaysSnoc(row, col, [], (-1, -1));
    assert [] + [(-1, -1)] == d1;
    RaysSnoc(row, col, d1, (-1, 1));
    RaysSnoc(row, col, d2, (1, -1));
    RaysSnoc(row, col, d3, (1, 1));
  }

  /** From an on-board square the bishop attacks exactly the on-board
      squares on its diagonals. */
  lemma BishopMembers(row: int, col: int)
    requires OnBoard((row, col))
    ensures forall sq :: sq in BishopTargets(row, col) <==> OnBoard(sq) && Diagonal((row, col), sq)
  {
    BishopRays(row, col);
    forall sq: Square
      ensures sq in BishopTargets(row, col) <==> OnBoard(sq) && Diagonal((row, col), sq)
    {
      NeighbourRayMember(row, col, -1, -1, sq);
      NeighbourRayMember(row, col, -1, 1, sq);
      NeighbourRayMember(row, col, 1, -1, sq);
      NeighbourRayMember(row, col, 1, 1, sq);
    }
  }

  /** The four rays of the bishop are each duplicate-free and pairwise
      disjoint, so the bishop list names no square twice. */
  lemma BishopDistinct(row: int, col: int)
    requires OnBoard((row, col))
    ensures Disjoint(Ray(row - 1, col - 1, -1, -1), Ray(row - 1, col + 1, -1, 1))
    ensures Disjoint(Ray(row - 1, col - 1, -1, -1), Ray(row + 1, col - 1, 1, -1))
    ensures Disjoint(Ray(row - 1, col - 1, -1, -1), Ray(row + 1, col + 1, 1, 1))
    ensures Disjoint(Ray(row - 1, col + 1, -1, 1), Ray(row + 1, col - 1, 1, -1))
    ensures Disjoint(Ray(row - 1, col + 1, -1, 1), Ray(row + 1, col + 1, 1, 1))
    ensures Disjoint(Ray(row + 1, col - 1, 1, -1), Ray(row + 1, col + 1, 1, 1))
    ensures NoDuplicates(BishopTargets(row, col))
  {
    var r1 := Ray(row - 1, col - 1, -1, -1);
    var r2 := Ray(row - 1, col + 1, -1, 1);
    var r3 := Ray(row + 1, col - 1, 1, -1);
    var r4 := Ray(row + 1, col + 1, 1, 1);
    BishopRays(row, col);
    RayDistinct(row - 1, col - 1, -1, -1);
    RayDistinct(row - 1, col + 1, -1, 1);
    RayDistinct(row + 1, col - 1, 1, -1);
    RayDistinct(row + 1, col + 1, 1, 1);
    forall sq | sq in r1 + r2 + r3 + r4
      ensures (sq in r1 ==> sq !in r2 && sq !in r3 && sq !in r4)
      ensures (sq in r2 ==> sq !in r3 && sq !in r4)
      ensures (sq in r3 ==> sq !in r4)
    {
      NeighbourRayMember(row, col, -1, -1, sq);
      NeighbourRayMember(row, col, -1, 1, sq);
      NeighbourRayMember(row, col, 1, -1, sq);
      NeighbourRayMember(row, col, 1, 1, sq);
    }
    NoDuplicatesConcat(r1, r2);
    NoDuplicatesConcat(r1 + r2, r3);
    NoDuplicatesConcat(r1 + r2 + r3, r4);
  }

  lemma BishopExact(row: int, col: int)
    requires OnBoard((row, col))
    ensures forall sq :: sq in BishopTargets(row, col) <==> OnBoard(sq) && Diagonal((row, col), sq)
    ensures NoDuplicates(BishopTargets(row, col))
  {
    BishopMembers(row, col);
    BishopDistinct(row, col);
  }

  // ---------------------------------------------------------------------
  // Queen (chess.py:99-101): the rook list followed by the bishop list.

  /** The queen list: from an on-board square, every square on the
      board. */
  function QueenTargets(row: int, col: int): (targets: seq<Square>)
    ensures OnBoard((row, col)) ==> forall sq :: sq in targets ==> OnBoard(sq)
  {
    RookTargets(row, col) + BishopTargets(row, col)
  }

  method GetQueenTargets(row: int, col: int) returns (targets: seq<Square>)
    ensures targets == QueenTargets(row, col)
  {
    var rook := GetRookTargets(row, col);
    var bishop := GetBishopTargets(row, col);
    targets := rook + bishop;
  }

  /** From an on-board square the rook and bishop lists share no square, so
      the queen attacks each square of its lines and diagonals exactly once. */
  lemma QueenExact(row: int, col: int)
    requires OnBoard((row, col))
    ensures Disjoint(RookTargets(row, col), BishopTargets(row, col))
    ensures forall sq :: sq in QueenTargets(row, col) <==>
      OnBoard(sq) && (RookLine((row, col), sq) || Diagonal((row, col), sq))
    ensures NoDuplicates(QueenTargets(row, col))
  {
    RookExact(row, col);
    BishopExact(row, col);
    NoDuplicatesConcat(RookTargets(row, col), BishopTargets(row, col));
  }

  // ---------------------------------------------------------------------
  // Dispatch on the piece name (chess.py:121-134).

  /** The list of the named piece: empty for a name outside the six, and
      from an on-board square never off the board. */
  function AttackList(piece: string, row: int, col: int): (targets: seq<Square>)
    ensures piece !in ValidPieces() ==> targets == []
    ensures OnBoard((row, col)) ==> forall sq :: sq in targets ==> OnBoard(sq)
  {
    if piece == "pawn" then PawnTargets(row, col)
    else if piece == "rook" then RookTargets(row, col)
    else if piece == "knight" then KnightTargets(row, col)
    else if piece == "bishop" then BishopTargets(row, col)
    else if piece == "queen" then QueenTargets(row, col)
    else if piece == "king" then KingTargets(row, col)
    else []
  }

  /** From an on-board square, every piece attacks exactly the on-board
      squares its geometry threatens, with no square listed twice; in
      particular no target leaves the board or is the piece's own square. */
  lemma AttackListExact(piece: string, row: int, col: int)
    requires OnBoard((row, col))
    ensures forall sq :: sq in AttackList(piece, row, col) <==>
      OnBoard(sq) && Threatens(piece, (row, col), sq)
    ensures NoDuplicates(AttackList(piece, row, col))
    ensures forall sq :: sq in AttackList(piece, row, col) ==> OnBoard(sq) && sq != (row, col)
  {
    if piece == "rook" {
      RookExact(row, col);
    } else if piece == "knight" {
      KnightExact(row, col);
    } else if piece == "bishop" {
      BishopExact(row, col);
    } else if piece == "queen" {
      QueenExact(row, col);
    } else if piece == "king" {
      KingExact(row, col);
    }
  }

  /** A name outside the six recognised pieces attacks nothing. */
  lemma AttackListUnknown(piece: string, row: int, col: int)
    requires piece !in ValidPieces()
    ensures AttackList(piece, row, col) == []
  {
  }

  method GetAttackPositions(piece: string, row: int, col: int) returns (targets: seq<Square>)
    ensures targets == AttackList(piece, row, col)
    ensures piece !in ValidPieces() ==> targets == []
    ensures OnBoard((row, col)) ==>
      (NoDuplicates(targets) &&
       forall sq :: sq in targets <==> OnBoard(sq) && Threatens(piece, (row, col), sq))
  {
    if piece == "pawn" {
      targets := PawnTargets(row, col);
    } else if piece == "rook" {
      targets := GetRookTargets(row, col);
    } else if piece == "knight" {
      targets := GetKnightTargets(row, col);
    } else if piece == "bishop" {
      targets := GetBishopTargets(row, col);
    } else if piece == "queen" {
      targets := GetQueenTargets(row, col);
    } else if piece == "king" {
      targets := GetKingTargets(row, col);
    } else {
      targets := [];
    }
    if OnBoard((row, col)) {
      AttackListExact(piece, row, col);
    }
  }

  /** The sample positions, each decoded from its notation: rook on d4,
      knight and bishop on a1, king on h8. */
  lemma RookExample(row: int, col: int)
    requires (row, col) == CoordinateToIndices("d4")
    ensures |RookTargets(row, col)| == 14
    ensures forall sq :: sq in RookTargets(row, col) <==>
      (sq.0 == 4 && 0 <= sq.1 < 8 && sq.1 != 3) || (sq.1 == 3 && 0 <= sq.0 < 8 && sq.0 != 4)
  {
    RookExact(row, col);
  }

  lemma KnightExample(row: int, col: int)
    requires (row, col) == CoordinateToIndices("a1")
    ensures forall sq :: sq in KnightTargets(row, col) <==> sq == (5, 1) || sq == (6, 2)
  {
    KnightExact(row, col);
  }

  lemma BishopExample(row: int, col: int)
    requires (row, col) == CoordinateToIndices("a1")
    ensures forall sq :: sq in BishopTargets(row, col) <==> 0 < sq.1 < 8 && sq.0 == 7 - sq.1
  {
    BishopExact(row, col);
  }

  lemma KingExample(row: int, col: int)
    requires (row, col) == CoordinateToIndices("h8")
    ensures forall sq :: sq in KingTargets(row, col) <==> sq == (0, 6) || sq == (1, 6) || sq == (1, 7)
  {
    KingExact(row, col);
  }
}
