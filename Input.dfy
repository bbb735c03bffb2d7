/** Input validation and parsing of "piece coordinate" lines
    (chess.py:1-38). Strings are sequences of characters; lower-casing and
    splitting are modelled on ASCII. */
module Input {
  import opened Board

  datatype Option<T> = None | Some(value: T)

  const Files: string := "abcdefgh"
  const Ranks: string := "12345678"

  /** A two-character coordinate: a file a-h followed by a rank 1-8
      (chess.py:3-8). Membership in the two alphabets is the same as lying
      in the character ranges 'a'..'h' and '1'..'8'. */
  predicate IsValidPosition(coord: string)
    ensures IsValidPosition(coord) <==>
      |coord| == 2 && 'a' <= coord[0] <= 'h' && '1' <= coord[1] <= '8'
  {
    if |coord| != 2 then false
    else
      FileAlphabet(coord[0]);
      RankAlphabet(coord[1]);
      coord[0] in Files && coord[1] in Ranks
  }

  lemma FileAlphabet(ch: char)
    ensures ch in Files <==> 'a' <= ch <= 'h'
  {
    if ch in Files {
      var i :| 0 <= i < |Files| && Files[i] == ch;
      assert 'a' <= Files[i] <= 'h' by {
        assert i in {0, 1, 2, 3, 4, 5, 6, 7};
      }
    }
    if 'a' <= ch <= 'h' {
      assert Files[ch as int - 'a' as int] == ch;
    }
  }

  lemma RankAlphabet(ch: char)
    ensures ch in Ranks <==> '1' <= ch <= '8'
  {
    if ch in Ranks {
      var i :| 0 <= i < |Ranks| && Ranks[i] == ch;
      assert '1' <= Ranks[i] <= '8' by {
        assert i in {0, 1, 2, 3, 4, 5, 6, 7};
      }
    }
    if '1' <= ch <= '8' {
      assert Ranks[ch as int - '1' as int] == ch;
    }
  }

  /** The six recognised piece names, pairwise distinct (chess.py:20-21). */
  function ValidPieces(): (names: seq<string>)
    ensures |names| == 6 && NoDuplicates(names)
    ensures forall name :: name in names <==>
      name == "pawn" || name == "rook" || name == "knight" ||
      name == "bishop" || name == "queen" || name == "king"
  {
    ["pawn", "rook", "knight", "bishop", "queen", "king"]
  }

  /** A piece name from the fixed list and a valid coordinate
      (chess.py:33-38). */
  predicate ValidatePieceInput(piece: string, coord: string)
    ensures ValidatePieceInput(piece, coord) <==>
      (piece == "pawn" || piece == "rook" || piece == "knight" ||
       piece == "bishop" || piece == "queen" || piece == "king") &&
      |coord| == 2 && 'a' <= coord[0] <= 'h' && '1' <= coord[1] <= '8'
  {
    piece in ValidPieces() && IsValidPosition(coord)
  }

  // ---------------------------------------------------------------------
  // Lower-casing and whitespace splitting, restricted to ASCII.

  predicate IsUpper(ch: char)
  {
    'A' <= ch <= 'Z'
  }

  function LowerChar(ch: char): (lc: char)
    ensures !IsUpper(lc)
    ensures IsUpper(ch) ==> lc as int == ch as int + 32
    ensures !IsUpper(ch) ==> lc == ch
  {
    if IsUpper(ch) then (ch as int + 32) as char else ch
  }

  /** Python's str.lower() on ASCII: A-Z become a-z, all else is kept. */
  function Lower(s: string): (t: string)
    ensures |t| == |s|
    ensures forall i :: 0 <= i < |s| ==> t[i] == LowerChar(s[i])
  {
    seq(|s|, i requires 0 <= i < |s| => LowerChar(s[i]))
  }

  /** The ASCII characters Python's str.isspace() accepts. */
  predicate IsSpace(ch: char)
  {
    ch == ' ' || '\t' <= ch <= '\r' || '\U{1c}' <= ch <= '\U{1f}'
  }

  predicate IsBlank(s: string)
  {
    forall i :: 0 <= i < |s| ==> IsSpace(s[i])
  }

  /** A token of a split: non-empty and free of whitespace. */
  predicate IsToken(t: string)
  {
    |t| > 0 && forall i :: 0 <= i < |t| ==> !IsSpace(t[i])
  }

  predicate IsLowerToken(t: string)
  {
    IsToken(t) && forall i :: 0 <= i < |t| ==> !IsUpper(t[i])
  }

  /** Length of the longest whitespace-free prefix. */
  function TokenLength(s: string): (n: nat)
    ensures n <= |s|
    ensures forall i :: 0 <= i < n ==> !IsSpace(s[i])
    ensures n < |s| ==> IsSpace(s[n])
  {
    if s == [] || IsSpace(s[0]) then 0 else 1 + TokenLength(s[1..])
  }

  /** Python's str.split() with no separator: the maximal whitespace-free
      runs, in order; leading, trailing and repeated whitespace yields no
      empty token. */
  function Split(s: string): (tokens: seq<string>)
    ensures forall t :: t in tokens ==> IsToken(t)
    decreases |s|
  {
    if s == [] then []
    else if IsSpace(s[0]) then Split(s[1..])
    else
      var n := TokenLength(s);
      [s[..n]] + Split(s[n..])
  }

  /** Splitting a line without upper-case letters gives lower-case tokens. */
  lemma {:induction false} SplitOfLower(s: string)
    requires forall i :: 0 <= i < |s| ==> !IsUpper(s[i])
    ensures forall t :: t in Split(s) ==> IsLowerToken(t)
    decreases |s|
  {
    if s != [] {
      if IsSpace(s[0]) {
        SplitOfLower(s[1..]);
      } else {
        var n := TokenLength(s);
        SplitOfLower(s[n..]);
        assert forall k :: 0 <= k < n ==> s[..n][k] == s[k];
      }
    }
  }

  lemma {:induction false} TokenLengthBeforeSpace(a: string, rest: string)
    requires rest != [] && IsSpace(rest[0])
    ensures TokenLength(a + rest) == TokenLength(a)
  {
    if a != [] && !IsSpace(a[0]) {
      assert (a + rest)[1..] == a[1..] + rest;
      TokenLengthBeforeSpace(a[1..], rest);
    } else if a == [] {
      assert a + rest == rest;
    }
  }

  /** A whitespace character separates the tokens on its two sides. */
  lemma {:induction false} SplitAtSpace(a: string, ch: char, b: string)
    requires IsSpace(ch)
    ensures Split(a + [ch] + b) == Split(a) + Split(b)
    decreases |a|
  {
    var s := a + [ch] + b;
    if a == [] {
      assert s[1..] == b;
    } else if IsSpace(a[0]) {
      assert s[1..] == a[1..] + [ch] + b;
      SplitAtSpace(a[1..], ch, b);
    } else {
      var n := TokenLength(a);
      SplitTokenFirst(a, ch, b);
      SplitAtSpace(a[n..], ch, b);
    }
  }

  lemma SplitTokenFirst(a: string, ch: char, b: string)
    requires IsSpace(ch) && a != [] && !IsSpace(a[0])
    ensures Split(a + [ch] + b) == [a[..TokenLength(a)]] + Split(a[TokenLength(a)..] + [ch] + b)
    ensures Split(a) == [a[..TokenLength(a)]] + Split(a[TokenLength(a)..])
  {
    var s := a + [ch] + b;
    TokenLengthBeforeSpace(a, [ch] + b);
    assert s == a + ([ch] + b);
    var n := TokenLength(a);
    assert s[..n] == a[..n];
    assert s[n..] == a[n..] + [ch] + b;
  }

  lemma SplitOfToken(t: string)
    requires IsToken(t)
    ensures Split(t) == [t]
  {
    assert TokenLength(t) == |t|;
    assert t[..|t|] == t;
    assert t[|t|..] == [];
  }

  lemma {:induction false} SplitOfBlank(w: string)
    requires IsBlank(w)
    ensures Split(w) == []
    decreases |w|
  {
    if w != [] {
      SplitOfBlank(w[1..]);
    }
  }

  /** A non-empty run of whitespace separates the tokens on its two sides. */
  lemma {:induction false} SplitAtBlank(a: string, w: string, b: string)
    requires IsBlank(w) && w != []
    ensures Split(a + w + b) == Split(a) + Split(b)
    decreases |w|
  {
    assert a + w + b == a + [w[0]] + (w[1..] + b);
    SplitAtSpace(a, w[0], w[1..] + b);
    if w[1..] == [] {
      assert w[1..] + b == b;
    } else {
      SplitAtBlank([], w[1..], b);
      assert [] + w[1..] + b == w[1..] + b;
      assert Split([]) == [];
    }
  }

  lemma LowerConcat(x: string, y: string)
    ensures Lower(x + y) == Lower(x) + Lower(y)
  {
  }

  lemma LowerOfLower(s: string)
    requires forall i :: 0 <= i < |s| ==> !IsUpper(s[i])
    ensures Lower(s) == s
  {
  }

  lemma LowerOfBlank(w: string)
    requires IsBlank(w)
    ensures Lower(w) == w
  {
  }

  lemma LowerOfToken(t: string)
    requires IsToken(t)
    ensures IsLowerToken(Lower(t))
  {
  }

  /** Lower-case the line and split it; exactly two tokens give the piece
      name and the coordinate, any other count gives no result
      (chess.py:24-30). */
  function ParsePieceInput(line: string): (parsed: Option<(string, string)>)
    ensures parsed.Some? ==> IsLowerToken(parsed.value.0) && IsLowerToken(parsed.value.1)
  {
    var parts := Split(Lower(line));
    if |parts| != 2 then None
    else
      SplitOfLower(Lower(line));
      assert parts[0] in parts && parts[1] in parts;
      Some((parts[0], parts[1]))
  }

  /** A line that is two tokens surrounded and separated by any whitespace
      parses to those two tokens, lower-cased, in order. */
  lemma ParseLayout(lead: string, piece: string, mid: string, coord: string, trail: string)
    requires IsBlank(lead) && IsBlank(mid) && mid != [] && IsBlank(trail)
    requires IsToken(piece) && IsToken(coord)
    ensures ParsePieceInput(lead + piece + mid + coord + trail) == Some((Lower(piece), Lower(coord)))
  {
    LowerLayout(lead, piece, mid, coord, trail);
    LowerOfToken(piece);
    LowerOfToken(coord);
    SplitLayout(lead, Lower(piece), mid, Lower(coord), trail);
  }

  lemma LowerLayout(lead: string, piece: string, mid: string, coord: string, trail: string)
    requires IsBlank(lead) && IsBlank(mid) && IsBlank(trail)
    ensures Lower(lead + piece + mid + coord + trail) == lead + Lower(piece) + mid + Lower(coord) + trail
  {
    LowerConcat(lead, piece);
    LowerConcat(lead + piece, mid);
    LowerConcat(lead + piece + mid, coord);
    LowerConcat(lead + piece + mid + coord, trail);
    LowerOfBlank(lead);
    LowerOfBlank(mid);
    LowerOfBlank(trail);
  }

  lemma SplitLayout(lead: string, p: string, mid: string, c: string, trail: string)
    requires IsBlank(lead) && IsBlank(mid) && mid != [] && IsBlank(trail)
    requires IsToken(p) && IsToken(c)
    ensures Split(lead + p + mid + c + trail) == [p, c]
  {
    assert lead + p + mid + c + trail == (lead + p) + mid + (c + trail);
    SplitAtBlank(lead + p, mid, c + trail);
    SplitAfterBlank(lead, p);
    SplitBeforeBlank(c, trail);
  }

  lemma SplitAfterBlank(lead: string, t: string)
    requires IsBlank(lead) && IsToken(t)
    ensures Split(lead + t) == [t]
  {
    SplitOfToken(t);
    if lead == [] {
      assert lead + t == t;
    } else {
      SplitAtBlank([], lead, t);
      assert [] + lead + t == lead + t;
    }
  }

  lemma SplitBeforeBlank(t: string, trail: string)
    requires IsBlank(trail) && IsToken(t)
    ensures Split(t + trail) == [t]
  {
    SplitOfToken(t);
    if trail == [] {
      assert t + trail == t;
    } else {
      SplitAtBlank(t, trail, []);
      assert t + trail + [] == t + trail;
    }
  }

  /** A line laid out as gaps[0] + tokens[0] + gaps[1] + ... + tokens[n - 1]
      + gaps[n]. */
  function Spaced(tokens: seq<string>, gaps: seq<string>): string
    requires |gaps| == |tokens| + 1
    decreases |tokens|
  {
    if tokens == [] then gaps[0]
    else gaps[0] + tokens[0] + Spaced(tokens[1..], gaps[1..])
  }

  /** Whitespace-free tokens in whitespace gaps, where the gaps between two
      tokens are non-empty and those at the two ends may be empty. */
  predicate WellSpaced(tokens: seq<string>, gaps: seq<string>)
  {
    && |gaps| == |tokens| + 1
    && (forall i :: 0 <= i < |tokens| ==> IsToken(tokens[i]))
    && (forall i :: 0 <= i < |gaps| ==> IsBlank(gaps[i]))
    && (forall i :: 0 < i < |tokens| ==> gaps[i] != [])
  }

  /** Every token lower-cased. */
  function LowerAll(tokens: seq<string>): (lowered: seq<string>)
    ensures |lowered| == |tokens|
    ensures forall i :: 0 <= i < |tokens| ==> lowered[i] == Lower(tokens[i])
  {
    seq(|tokens|, i requires 0 <= i < |tokens| => Lower(tokens[i]))
  }

  /** Splitting a well-spaced line gives back exactly its tokens. */
  lemma {:induction false} SplitSpaced(tokens: seq<string>, gaps: seq<string>)
    requires WellSpaced(tokens, gaps)
    ensures Split(Spaced(tokens, gaps)) == tokens
    decreases |tokens|
  {
    if tokens == [] {
      SplitOfBlank(gaps[0]);
    } else if |tokens| == 1 {
      assert Spaced(tokens, gaps) == gaps[0] + tokens[0] + gaps[1];
      SplitOneSpaced(gaps[0], tokens[0], gaps[1]);
    } else {
      var x := SpacedTail(tokens, gaps);
      SplitSpaced(tokens[1..], [""] + gaps[2..]);
      SplitAfterBlank(gaps[0], tokens[0]);
      SplitAtBlank(gaps[0] + tokens[0], gaps[1], x);
      assert tokens == [tokens[0]] + tokens[1..];
    }
  }

  lemma SplitOneSpaced(lead: string, t: string, trail: string)
    requires IsBlank(lead) && IsToken(t) && IsBlank(trail)
    ensures Split(lead + t + trail) == [t]
  {
    SplitAfterBlank(lead, t);
    if trail == [] {
      assert lead + t + trail == lead + t;
    } else {
      SplitAtBlank(lead + t, trail, []);
      assert lead + t + trail + [] == lead + t + trail;
    }
  }

  /** The line after the first token and the gap that follows it, as a
      well-spaced line with an empty leading gap. */
  lemma SpacedTail(tokens: seq<string>, gaps: seq<string>) returns (x: string)
    requires WellSpaced(tokens, gaps) && |tokens| >= 2
    ensures WellSpaced(tokens[1..], [""] + gaps[2..])
    ensures x == Spaced(tokens[1..], [""] + gaps[2..])
    ensures Spaced(tokens, gaps) == gaps[0] + tokens[0] + gaps[1] + x
  {
    var rest := [""] + gaps[2..];
    forall i | 0 <= i < |rest| ensures IsBlank(rest[i]) {
      if i > 0 {
        assert rest[i] == gaps[i + 1];
      }
    }
    forall i | 0 < i < |tokens[1..]| ensures rest[i] != [] {
      assert rest[i] == gaps[i + 1];
    }
    x := Spaced(tokens[1..], rest);
    assert rest[1..] == gaps[1..][1..];
    assert x == "" + tokens[1] + Spaced(tokens[2..], gaps[2..]);
    assert Spaced(tokens[1..], gaps[1..]) == gaps[1] + x;
  }

  /** Lower-casing a line lower-cases each of its tokens and keeps its
      whitespace gaps. */
  lemma {:induction false} LowerSpaced(tokens: seq<string>, gaps: seq<string>)
    requires |gaps| == |tokens| + 1
    requires forall i :: 0 <= i < |gaps| ==> IsBlank(gaps[i])
    ensures Lower(Spaced(tokens, gaps)) == Spaced(LowerAll(tokens), gaps)
    decreases |tokens|
  {
    LowerOfBlank(gaps[0]);
    if tokens != [] {
      LowerSpaced(tokens[1..], gaps[1..]);
      assert LowerAll(tokens)[1..] == LowerAll(tokens[1..]);
      LowerConcat(gaps[0] + tokens[0], Spaced(tokens[1..], gaps[1..]));
      LowerConcat(gaps[0], tokens[0]);
    }
  }

  lemma LowerAllSpaced(tokens: seq<string>, gaps: seq<string>)
    requires WellSpaced(tokens, gaps)
    ensures WellSpaced(LowerAll(tokens), gaps)
  {
    forall i | 0 <= i < |tokens| ensures IsToken(LowerAll(tokens)[i]) {
      LowerOfToken(tokens[i]);
    }
  }

  /** Any line of whitespace-free tokens, separated by runs of whitespace
      and with optional whitespace before and after, parses exactly when it
      has two tokens, and then to those two tokens lower-cased, in order;
      any other count gives no result. */
  lemma ParseSpaced(tokens: seq<string>, gaps: seq<string>)
    requires WellSpaced(tokens, gaps)
    ensures ParsePieceInput(Spaced(tokens, gaps)) ==
      if |tokens| == 2 then Some((Lower(tokens[0]), Lower(tokens[1]))) else None
  {
    LowerSpaced(tokens, gaps);
    LowerAllSpaced(tokens, gaps);
    SplitSpaced(LowerAll(tokens), gaps);
  }
}
