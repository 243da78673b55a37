/// Pieces of pieces.rs: a piece is a (type, colour) pair with a one-letter
/// glyph, and each type owns a constant table of (i8, i8) offsets. No code
/// of the repository reads the offset tables; what is proved here is their
/// shape: which vectors each holds, that none is repeated and that none is
/// missing.
module Pieces {
  import opened Prelude

  /** The two sides. Rust declares `Color` in board.rs; it lives here because
      a piece needs it and Dafny's imports may not form a cycle. */
  datatype Color = Black | White

  /** The six piece types (the Rust enum is called `Pieces`). */
  datatype PieceType = Pawn | Rook | Knight | Bishop | Queen | King

  /** A piece (Rust field `type` is called `kind` here: `type` is a keyword). */
  datatype Piece = Piece(kind: PieceType, color: Color)

  /** `Piece::from`: the piece of the given type and colour. */
  function From(kind: PieceType, color: Color): (p: Piece)
    ensures p.kind == kind && p.color == color
  {
    Piece(kind, color)
  }

  /** The lower-case letter of a piece type. */
  function Letter(kind: PieceType): (c: char)
    ensures IsAsciiLower(c)
  {
    match kind
    case Pawn => 'p'
    case Rook => 'r'
    case Knight => 'n'
    case Bishop => 'b'
    case Queen => 'q'
    case King => 'k'
  }

  /** `Piece::get_char`: the type's letter, upper case for White and lower
      case for Black. */
  function GetChar(p: Piece): (c: char)
    ensures IsAsciiUpper(c) <==> p.color == White
    ensures IsAsciiLower(c) <==> p.color == Black
    ensures c in "PRNBQKprnbqk"
  {
    var letter := Letter(p.kind);
    match p.color
    case White => ToAsciiUppercase(letter)
    case _ => letter
  }

  /** Six types get six different letters. */
  lemma LetterInjective(k1: PieceType, k2: PieceType)
    requires Letter(k1) == Letter(k2)
    ensures k1 == k2
  {
  }

  /** The twelve (type, colour) pairs get twelve different glyphs, so a
      glyph names its piece. */
  lemma GetCharInjective(p: Piece, q: Piece)
    requires GetChar(p) == GetChar(q)
    ensures p == q
  {
    assert p.color == q.color;
    if p.color == White {
      assert ToAsciiUppercase(Letter(p.kind)) as int == Letter(p.kind) as int - 32;
      assert ToAsciiUppercase(Letter(q.kind)) as int == Letter(q.kind) as int - 32;
    }
    LetterInjective(p.kind, q.kind);
  }

  /** The glyph table of `get_char`: each type's letter, lower case for
      Black, and White's glyph is Black's shifted to upper case. */
  lemma GlyphTable()
    ensures GetChar(Piece(Pawn, Black)) == 'p' && GetChar(Piece(Pawn, White)) == 'P'
    ensures GetChar(Piece(Rook, Black)) == 'r' && GetChar(Piece(Rook, White)) == 'R'
    ensures GetChar(Piece(Knight, Black)) == 'n' && GetChar(Piece(Knight, White)) == 'N'
    ensures GetChar(Piece(Bishop, Black)) == 'b' && GetChar(Piece(Bishop, White)) == 'B'
    ensures GetChar(Piece(Queen, Black)) == 'q' && GetChar(Piece(Queen, White)) == 'Q'
    ensures GetChar(Piece(King, Black)) == 'k' && GetChar(Piece(King, White)) == 'K'
    ensures forall k :: GetChar(Piece(k, White)) as int == GetChar(Piece(k, Black)) as int - 32
  {
  }

  // ---------------------------------------------------------------------
  // Offset tables

  /** Rust's `i8`. */
  newtype i8 = x: int | -128 <= x < 128

  /** One entry of an offset table, as the source lists it. */
  type Offset = (i8, i8)

  function Abs(a: i8): nat
  {
    if a < 0 then -(a as int) else a as int
  }

  /** No entry of `s` occurs twice. */
  predicate Distinct(s: seq<Offset>)
  {
    forall i, j :: 0 <= i < j < |s| ==> s[i] != s[j]
  }

  const OffsetsPawn: seq<Offset> := [
    (1,  1),
    (1,  2),
    (-1, 1),
    (-1, 2)
  ]

  const OffsetsRook: seq<Offset> := [
    (1,  0), (2,  0), (3,  0), (4,  0), (5,  0), (6,  0), (7,  0),
    (0,  1), (0,  2), (0,  3), (0,  4), (0,  5), (0,  6), (0,  7),
    (-1, 0), (-2, 0), (-3, 0), (-4, 0), (-5, 0), (-6, 0), (-7, 0),
    (0, -1), (0, -2), (0, -3), (0, -4), (0, -5), (0, -6), (0, -7)
  ]

  const OffsetsKnight: seq<Offset> := [
    (1,  2), (1,  -2),
    (2,  1), (2,  -1),
    (-1, 2), (-1, -2),
    (-2, 1), (-2, -1)
  ]

  const OffsetsBishop: seq<Offset> := [
    (1,   1), (2,   2), (3,   3), (4,   4), (5,   5), (6,   6), (7,   7),
    (1,  -1), (2,  -2), (3,  -3), (4,  -4), (5,  -5), (6,  -6), (7,  -7),
    (-1,  1), (-2,  2), (-3,  3), (-4,  4), (-5,  5), (-6,  6), (-7,  7),
    (-1, -1), (-2, -2), (-3, -3), (-4, -4), (-5, -5), (-6, -6), (-7, -7)
  ]

  const OffsetsQueen: seq<Offset> := [
    (1,   0), (2,   0), (3,   0), (4,   0), (5,   0), (6,   0), (7,   0),
    (0,   1), (0,   2), (0,   3), (0,   4), (0,   5), (0,   6), (0,   7),
    (-1,  0), (-2,  0), (-3,  0), (-4,  0), (-5,  0), (-6,  0), (-7,  0),
    (0,  -1), (0,  -2), (0,  -3), (0,  -4), (0,  -5), (0,  -6), (0,  -7),
    (1,   1), (2,   2), (3,   3), (4,   4), (5,   5), (6,   6), (7,   7),
    (1,  -1), (2,  -2), (3,  -3), (4,  -4), (5,  -5), (6,  -6), (7,  -7),
    (-1,  1), (-2,  2), (-3,  3), (-4,  4), (-5,  5), (-6,  6), (-7,  7),
    (-1, -1), (-2, -2), (-3, -3), (-4, -4), (-5, -5), (-6, -6), (-7, -7)
  ]

  /** A pawn entry: first component one step either way, second 1 or 2. */
  predicate IsPawnStep(o: Offset)
  {
    (o.0 == 1 || o.0 == -1) && (o.1 == 1 || o.1 == 2)
  }

  /** An orthogonal vector: exactly one component is zero and the other
      has magnitude 1..7. */
  predicate IsRookStep(o: Offset)
  {
    (o.0 == 0) != (o.1 == 0) && 1 <= Abs(o.0) + Abs(o.1) <= 7
  }

  /** A diagonal vector of magnitude 1..7. */
  predicate IsBishopStep(o: Offset)
  {
    Abs(o.0) == Abs(o.1) && 1 <= Abs(o.0) <= 7
  }

  /** A knight jump: the two magnitudes are 1 and 2, in either order. */
  predicate IsKnightStep(o: Offset)
  {
    (Abs(o.0) == 1 && Abs(o.1) == 2) || (Abs(o.0) == 2 && Abs(o.1) == 1)
  }

  /** The rook table row by row: row d is one direction, column m the
      distance m + 1. */
  function RookRay(i: nat): (o: Offset)
    requires i < 28
    ensures IsRookStep(o)
  {
    var m := (i % 7 + 1) as i8;
    match i / 7
    case 0 => (m, 0)
    case 1 => (0, m)
    case 2 => (-m, 0)
    case _ => (0, -m)
  }

  /** The bishop table row by row, in the same layout as RookRay. */
  function BishopRay(i: nat): (o: Offset)
    requires i < 28
    ensures IsBishopStep(o)
  {
    var m := (i % 7 + 1) as i8;
    match i / 7
    case 0 => (m, m)
    case 1 => (m, -m)
    case 2 => (-m, m)
    case _ => (-m, -m)
  }

  lemma RookTableIsRays()
    ensures |OffsetsRook| == 28
    ensures forall i :: 0 <= i < 28 ==> OffsetsRook[i] == RookRay(i)
  {
  }

  lemma BishopTableIsRays()
    ensures |OffsetsBishop| == 28
    ensures forall i :: 0 <= i < 28 ==> OffsetsBishop[i] == BishopRay(i)
  {
  }

  /** The pawn table holds exactly the four vectors (±1, 1) and (±1, 2). */
  lemma PawnOffsetsExact()
    ensures |OffsetsPawn| == 4 && Distinct(OffsetsPawn)
    ensures forall i :: 0 <= i < |OffsetsPawn| ==> IsPawnStep(OffsetsPawn[i])
    ensures forall o :: IsPawnStep(o) ==> o in OffsetsPawn
  {
  }

  /** The rook table: every entry orthogonal with magnitude 1..7, no entry
      twice, and every such vector present. */
  lemma RookOffsetsExact()
    ensures |OffsetsRook| == 28 && Distinct(OffsetsRook)
    ensures forall i :: 0 <= i < |OffsetsRook| ==> IsRookStep(OffsetsRook[i])
    ensures forall o :: IsRookStep(o) ==> o in OffsetsRook
  {
    RookTableIsRays();
    forall i, j | 0 <= i < j < 28
      ensures OffsetsRook[i] != OffsetsRook[j]
    {
      assert RookRay(i) != RookRay(j);
    }
    forall o | IsRookStep(o)
      ensures o in OffsetsRook
    {
      var i :=
        if o.0 > 0 then o.0 as int - 1
        else if o.1 > 0 then 7 + o.1 as int - 1
        else if o.0 < 0 then 14 - o.0 as int - 1
        else 21 - o.1 as int - 1;
      assert OffsetsRook[i] == RookRay(i) == o;
    }
  }

  /** The bishop table: every entry diagonal with magnitude 1..7, no entry
      twice, and each magnitude present with all four sign combinations. */
  lemma BishopOffsetsExact()
    ensures |OffsetsBishop| == 28 && Distinct(OffsetsBishop)
    ensures forall i :: 0 <= i < |OffsetsBishop| ==> IsBishopStep(OffsetsBishop[i])
    ensures forall o :: IsBishopStep(o) ==> o in OffsetsBishop
  {
    BishopTableIsRays();
    forall i, j | 0 <= i < j < 28
      ensures OffsetsBishop[i] != OffsetsBishop[j]
    {
      assert BishopRay(i) != BishopRay(j);
    }
    forall o | IsBishopStep(o)
      ensures o in OffsetsBishop
    {
      var m := Abs(o.0) - 1;
      var i :=
        if o.0 > 0 && o.1 > 0 then m
        else if o.0 > 0 then 7 + m
        else if o.1 > 0 then 14 + m
        else 21 + m;
      assert OffsetsBishop[i] == BishopRay(i) == o;
    }
  }

  /** The knight table: the eight vectors with magnitudes {1, 2}, each once. */
  lemma KnightOffsetsExact()
    ensures |OffsetsKnight| == 8 && Distinct(OffsetsKnight)
    ensures forall i :: 0 <= i < |OffsetsKnight| ==> IsKnightStep(OffsetsKnight[i])
    ensures forall o :: IsKnightStep(o) ==> o in OffsetsKnight
  {
  }

  /** The queen table is the rook table followed by the bishop table, entry
      for entry. */
  lemma QueenOffsetsAreRookThenBishop()
    ensures OffsetsQueen == OffsetsRook + OffsetsBishop
  {
    QueenRookHalf();
    QueenBishopHalf();
    assert OffsetsQueen == OffsetsQueen[..28] + OffsetsQueen[28..];
  }

  /** The first 28 queen entries are the rook table. */
  lemma QueenRookHalf()
    ensures |OffsetsQueen| == 56 && OffsetsQueen[..28] == OffsetsRook
  {
  }

  /** The last 28 queen entries are the bishop table. */
  lemma QueenBishopHalf()
    ensures |OffsetsQueen| == 56 && OffsetsQueen[28..] == OffsetsBishop
  {
    forall i | 0 <= i < 28
      ensures OffsetsQueen[28 + i] == OffsetsBishop[i]
    {
      if i < 14 {
        QueenBishopEntryEarly(i);
      } else {
        QueenBishopEntryLate(i);
      }
    }
    assert OffsetsQueen[28..] == OffsetsBishop;
  }

  /** Queen entries 28..41 match bishop entries 0..13. The bishop half is
      checked in two lemmas of 14 entries each only to keep every proof
      obligation small; together they cover entries 0..27. */
  lemma QueenBishopEntryEarly(i: nat)
    requires i < 14
    ensures OffsetsQueen[28 + i] == OffsetsBishop[i]
  {
  }

  /** Queen entries 42..55 match bishop entries 14..27. */
  lemma QueenBishopEntryLate(i: nat)
    requires 14 <= i < 28
    ensures OffsetsQueen[28 + i] == OffsetsBishop[i]
  {
  }

  /** Hence the queen table holds exactly the 56 orthogonal and diagonal
      vectors of magnitude 1..7, each once. */
  lemma QueenOffsetsExact()
    ensures |OffsetsQueen| == 56 && Distinct(OffsetsQueen)
    ensures forall o :: o in OffsetsQueen <==> IsRookStep(o) || IsBishopStep(o)
  {
    QueenOffsetsAreRookThenBishop();
    RookOffsetsExact();
    BishopOffsetsExact();
    forall i, j | 0 <= i < j < 56
      ensures OffsetsQueen[i] != OffsetsQueen[j]
    {
      if i < 28 && 28 <= j {
        assert OffsetsQueen[i] == OffsetsRook[i] && OffsetsQueen[j] == OffsetsBishop[j - 28];
        assert IsRookStep(OffsetsQueen[i]) && IsBishopStep(OffsetsQueen[j]);
      } else if j < 28 {
        assert OffsetsQueen[i] == OffsetsRook[i] && OffsetsQueen[j] == OffsetsRook[j];
      } else {
        assert OffsetsQueen[i] == OffsetsBishop[i - 28] && OffsetsQueen[j] == OffsetsBishop[j - 28];
      }
    }
    forall o | o in OffsetsQueen
      ensures IsRookStep(o) || IsBishopStep(o)
    {
      assert o in OffsetsRook || o in OffsetsBishop;
    }
  }
}
