/// The board of board.rs: squares that pack a coordinate into one byte and
/// may hold a piece, the parsing and printing of text coordinates, and a
/// board of 64 squares that is filled, set up and updated in place.
///
/// Rust's `u8` is a number in 0..255 here, and the bit operations the
/// source applies to it are written out. The model follows a debug build:
/// `+`, `-` and `*` on `u8` panic on overflow, while `<<` silently drops the
/// bits shifted out. Panics are the `Panicked` outcome of module Prelude.
module Board {
  import opened Prelude
  import opened Pieces

  /** Rust's `u8`. */
  type u8 = x: int | 0 <= x < 256

  /** `x << 4` on a `u8`: the bits shifted past bit 7 are lost. */
  function Shl4(x: u8): u8
  {
    (x * 16) % 256
  }

  /** Shifting a value below 16 left by 4 loses nothing. */
  lemma Shl4Small(x: u8)
    requires x <= 15
    ensures Shl4(x) == 16 * x
  {
  }

  /** `x >> 4` on a `u8`. */
  function Shr4(x: u8): u8
  {
    x / 16
  }

  /** `x & 0xF0`: the low four bits cleared. */
  function MaskHigh(x: u8): u8
  {
    x - x % 16
  }

  /** `x & 0x0F`: the low four bits. */
  function MaskLow(x: u8): u8
  {
    x % 16
  }

  /** `(a ^ b) & 1`: bit 0 of the exclusive or, set when exactly one of
      `a` and `b` has bit 0 set. */
  function XorLowBit(a: u8, b: u8): u8
  {
    if a % 2 == b % 2 then 0 else 1
  }

  /** `(b & 0xF0) >> 4` is `b >> 4`: the mask clears only bits the shift
      drops. */
  lemma MaskThenShift(b: u8)
    ensures Shr4(MaskHigh(b)) == Shr4(b)
  {
    var h, l := b / 16, b % 16;
    assert MaskHigh(b) == 16 * h;
  }

  /** The high nibble of a coordinate byte, `b >> 4`. */
  function Hi(b: u8): (h: u8)
    ensures h <= 15
  {
    Shr4(b)
  }

  /** The low nibble of a coordinate byte, `b & 0x0F`. */
  function Lo(b: u8): (l: u8)
    ensures l <= 15
  {
    MaskLow(b)
  }

  /** A byte is a packed board coordinate when both nibbles are 0..7. */
  predicate IsBoardCoord(b: u8)
  {
    Hi(b) <= 7 && Lo(b) <= 7
  }

  // ---------------------------------------------------------------------
  // Text helpers: what Rust's `str::len`, `to_ascii_lowercase`,
  // `char::to_digit(10)` and `u8`'s `Display` do on the inputs used here.

  /** Bytes taken by one character in UTF-8. */
  function Utf8Width(c: char): nat
  {
    if c as int < 0x80 then 1
    else if c as int < 0x800 then 2
    else if c as int < 0x1_0000 then 3
    else 4
  }

  /** `str::len`: the length of the string in UTF-8 bytes. */
  function Utf8Length(s: string): nat
  {
    if s == [] then 0 else Utf8Length(s[..|s| - 1]) + Utf8Width(s[|s| - 1])
  }

  /** Every character takes at least one byte. */
  lemma {:induction false} Utf8LengthAtLeastCount(s: string)
    ensures Utf8Length(s) >= |s|
  {
    if s != [] {
      Utf8LengthAtLeastCount(s[..|s| - 1]);
    }
  }

  /** A string of two UTF-8 bytes is two ASCII characters or one two-byte
      character, and two ASCII characters take two bytes. */
  lemma {:induction false} Utf8LengthTwo(s: string)
    ensures Utf8Length(s) == 2 <==>
              (|s| == 2 && s[0] as int < 0x80 && s[1] as int < 0x80)
              || (|s| == 1 && 0x80 <= s[0] as int < 0x800)
  {
    Utf8LengthAtLeastCount(s);
    if |s| == 2 {
      assert s[..1][..0] == [];
      Utf8LengthAtLeastCount(s[..1]);
    } else if |s| == 1 {
      assert s[..0] == [];
    } else if |s| > 2 {
      assert Utf8Length(s) > 2;
    }
  }

  /** `str::to_ascii_lowercase`, character by character. */
  function LowercaseString(s: string): (t: string)
    ensures |t| == |s| && forall i :: 0 <= i < |s| ==> t[i] == ToAsciiLowercase(s[i])
  {
    seq(|s|, i requires 0 <= i < |s| => ToAsciiLowercase(s[i]))
  }

  /** `char::to_ascii_uppercase` applied to every character. */
  function UppercaseString(s: string): (t: string)
    ensures |t| == |s| && forall i :: 0 <= i < |s| ==> t[i] == ToAsciiUppercase(s[i])
  {
    seq(|s|, i requires 0 <= i < |s| => ToAsciiUppercase(s[i]))
  }

  predicate IsDecimalDigit(c: char) { '0' <= c <= '9' }

  /** The character of a decimal digit. */
  function DigitChar(d: nat): (c: char)
    requires d < 10
    ensures IsDecimalDigit(c) && c as int - '0' as int == d
  {
    ('0' as int + d) as char
  }

  /** The number a string of decimal digits denotes. */
  function DecimalValue(s: string): nat
    requires forall i :: 0 <= i < |s| ==> IsDecimalDigit(s[i])
  {
    if |s| == 0 then 0
    else
      var last := s[|s| - 1];
      assert IsDecimalDigit(last);
      10 * DecimalValue(s[..|s| - 1]) + (last as int - '0' as int)
  }

  /** How `u8`'s `Display` writes a number: its decimal digits, without a
      leading zero, denoting the number. */
  function DecimalString(n: nat): (s: string)
    ensures 1 <= |s| && forall i :: 0 <= i < |s| ==> IsDecimalDigit(s[i])
    ensures n < 10 <==> |s| == 1
    ensures |s| > 1 ==> s[0] != '0'
    ensures DecimalValue(s) == n
  {
    if n < 10 then [DigitChar(n)]
    else
      var front := DecimalString(n / 10);
      var s := front + [DigitChar(n % 10)];
      assert s[..|s| - 1] == front;
      s
  }

  // ---------------------------------------------------------------------
  // Squares

  /** A file letter `string_to_u8` admits, in either case: 'a'..'i'. Its
      check rejects only values above 8, so 'i' gets through. */
  predicate IsAdmittedLetter(c: char)
  {
    'a' <= c <= 'i' || 'A' <= c <= 'I'
  }

  /** The file index of an admitted letter: 'a' and 'A' are 0. */
  function FileIndex(c: char): (k: nat)
    requires IsAdmittedLetter(c)
    ensures k <= 8
  {
    if 'a' <= c <= 'i' then c as int - 'a' as int else c as int - 'A' as int
  }

  /** The texts `string_to_u8` accepts without panicking: an admitted letter,
      a decimal digit, and not the pair ('a', '0'), whose `- 1` underflows. */
  predicate IsParsableCoord(s: string)
  {
    && |s| == 2
    && IsAdmittedLetter(s[0])
    && IsDecimalDigit(s[1])
    && !(FileIndex(s[0]) == 0 && s[1] == '0')
  }

  /** A coordinate in the chess sense: a file 'a'..'h' in either case and a
      rank '1'..'8'. */
  predicate IsChessCoord(s: string)
  {
    |s| == 2 && ('a' <= s[0] <= 'h' || 'A' <= s[0] <= 'H') && '1' <= s[1] <= '8'
  }

  /** `c as u8`: the low byte of the character's code point. */
  function AsU8(c: char): u8
  {
    c as int % 256
  }

  /** The panic of `string_to_u8`'s letter check `c as u8 - b'a' > 8`, if
      any: the subtraction underflows below 'a', the check fails above 'i'. */
  function LetterPanic(c: u8): (p: Option<Panic>)
    ensures p == None <==> 'a' as int <= c <= 'i' as int
  {
    if c < 'a' as int then Some(ArithmeticOverflow)
    else if c - 'a' as int > 8 then Some(CoordLetter)
    else None
  }

  /** The last line of `string_to_u8`, `(c as u8 - b'A' << 4) + digit - 1`:
      the shift drops the bit that lower case adds, the `+` cannot overflow
      for a letter 'a'..'i', and the final `- 1` underflows only for 'a'
      with digit 0. */
  function PackParsed(c: u8, digit: u8): (r: Outcome<u8>)
    requires 'a' as int <= c <= 'i' as int && digit <= 9
    ensures r.Returned? <==> !(c == 'a' as int && digit == 0)
    ensures r.Returned? ==> r.value == 16 * (c - 'a' as int) + digit - 1
  {
    var high := Shl4(c - 'A' as int);
    var sum := high + digit;
    if sum == 0 then Panicked(ArithmeticOverflow)
    else Returned(sum - 1)
  }

  /** For an ASCII character, lower-casing lands in 'a'..'i' exactly for the
      admitted letters, at their file index. */
  lemma LowercaseLetter(ch: char)
    requires ch as int < 0x80
    ensures var low := ToAsciiLowercase(ch);
            ('a' <= low <= 'i' <==> IsAdmittedLetter(ch))
            && (IsAdmittedLetter(ch) ==> low as int - 'a' as int == FileIndex(ch))
            && (IsDecimalDigit(ch) <==> IsDecimalDigit(low)) && (IsDecimalDigit(ch) ==> low == ch)
  {
  }

  lemma LowercasePair(s: string)
    requires |s| == 2 ==> s[0] as int < 0x80 && s[1] as int < 0x80
    ensures |s| == 2 ==>
              var low := LowercaseString(s);
              ('a' <= low[0] <= 'i' <==> IsAdmittedLetter(s[0]))
              && (IsAdmittedLetter(s[0]) ==> low[0] as int - 'a' as int == FileIndex(s[0]))
              && (IsDecimalDigit(s[1]) <==> IsDecimalDigit(low[1]))
              && (IsDecimalDigit(s[1]) ==> low[1] == s[1])
  {
    if |s| == 2 {
      LowercaseLetter(s[0]);
      LowercaseLetter(s[1]);
    }
  }

  /** `Square`: a packed coordinate byte and the piece on it, if any. The
      coordinate is fixed when the square is made; only the piece changes. */
  datatype Square = Square(coord: u8, piece: Option<Piece>)
  {
    /** `Square::from(y, x)`: panics when either index is above 7; otherwise
        an empty square with `y` in the high nibble and `x` in the low one.
        The `+` cannot overflow once both are at most 7. */
    static function From(y: u8, x: u8): (r: Outcome<Square>)
      ensures r.Returned? <==> y <= 7 && x <= 7
      ensures r.Returned? ==>
                && Hi(r.value.coord) == y && Lo(r.value.coord) == x
                && r.value.piece == None
    {
      if x > 7 || y > 7 then Panicked(SquareIndexOutOfRange)
      else
        Shl4Small(y);
        NibblesOf(16 * y + x, y, x);
        Returned(Square(Shl4(y) + x, None))
    }

    /** `get_coords_string`: the high nibble as a letter counted from 'A' and
        the low nibble plus one in decimal. For a board coordinate this is a
        chess coordinate; a low nibble of 9 or more gives two digits. */
    function GetCoordsString(): (s: string)
      ensures |s| == if Lo(coord) <= 8 then 2 else 3
      ensures s[0] as int == 'A' as int + Hi(coord)
      ensures Lo(coord) <= 8 ==> s[1] as int == '1' as int + Lo(coord)
    ensures Lo(coord) >= 9 ==> s[1] == '1' && s[2] as int == '0' as int + Lo(coord) - 9
    ensures IsBoardCoord(coord) ==> IsChessCoord(s)
    {
      [(Hi(coord) + 'A' as int) as char] + DecimalString(Lo(coord) + 1)
    }

    /** `get_color`: the tint from the parity of the two nibbles, Black when
        their exclusive or is even. */
    function GetColor(): (c: Color)
      ensures c == Black <==> (Hi(coord) + Lo(coord)) % 2 == 0
    {
      MaskThenShift(coord);
      if XorLowBit(Shr4(MaskHigh(coord)), MaskLow(coord)) == 0 then Black else White
    }

    /** `get_piece`. */
    function GetPiece(): Option<Piece>
    {
      piece
    }

    /** `set_piece`: the same square holding `p`. */
    function SetPiece(p: Piece): Square
    {
      this.(piece := Some(p))
    }

    /** `remove_piece`: the same square, empty. */
    function RemovePiece(): Square
    {
      this.(piece := None)
    }

    /** `Square::get_char`: an occupied square shows its piece's glyph; an
        empty one shows '#' when its tint is Black and ' ' when White. */
    function GetChar(): (c: char)
      ensures piece.Some? ==> c == Pieces.GetChar(piece.value)
      ensures (c == '#' || c == ' ') <==> piece.None?
      ensures piece.None? ==> (c == '#' <==> GetColor() == Black)
    {
      match GetPiece()
      case Some(p) => Pieces.GetChar(p)
      case None =>
        match GetColor()
        case Black => '#'
        case White => ' '
    }

    /** `Square::string_to_u8`: parses a two-byte text coordinate into
        `(file << 4) + rank - 1` with `u8` arithmetic. It panics when the text
        is not two bytes long, when the lower-cased first character is not
        'a'..'i', when there is no second character, when the second is not
        a decimal digit, and when the final `- 1` underflows ("a0"). */
    static function StringToU8(coord: string): (r: Outcome<u8>)
      ensures r.Returned? <==> IsParsableCoord(coord)
      ensures r.Returned? ==>
                r.value == 16 * FileIndex(coord[0]) + (coord[1] as int - '0' as int) - 1
    {
      Utf8LengthTwo(coord);
      if Utf8Length(coord) != 2 then Panicked(CoordLength)
      else
        LowercasePair(coord);
        var lower := LowercaseString(coord);
        var c := AsU8(lower[0]);
        match LetterPanic(c)
        case Some(reason) => Panicked(reason)
        case None =>
          if |lower| < 2 then Panicked(CoordMissingChar)
          else if !IsDecimalDigit(lower[1]) then Panicked(CoordDigit)
          else
            assert c == lower[0] as int && 'a' <= lower[0] <= 'i';
            assert FileIndex(coord[0]) == c - 'a' as int && lower[1] == coord[1];
            PackParsed(c, lower[1] as int - '0' as int)
    }
  }

  // ---------------------------------------------------------------------
  // Facts about squares

  /** A byte is its two nibbles. */
  lemma NibblesCompose(b: u8)
    ensures b == 16 * Hi(b) + Lo(b)
  {
  }

  /** The nibbles of a byte given as a number 16 * h + l. */
  lemma NibblesOf(b: u8, h: int, l: int)
    requires 0 <= l < 16 && b == 16 * h + l
    ensures Hi(b) == h && Lo(b) == l
  {
  }

  /** Printing a board coordinate and parsing the text back gives the byte
      again, whether the letter is kept upper case or lower-cased first. */
  lemma CoordsRoundTrip(sq: Square)
    requires IsBoardCoord(sq.coord)
    ensures Square.StringToU8(sq.GetCoordsString()) == Returned(sq.coord)
    ensures Square.StringToU8(LowercaseString(sq.GetCoordsString())) == Returned(sq.coord)
  {
    var text := sq.GetCoordsString();
    var low := LowercaseString(text);
    assert FileIndex(text[0]) == Hi(sq.coord);
    assert IsChessCoord(low) && FileIndex(low[0]) == Hi(sq.coord) && low[1] == text[1];
    NibblesCompose(sq.coord);
    var r := Square.StringToU8(text);
    assert r.value == sq.coord;
    var q := Square.StringToU8(low);
    assert q.value == sq.coord;
  }

  /** Parsing a chess coordinate and printing the byte gives the text back,
      upper-cased: file 'a'..'h' in the high nibble, rank minus one in the
      low one. */
  lemma ParseThenPrint(text: string)
    requires IsChessCoord(text)
    ensures Square.StringToU8(text).Returned?
    ensures var b := Square.StringToU8(text).value;
            && IsBoardCoord(b)
            && Hi(b) == FileIndex(text[0])
            && Lo(b) == text[1] as int - '1' as int
            && Square(b, None).GetCoordsString() == UppercaseString(text)
  {
    var b := Square.StringToU8(text).value;
    NibblesOf(b, FileIndex(text[0]), text[1] as int - '1' as int);
    var printed := Square(b, None).GetCoordsString();
    var upper := UppercaseString(text);
    assert printed[0] == upper[0];
    assert printed[1] == upper[1];
  }

  /** `string_to_u8` admits 'i' as a ninth file: "i1" gives high nibble 8. */
  lemma ParseAdmitsFileI()
    ensures Square.StringToU8("i1") == Returned(0x80)
  {
    var r := Square.StringToU8("i1");
    assert IsParsableCoord("i1") && FileIndex('i') == 8;
    assert r.value == 0x80;
  }

  /** `string_to_u8` admits '9' as a ninth rank: "A9" gives low nibble 8. */
  lemma ParseAdmitsRank9()
    ensures Square.StringToU8("A9") == Returned(0x08)
  {
    var r := Square.StringToU8("A9");
    assert IsParsableCoord("A9") && FileIndex('A') == 0;
    assert r.value == 0x08;
  }

  /** Rank '0' borrows from the file: "b0" gives 0x0F, which prints as "A16". */
  lemma ParseRank0Borrows()
    ensures Square.StringToU8("b0") == Returned(0x0F)
    ensures Square(0x0F, None).GetCoordsString() == "A16"
  {
    var r := Square.StringToU8("b0");
    assert IsParsableCoord("b0") && FileIndex('b') == 1;
    assert r.value == 0x0F;
    assert DecimalString(16) == "16" by {
      assert DecimalString(1) == "1";
    }
  }

  /** "a0" passes every check of `string_to_u8` and panics in its final
      `- 1`, which underflows. */
  lemma ParseA0Underflows()
    ensures Square.StringToU8("a0") == Panicked(ArithmeticOverflow)
  {
    assert Utf8Length("a0") == 2 by {
      assert "a0"[..1] == "a" && "a"[..0] == "";
    }
    assert AsU8('a') == 'a' as int;
  }

  /** A letter past 'i' fails the letter check. */
  lemma ParseRejectsFileJ()
    ensures Square.StringToU8("j1") == Panicked(CoordLetter)
  {
    assert Utf8Length("j1") == 2 by {
      assert "j1"[..1] == "j" && "j"[..0] == "";
    }
    assert AsU8('j') == 'j' as int;
  }

  /** A three-character text fails the length check. */
  lemma ParseRejectsLength()
    ensures Square.StringToU8("a10") == Panicked(CoordLength)
  {
    assert Utf8Length("a10") == 3 by {
      assert "a10"[..2] == "a1" && "a1"[..1] == "a" && "a"[..0] == "";
    }
  }

  /** The byte 0x00 (a1 in text) is Black, the dark tint. */
  lemma CornerIsBlack(p: Option<Piece>)
    ensures Square(0x00, p).GetColor() == Black
  {
  }

  /** Squares whose nibble sums differ in parity differ in tint. */
  lemma TintsDiffer(b: u8, c: u8, p: Option<Piece>, q: Option<Piece>)
    requires (Hi(b) + Lo(b)) % 2 != (Hi(c) + Lo(c)) % 2
    ensures Square(b, p).GetColor() != Square(c, q).GetColor()
  {
  }

  /** Squares one apart in the low nibble differ in tint. */
  lemma LowNeighboursDifferInTint(b: u8, p: Option<Piece>, q: Option<Piece>)
    requires Lo(b) < 15
    ensures Square(b, p).GetColor() != Square(b + 1, q).GetColor()
  {
    var h, l := Hi(b), Lo(b);
    NibblesCompose(b);
    NibblesOf(b + 1, h, l + 1);
    TintsDiffer(b, b + 1, p, q);
  }

  /** Squares one apart in the high nibble differ in tint. */
  lemma HighNeighboursDifferInTint(b: u8, p: Option<Piece>, q: Option<Piece>)
    requires Hi(b) < 15
    ensures Square(b, p).GetColor() != Square(b + 0x10, q).GetColor()
  {
    var h, l := Hi(b), Lo(b);
    NibblesCompose(b);
    NibblesOf(b + 0x10, h + 1, l);
    TintsDiffer(b, b + 0x10, p, q);
  }

  /** `set_piece`, `remove_piece` and `get_piece` change and read the
      occupant only: the coordinate stays, the last write wins. */
  lemma OccupantUpdates(sq: Square, p: Piece, q: Piece)
    ensures sq.SetPiece(p).GetPiece() == Some(p) && sq.SetPiece(p).coord == sq.coord
    ensures sq.RemovePiece().GetPiece() == None && sq.RemovePiece().coord == sq.coord
    ensures sq.SetPiece(p).SetPiece(q) == sq.SetPiece(q)
    ensures sq.SetPiece(p).RemovePiece() == sq.RemovePiece()
    ensures sq.SetPiece(p).GetChar() == GetChar(p)
    ensures sq.RemovePiece().GetChar() == (if sq.GetColor() == Black then '#' else ' ')
  {
  }

  /** Two squares show the same character exactly when both are empty with
      the same tint or both hold the same piece. */
  lemma GetCharIdentifies(s: Square, t: Square)
    ensures s.GetChar() == t.GetChar() <==>
              if s.piece.Some? then t.piece == s.piece
              else t.piece.None? && s.GetColor() == t.GetColor()
  {
    if s.piece.Some? && t.piece.Some? && s.GetChar() == t.GetChar() {
      GetCharInjective(s.piece.value, t.piece.value);
    }
  }

  // ---------------------------------------------------------------------
  // The board

  /** The error `r#move` returns for an empty start square. */
  const NoPieceAtStart: string := "No piece at start"

  /** What `r#move` returns when it does not panic: `Ok(())` or `Err(msg)`. */
  datatype MoveResult = Ok | Err(message: string)

  /** The empty square of row `y`, column `x`: `y` in the high nibble, `x`
      in the low one. `FreshCellIsFrom` shows it is `Square::from(y, x)`. */
  function EmptySquare(y: nat, x: nat): Square
    requires y <= 7 && x <= 7
  {
    Square(16 * y + x, None)
  }

  /** The square `Board::new` puts in cell `k`. */
  function FreshCell(k: nat): Square
    requires k < 64
  {
    EmptySquare(k / 8, k % 8)
  }

  /** Cell `k` of a fresh board holds row `k / 8` in the high nibble and
      column `k % 8` in the low one, and no piece; its tint is Black exactly
      when row plus column is even. */
  lemma FreshCellCoord(k: nat)
    requires k < 64
    ensures IsBoardCoord(FreshCell(k).coord)
    ensures Hi(FreshCell(k).coord) == k / 8 && Lo(FreshCell(k).coord) == k % 8
    ensures FreshCell(k).piece == None
    ensures FreshCell(k).GetColor() == Black <==> (k / 8 + k % 8) % 2 == 0
  {
    EmptySquareCoord(k / 8, k % 8);
  }

  /** The empty square of row `y`, column `x` holds `y` and `x` as its
      nibbles, and its tint is Black exactly when `y + x` is even. */
  lemma EmptySquareCoord(y: nat, x: nat)
    requires y <= 7 && x <= 7
    ensures IsBoardCoord(EmptySquare(y, x).coord)
    ensures Hi(EmptySquare(y, x).coord) == y && Lo(EmptySquare(y, x).coord) == x
    ensures EmptySquare(y, x).GetColor() == Black <==> (y + x) % 2 == 0
  {
    var c := 16 * y + x;
    assert EmptySquare(y, x) == Square(c, None);
    NibblesOf(c, y, x);
    TintOf(c, y, x, None);
  }

  /** The tint of a square follows from its nibbles. */
  lemma TintOf(b: u8, y: nat, x: nat, p: Option<Piece>)
    requires Hi(b) == y && Lo(b) == x
    ensures Square(b, p).GetColor() == Black <==> (y + x) % 2 == 0
  {
  }

  /** `Square::from(y, x)` for a row and column of the board is the empty
      square of cell `y * 8 + x`, and `get_index(y, x)` finds that cell. */
  lemma FreshCellIsFrom(y: nat, x: nat)
    requires y <= 7 && x <= 7
    ensures Square.From(y, x) == Returned(EmptySquare(y, x))
    ensures FreshCell(y * 8 + x) == EmptySquare(y, x)
    ensures Board.GetIndex(y, x) == Returned(y * 8 + x)
  {
    CellNumber(y, x);
    Shl4Small(y);
  }

  /** Cell `y * 8 + x` lies in row `y`, column `x`. */
  lemma CellNumber(y: nat, x: nat)
    requires x <= 7
    ensures (y * 8 + x) / 8 == y && (y * 8 + x) % 8 == x
  {
  }

  /** The whole board after `Board::new`. */
  function FreshBoard(): (cells: seq<Square>)
    ensures |cells| == 64 && forall k :: 0 <= k < 64 ==> cells[k] == FreshCell(k)
  {
    seq(64, k requires 0 <= k < 64 => FreshCell(k))
  }

  /** Cells that hold the empty square of their own row and column make up
      the fresh board. */
  lemma RowsMakeFreshBoard(cells: seq<Square>)
    requires |cells| == 64
    requires forall y, x :: 0 <= y < 8 && 0 <= x < 8 ==> cells[y * 8 + x] == EmptySquare(y, x)
    ensures cells == FreshBoard()
  {
    forall k | 0 <= k < 64
      ensures cells[k] == FreshCell(k)
    {
      var y, x := k / 8, k % 8;
      assert k == y * 8 + x;
    }
  }

  /** The cells after the inner loop of `Board::new` has written columns
      `0..j-1` of row `y`. */
  function RowWrites(cells: seq<Square>, y: nat, j: nat): (after: seq<Square>)
    requires |cells| == 64 && y <= 7 && j <= 8
    ensures |after| == 64
    decreases j
  {
    if j == 0 then cells
    else RowWrites(cells, y, j - 1)[y * 8 + j - 1 := EmptySquare(y, j - 1)]
  }

  /** The cells after the outer loop of `Board::new` has filled rows
      `0..i-1`. */
  function RowsWritten(cells: seq<Square>, i: nat): (after: seq<Square>)
    requires |cells| == 64 && i <= 8
    ensures |after| == 64
    decreases i
  {
    if i == 0 then cells else RowWrites(RowsWritten(cells, i - 1), i - 1, 8)
  }

  /** After `j` columns of row `y`, each of those columns holds its empty
      square. */
  lemma {:induction false} RowWritesInside(cells: seq<Square>, y: nat, j: nat, x: nat)
    requires |cells| == 64 && y <= 7 && x < j <= 8
    ensures RowWrites(cells, y, j)[y * 8 + x] == EmptySquare(y, x)
  {
    if x < j - 1 {
      RowWritesInside(cells, y, j - 1, x);
    }
  }

  /** Writing row `y` leaves every cell outside that row as it was. */
  lemma {:induction false} RowWritesOutside(cells: seq<Square>, y: nat, j: nat, k: nat)
    requires |cells| == 64 && y <= 7 && j <= 8 && k < 64
    requires k < y * 8 || y * 8 + 8 <= k
    ensures RowWrites(cells, y, j)[k] == cells[k]
  {
    if j > 0 {
      RowWritesOutside(cells, y, j - 1, k);
    }
  }

  /** After `i` rows, every cell of those rows holds the empty square of its
      own row and column. */
  lemma {:induction false} RowsWrittenAt(cells: seq<Square>, i: nat, y: nat, x: nat)
    requires |cells| == 64 && i <= 8 && y < i && x < 8
    ensures RowsWritten(cells, i)[y * 8 + x] == EmptySquare(y, x)
  {
    var before := RowsWritten(cells, i - 1);
    assert RowsWritten(cells, i) == RowWrites(before, i - 1, 8);
    if y == i - 1 {
      RowWritesInside(before, y, 8, x);
    } else {
      RowWritesOutside(before, i - 1, 8, y * 8 + x);
      RowsWrittenAt(cells, i - 1, y, x);
    }
  }

  /** The two loops of `Board::new`, run over any 64 cells, give the fresh
      board. */
  lemma FreshRows(cells: seq<Square>)
    requires |cells| == 64
    ensures RowsWritten(cells, 8) == FreshBoard()
  {
    forall y, x | 0 <= y < 8 && 0 <= x < 8
      ensures RowsWritten(cells, 8)[y * 8 + x] == EmptySquare(y, x)
    {
      RowsWrittenAt(cells, 8, y, x);
    }
    RowsMakeFreshBoard(RowsWritten(cells, 8));
  }

  /** The back rank from column 0 to 7. */
  function BackRank(x: nat): PieceType
    requires x < 8
  {
    [Rook, Knight, Bishop, Queen, King, Bishop, Knight, Rook][x]
  }

  /** The piece `init` writes at row `y`, column `x`, if any: White's back
      rank on row 0 and pawns on row 1, Black's pawns on row 6 and back rank
      on row 7. */
  function StartingPiece(y: nat, x: nat): Option<Piece>
    requires x < 8
  {
    if y == 0 then Some(From(BackRank(x), White))
    else if y == 1 then Some(From(Pawn, White))
    else if y == 6 then Some(From(Pawn, Black))
    else if y == 7 then Some(From(BackRank(x), Black))
    else None
  }

  /** A square after `init` wrote `p` to it, if it wrote anything. */
  function Placed(sq: Square, p: Option<Piece>): Square
  {
    if p.Some? then sq.SetPiece(p.value) else sq
  }

  /** The board after `init`: every written cell gets its starting piece,
      every other cell is left as it was. */
  function InitLayout(cells: seq<Square>): (after: seq<Square>)
    requires |cells| == 64
    ensures |after| == 64
  {
    seq(64, k requires 0 <= k < 64 => Placed(cells[k], StartingPiece(k / 8, k % 8)))
  }

  /** The board after moving the piece of cell `si` to cell `ei`: first the
      end cell receives the piece, then the start cell is emptied, so with
      `si == ei` the piece disappears. */
  function Relocate(cells: seq<Square>, si: nat, ei: nat): (after: seq<Square>)
    requires si < |cells| && ei < |cells| && cells[si].piece.Some?
    ensures |after| == |cells|
  {
    var written := cells[ei := cells[ei].SetPiece(cells[si].piece.value)];
    written[si := written[si].RemovePiece()]
  }

  /** The cell `r#move` uses for a coordinate text: the text is parsed, then
      looked up with the low nibble as row and the high nibble as column. */
  function CellOf(text: string): Outcome<nat>
  {
    match Square.StringToU8(text)
    case Panicked(reason) => Panicked(reason)
    case Returned(b) => Board.GetIndex(Lo(b), Hi(b))
  }

  /** `r#move` on a board given as its cells: the outcome and the cells
      afterwards. Both texts are parsed first, then the start cell is looked
      up and must hold a piece, then the end cell is looked up. */
  function MoveSpec(cells: seq<Square>, start: string, end: string): (res: (Outcome<MoveResult>, seq<Square>))
    requires |cells| == 64
    ensures |res.1| == 64
  {
    match Square.StringToU8(start)
    case Panicked(reason) => (Panicked(reason), cells)
    case Returned(_) =>
      match Square.StringToU8(end)
      case Panicked(reason) => (Panicked(reason), cells)
      case Returned(_) =>
        match CellOf(start)
        case Panicked(reason) => (Panicked(reason), cells)
        case Returned(si) =>
          if cells[si].piece.None? then (Returned(Err(NoPieceAtStart)), cells)
          else
            match CellOf(end)
            case Panicked(reason) => (Panicked(reason), cells)
            case Returned(ei) => (Returned(Ok), Relocate(cells, si, ei))
  }

  /** The cells after writing `p` at row `y`, column `x`. */
  function WriteAt(cells: seq<Square>, y: nat, x: nat, p: Piece): (after: seq<Square>)
    requires |cells| == 64 && y <= 7 && x <= 7
    ensures |after| == 64
  {
    cells[y * 8 + x := cells[y * 8 + x].SetPiece(p)]
  }

  /** The cells after `init`'s pawn loop. */
  function PawnRows(cells: seq<Square>): (after: seq<Square>)
    requires |cells| == 64
    ensures |after| == 64
  {
    seq(64, k requires 0 <= k < 64 =>
      if k / 8 == 1 || k / 8 == 6 then Placed(cells[k], StartingPiece(k / 8, k % 8)) else cells[k])
  }

  /** `init`'s writes of the back-rank pieces of kind `t`, in its order:
      White's before Black's, the lower column first. */
  function KindWrites(cells: seq<Square>, t: PieceType): (after: seq<Square>)
    requires |cells| == 64 && t != Pawn
    ensures |after| == 64
  {
    match t
    case Rook =>
      WriteAt(WriteAt(WriteAt(WriteAt(cells,
        0, 0, From(Rook, White)), 0, 7, From(Rook, White)), 7, 0, From(Rook, Black)), 7, 7, From(Rook, Black))
    case Knight =>
      WriteAt(WriteAt(WriteAt(WriteAt(cells,
        0, 1, From(Knight, White)), 0, 6, From(Knight, White)), 7, 1, From(Knight, Black)), 7, 6, From(Knight, Black))
    case Bishop =>
      WriteAt(WriteAt(WriteAt(WriteAt(cells,
        0, 2, From(Bishop, White)), 0, 5, From(Bishop, White)), 7, 2, From(Bishop, Black)), 7, 5, From(Bishop, Black))
    case Queen => WriteAt(WriteAt(cells, 0, 3, From(Queen, White)), 7, 3, From(Queen, Black))
    case King => WriteAt(WriteAt(cells, 0, 4, From(King, White)), 7, 4, From(King, Black))
  }

  /** The sixteen back-rank writes of `init`, in its order: rooks, knights,
      bishops, queens, kings. */
  function BackRankWrites(cells: seq<Square>): (after: seq<Square>)
    requires |cells| == 64
    ensures |after| == 64
  {
    KindWrites(KindWrites(KindWrites(KindWrites(KindWrites(cells, Rook), Knight), Bishop), Queen), King)
  }

  /** The writes of kind `t` give each column of the back rank that holds a
      `t` its White piece on row 0 and its Black piece on row 7, and touch
      nothing else. */
  lemma KindWritesAt(cells: seq<Square>, t: PieceType, k: nat)
    requires |cells| == 64 && t != Pawn && k < 64
    ensures KindWrites(cells, t)[k] ==
      if k < 8 && BackRank(k) == t then cells[k].SetPiece(From(t, White))
      else if 56 <= k && BackRank(k - 56) == t then cells[k].SetPiece(From(t, Black))
      else cells[k]
  {
    match t
    case Rook =>
    case Knight =>
    case Bishop =>
    case Queen =>
    case King =>
  }

  /** The pawn loop followed by the sixteen back-rank writes is the opening
      layout: each of the 32 written cells is written once. */
  lemma BackRankWritesComplete(cells: seq<Square>)
    requires |cells| == 64
    ensures BackRankWrites(PawnRows(cells)) == InitLayout(cells)
  {
    var pawns := PawnRows(cells);
    forall k | 0 <= k < 64
      ensures BackRankWrites(pawns)[k] == InitLayout(cells)[k]
    {
      var rooks := KindWrites(pawns, Rook);
      var knights := KindWrites(rooks, Knight);
      var bishops := KindWrites(knights, Bishop);
      var queens := KindWrites(bishops, Queen);
      KindWritesAt(pawns, Rook, k);
      KindWritesAt(rooks, Knight, k);
      KindWritesAt(knights, Bishop, k);
      KindWritesAt(bishops, Queen, k);
      KindWritesAt(queens, King, k);
    }
  }

  /** `Board`: 64 squares in one array, cell `y * 8 + x` for row `y` and
      column `x`. */
  class Board {
    var cells: array<Square>

    ghost predicate Valid()
      reads this
    {
      cells.Length == 64
    }

    /** `Board::new`: every cell holds the empty square of its own row and
        column. */
    constructor ()
      ensures Valid() && fresh(cells)
      ensures cells[..] == FreshBoard()
    {
      var a := new Square[64](_ => Square(0, None));
      ghost var filler := a[..];
      var i: nat := 0;
      while i < 8
        invariant i <= 8
        invariant a[..] == RowsWritten(filler, i)
      {
        FillRow(a, i);
        i := i + 1;
      }
      cells := a;
      FreshRows(filler);
    }

    /** The inner loop of `Board::new`: row `y` gets `Square::from(y, x)`
        in each column `x`, found with `get_index(y, x)`. */
    static method FillRow(a: array<Square>, y: nat)
      requires a.Length == 64 && y <= 7
      modifies a
      ensures a[..] == RowWrites(old(a[..]), y, 8)
    {
      var j: nat := 0;
      while j < 8
        invariant j <= 8
        invariant a[..] == RowWrites(old(a[..]), y, j)
      {
        FreshCellIsFrom(y, j);
        var index := GetIndex(y, j).value;
        a[index] := Square.From(y, j).value;
        j := j + 1;
      }
    }

    /** `Board::get_index(y, x)`: the cell `y * 8 + x`, with a panic when that
        is 64 or more (or overflows a `u8`). Only the sum is checked, so a
        column of 8 or more reaches into the following rows. */
    static function GetIndex(y: u8, x: u8): (r: Outcome<nat>)
      ensures r.Returned? <==> y * 8 + x < 64
      ensures r.Returned? ==>
                && r.value == y * 8 + x
                && r.value < 64
                && (x <= 7 ==> r.value / 8 == y && r.value % 8 == x)
    {
      var product := y * 8;
      if product > 255 || product + x > 255 then Panicked(ArithmeticOverflow)
      else if product + x >= 64 then Panicked(BoardIndexOutOfRange)
      else Returned(product + x)
    }

    /** `self.get_index(y, x).set_piece(p)` for a row and column of the
        board. */
    method SetPieceAt(y: nat, x: nat, p: Piece)
      requires Valid() && y <= 7 && x <= 7
      modifies cells
      ensures Valid()
      ensures cells[..] == WriteAt(old(cells[..]), y, x, p)
    {
      FreshCellIsFrom(y, x);
      var index := GetIndex(y, x).value;
      cells[index] := cells[index].SetPiece(p);
    }

    /** `init`: writes the 32 pieces of the opening position and leaves the
        other cells alone. The layout text is ignored. */
    method Init(state: string)
      requires Valid()
      modifies cells
      ensures Valid()
      ensures cells[..] == InitLayout(old(cells[..]))
    {
      PlacePawns();
      PlaceBackRanks();
      BackRankWritesComplete(old(cells[..]));
    }

    /** The pawn loop of `init`: White's pawns on row 1 and Black's on row
        6, column by column. */
    method PlacePawns()
      requires Valid()
      modifies cells
      ensures Valid()
      ensures cells[..] == PawnRows(old(cells[..]))
    {
      var i := 0;
      while i < 8
        invariant i <= 8
        invariant forall k :: 0 <= k < 64 ==>
                    cells[k] == if (k / 8 == 1 || k / 8 == 6) && k % 8 < i
                                then Placed(old(cells[k]), StartingPiece(k / 8, k % 8))
                                else old(cells[k])
      {
        SetPieceAt(1, i, From(Pawn, White));
        SetPieceAt(6, i, From(Pawn, Black));
        i := i + 1;
      }
    }

    /** The sixteen back-rank writes of `init`, in its order: rooks,
        knights, bishops, queens, kings. */
    method PlaceBackRanks()
      requires Valid()
      modifies cells
      ensures Valid()
      ensures cells[..] == BackRankWrites(old(cells[..]))
    {
      PlaceKind(Rook);
      PlaceKind(Knight);
      PlaceKind(Bishop);
      PlaceKind(Queen);
      PlaceKind(King);
    }

    /** `init`'s block of writes for the back-rank pieces of kind `t`. */
    method PlaceKind(t: PieceType)
      requires Valid() && t != Pawn
      modifies cells
      ensures Valid()
      ensures cells[..] == KindWrites(old(cells[..]), t)
    {
      match t
      case Rook =>
        SetPieceAt(0, 0, From(Rook, White));
        SetPieceAt(0, 7, From(Rook, White));
        SetPieceAt(7, 0, From(Rook, Black));
        SetPieceAt(7, 7, From(Rook, Black));
      case Knight =>
        SetPieceAt(0, 1, From(Knight, White));
        SetPieceAt(0, 6, From(Knight, White));
        SetPieceAt(7, 1, From(Knight, Black));
        SetPieceAt(7, 6, From(Knight, Black));
      case Bishop =>
        SetPieceAt(0, 2, From(Bishop, White));
        SetPieceAt(0, 5, From(Bishop, White));
        SetPieceAt(7, 2, From(Bishop, Black));
        SetPieceAt(7, 5, From(Bishop, Black));
      case Queen =>
        SetPieceAt(0, 3, From(Queen, White));
        SetPieceAt(7, 3, From(Queen, Black));
      case King =>
        SetPieceAt(0, 4, From(King, White));
        SetPieceAt(7, 4, From(King, Black));
    }

    /** `r#move(start, end)`: parses both texts, fails with "No piece at
        start" when the start cell is empty, and otherwise writes the piece
        to the end cell and empties the start cell. Legality is not checked. */
    method Move(start: string, end: string) returns (r: Outcome<MoveResult>)
      requires Valid()
      modifies cells
      ensures Valid()
      ensures (r, cells[..]) == MoveSpec(old(cells[..]), start, end)
    {
      var s := Square.StringToU8(start);
      if s.Panicked? {
        return Panicked(s.reason);
      }
      var e := Square.StringToU8(end);
      if e.Panicked? {
        return Panicked(e.reason);
      }
      var si := GetIndex(Lo(s.value), Hi(s.value));
      assert si == CellOf(start);
      if si.Panicked? {
        return Panicked(si.reason);
      }
      var piece := cells[si.value].GetPiece();
      if piece.None? {
        return Returned(Err(NoPieceAtStart));
      }
      var ei := GetIndex(Lo(e.value), Hi(e.value));
      assert ei == CellOf(end);
      if ei.Panicked? {
        return Panicked(ei.reason);
      }
      cells[ei.value] := cells[ei.value].SetPiece(piece.value);
      cells[si.value] := cells[si.value].RemovePiece();
      assert cells[..] == Relocate(old(cells[..]), si.value, ei.value);
      r := Returned(Ok);
    }

    /** `get_state`: a copy of the 64 squares. */
    method GetState() returns (state: seq<Square>)
      requires Valid()
      ensures |state| == 64 && forall k :: 0 <= k < 64 ==> state[k] == cells[k]
    {
      state := cells[..];
    }
  }

  // ---------------------------------------------------------------------
  // Counting pieces

  /** 1 for an occupied square, 0 for an empty one. */
  function Occupied(sq: Square): nat
  {
    if sq.piece.Some? then 1 else 0
  }

  /** The number of occupied squares. */
  function Occupancy(cells: seq<Square>): nat
  {
    if cells == [] then 0 else Occupancy(cells[..|cells| - 1]) + Occupied(cells[|cells| - 1])
  }

  lemma {:induction false} OccupancyConcat(a: seq<Square>, b: seq<Square>)
    ensures Occupancy(a + b) == Occupancy(a) + Occupancy(b)
  {
    if b == [] {
      assert a + b == a;
    } else {
      assert (a + b)[..|a + b| - 1] == a + b[..|b| - 1];
      OccupancyConcat(a, b[..|b| - 1]);
    }
  }

  /** Replacing one square changes the count by that square's difference. */
  lemma {:induction false} OccupancyUpdate(cells: seq<Square>, k: nat, sq: Square)
    requires k < |cells|
    ensures Occupancy(cells[k := sq]) == Occupancy(cells) - Occupied(cells[k]) + Occupied(sq)
  {
    var pre, post := cells[..k], cells[k + 1..];
    assert cells == pre + [cells[k]] + post;
    assert cells[k := sq] == pre + [sq] + post;
    OccupancyConcat(pre + [cells[k]], post);
    OccupancyConcat(pre, [cells[k]]);
    OccupancyConcat(pre + [sq], post);
    OccupancyConcat(pre, [sq]);
    assert [sq][..0] == [] && [cells[k]][..0] == [];
  }

  /** A run of occupied squares counts its length; a run of empty ones, 0. */
  lemma {:induction false} OccupancyUniform(cells: seq<Square>)
    ensures (forall k :: 0 <= k < |cells| ==> cells[k].piece.Some?) ==> Occupancy(cells) == |cells|
    ensures (forall k :: 0 <= k < |cells| ==> cells[k].piece.None?) ==> Occupancy(cells) == 0
  {
    if cells != [] {
      OccupancyUniform(cells[..|cells| - 1]);
    }
  }

  // ---------------------------------------------------------------------
  // Facts about the board

  /** `get_index` checks only the sum `y * 8 + x`, so a column of 8 or more
      spills into the following rows: `(y, x)` reaches the same cell as the
      row `y + x / 8`, column `x % 8`. */
  lemma GetIndexAliases(y: u8, x: u8)
    requires y * 8 + x < 64
    ensures Board.GetIndex(y, x) == Board.GetIndex(y + x / 8, x % 8) == Returned(y * 8 + x)
  {
    assert (y + x / 8) * 8 + x % 8 == y * 8 + x;
  }

  /** `init` on a fresh board: cell `y * 8 + x` keeps its coordinate and
      holds the starting piece of row `y`, column `x`. */
  lemma InitOnFreshBoard()
    ensures forall k :: 0 <= k < 64 ==>
              && InitLayout(FreshBoard())[k].coord == FreshCell(k).coord
              && InitLayout(FreshBoard())[k].piece == StartingPiece(k / 8, k % 8)
  {
    forall k | 0 <= k < 64
      ensures InitLayout(FreshBoard())[k].piece == StartingPiece(k / 8, k % 8)
    {
      FreshCellCoord(k);
    }
  }

  /** White's pawns fill row 1 and Black's row 6; White's back rank is row
      0 and Black's row 7, in the order of BackRank. */
  lemma InitRows(x: nat)
    requires x < 8
    ensures var b := InitLayout(FreshBoard());
            && b[8 + x].piece == Some(Piece(Pawn, White))
            && b[48 + x].piece == Some(Piece(Pawn, Black))
            && b[x].piece == Some(Piece(BackRank(x), White))
            && b[56 + x].piece == Some(Piece(BackRank(x), Black))
  {
    InitOnFreshBoard();
    assert (8 + x) / 8 == 1 && (48 + x) / 8 == 6 && x / 8 == 0 && (56 + x) / 8 == 7;
  }

  /** `init` on a fresh board occupies exactly rows 0, 1, 6 and 7. */
  lemma InitOccupiesOuterRows(k: nat)
    requires k < 64
    ensures InitLayout(FreshBoard())[k].piece.Some? <==> (k < 16 || 48 <= k)
  {
    FreshCellCoord(k);
    var y := k / 8;
    assert y <= 1 || y >= 6 <==> (k < 16 || 48 <= k);
  }

  /** A board whose outer two rows on each side are occupied and whose
      middle four rows are empty holds 32 pieces. */
  lemma OccupancyOuterRows(b: seq<Square>)
    requires |b| == 64
    requires forall k :: 0 <= k < 64 ==> (b[k].piece.Some? <==> (k < 16 || 48 <= k))
    ensures Occupancy(b) == 32
  {
    var white, middle, black := b[..16], b[16..48], b[48..];
    assert forall k :: 0 <= k < 16 ==> white[k] == b[k] && black[k] == b[48 + k];
    assert forall k :: 0 <= k < 32 ==> middle[k] == b[16 + k];
    OccupancyUniform(white);
    OccupancyUniform(middle);
    OccupancyUniform(black);
    assert b == white + middle + black;
    OccupancyConcat(white, middle);
    OccupancyConcat(white + middle, black);
  }

  /** `init` on a fresh board leaves rows 2 to 5 empty and occupies exactly
      32 squares. */
  lemma InitPlaces32()
    ensures forall k :: 16 <= k < 48 ==> InitLayout(FreshBoard())[k].piece == None
    ensures Occupancy(InitLayout(FreshBoard())) == 32
  {
    forall k | 0 <= k < 64
      ensures InitLayout(FreshBoard())[k].piece.Some? <==> (k < 16 || 48 <= k)
    {
      InitOccupiesOuterRows(k);
    }
    OccupancyOuterRows(InitLayout(FreshBoard()));
  }

  /** The back rank reads R N B Q K B N R from column 0. */
  lemma BackRankOrder()
    ensures BackRank(0) == Rook && BackRank(7) == Rook
    ensures BackRank(1) == Knight && BackRank(6) == Knight
    ensures BackRank(2) == Bishop && BackRank(5) == Bishop
    ensures BackRank(3) == Queen && BackRank(4) == King
  {
  }

  /** The cell `r#move` uses for a chess coordinate: row rank - 1, column
      file. Parsing puts the file in the high nibble and `r#move` reads the
      high nibble as the column, so the two orders cancel. */
  lemma CellOfChessCoord(text: string)
    requires IsChessCoord(text)
    ensures CellOf(text) == Returned(8 * (text[1] as int - '1' as int) + FileIndex(text[0]))
  {
    ParseThenPrint(text);
  }

  /** "i1" reaches the cell of "a2" through `get_index`'s column aliasing;
      "h9" names no cell and panics. */
  lemma CellOfAliases()
    ensures CellOf("i1") == CellOf("A2") == Returned(8)
    ensures CellOf("h9") == Panicked(BoardIndexOutOfRange)
  {
    ParseAdmitsFileI();
    CellOfChessCoord("A2");
    var r := Square.StringToU8("h9");
    assert IsParsableCoord("h9") && FileIndex('h') == 7;
    NibblesOf(r.value, 7, 8);
  }

  /** The text `get_coords_string` gives for a stored square names the
      transposed cell: the square of row y, column x prints with letter y
      and digit x + 1, which `r#move` reads as row x, column y. */
  lemma StoredCoordsAreTransposed(y: nat, x: nat)
    requires y <= 7 && x <= 7
    ensures CellOf(EmptySquare(y, x).GetCoordsString()) == Returned(8 * x + y)
  {
    EmptySquareCoord(y, x);
    var text := EmptySquare(y, x).GetCoordsString();
    assert FileIndex(text[0]) == y && text[1] as int - '1' as int == x;
    CellOfChessCoordAt(text, x, y);
  }

  /** `CellOfChessCoord` with the row and column named. */
  lemma CellOfChessCoordAt(text: string, row: nat, col: nat)
    requires IsChessCoord(text)
    requires text[1] as int - '1' as int == row && FileIndex(text[0]) == col
    ensures CellOf(text) == Returned(8 * row + col)
  {
    CellOfChessCoord(text);
  }

  /** `r#move` fails with "No piece at start" exactly when both texts
      parse, the start text names a cell, and that cell is empty; the board
      is then unchanged. */
  lemma MoveNoPieceAtStart(cells: seq<Square>, start: string, end: string)
    requires |cells| == 64
    ensures var res := MoveSpec(cells, start, end); var r := res.0; var after := res.1;
            && (r == Returned(Err(NoPieceAtStart)) <==>
                  && IsParsableCoord(end)
                  && CellOf(start).Returned?
                  && cells[CellOf(start).value].piece.None?)
            && (r == Returned(Err(NoPieceAtStart)) ==> after == cells)
  {
  }

  /** Whenever `r#move` does not return `Ok`, the board is unchanged. */
  lemma MoveFailureKeepsBoard(cells: seq<Square>, start: string, end: string)
    requires |cells| == 64
    ensures MoveSpec(cells, start, end).0 != Returned(Ok) ==> MoveSpec(cells, start, end).1 == cells
  {
  }

  /** `r#move` returns `Ok` exactly when both texts name cells and the start
      cell is occupied. Then the start cell is empty, the end cell holds the
      start's former piece unless it is the start cell itself, every other
      cell is unchanged and no coordinate changes. */
  lemma MoveRelocates(cells: seq<Square>, start: string, end: string)
    requires |cells| == 64
    ensures var res := MoveSpec(cells, start, end); var r := res.0; var after := res.1;
            && (r == Returned(Ok) <==>
                  CellOf(start).Returned? && CellOf(end).Returned?
                  && cells[CellOf(start).value].piece.Some?)
            && (r == Returned(Ok) ==>
                  var si := CellOf(start).value; var ei := CellOf(end).value;
                  && |after| == 64
                  && after[si].piece == None
                  && (ei != si ==> after[ei].piece == cells[si].piece)
                  && (forall k :: 0 <= k < 64 && k != si && k != ei ==> after[k] == cells[k])
                  && (forall k :: 0 <= k < 64 ==> after[k].coord == cells[k].coord))
  {
  }

  /** Moving a piece onto its own square erases it. */
  lemma MoveOntoItselfErases(cells: seq<Square>, text: string)
    requires |cells| == 64 && CellOf(text).Returned? && cells[CellOf(text).value].piece.Some?
    ensures var res := MoveSpec(cells, text, text); var r := res.0; var after := res.1;
            r == Returned(Ok) && after[CellOf(text).value].piece == None
            && Occupancy(after) == Occupancy(cells) - 1
  {
    var si := CellOf(text).value;
    var written := cells[si := cells[si].SetPiece(cells[si].piece.value)];
    OccupancyUpdate(cells, si, written[si]);
    OccupancyUpdate(written, si, written[si].RemovePiece());
  }

  /** Relocating keeps the number of pieces, or lowers it by one when the
      end cell was occupied or is the start cell. */
  lemma RelocateCount(cells: seq<Square>, si: nat, ei: nat)
    requires si < |cells| && ei < |cells| && cells[si].piece.Some?
    ensures Occupancy(Relocate(cells, si, ei)) ==
              Occupancy(cells) - (if si == ei || cells[ei].piece.Some? then 1 else 0)
  {
    var written := cells[ei := cells[ei].SetPiece(cells[si].piece.value)];
    OccupancyUpdate(cells, ei, written[ei]);
    OccupancyUpdate(written, si, written[si].RemovePiece());
  }

  /** Nothing checks the colour on the end square: a successful move keeps
      the number of pieces, or removes one when the end square was occupied
      (by either side) or is the start square itself. */
  lemma MovePieceCount(cells: seq<Square>, start: string, end: string)
    requires |cells| == 64
    requires MoveSpec(cells, start, end).0 == Returned(Ok)
    ensures var si := CellOf(start).value; var ei := CellOf(end).value;
            Occupancy(MoveSpec(cells, start, end).1) ==
              Occupancy(cells) - (if si == ei || cells[ei].piece.Some? then 1 else 0)
  {
    MoveSpecOk(cells, start, end);
    RelocateCount(cells, CellOf(start).value, CellOf(end).value);
  }

  /** A move that returns `Ok` found both cells and an occupied start, and
      relocated the start piece. */
  lemma MoveSpecOk(cells: seq<Square>, start: string, end: string)
    requires |cells| == 64 && MoveSpec(cells, start, end).0 == Returned(Ok)
    ensures CellOf(start).Returned? && CellOf(end).Returned?
    ensures cells[CellOf(start).value].piece.Some?
    ensures MoveSpec(cells, start, end).1 == Relocate(cells, CellOf(start).value, CellOf(end).value)
  {
  }

  /** On any board with a White pawn on a2, nothing on a3 and a4, and
      nothing on e4: "A2"->"A3" then "A3"->"A4" both succeed and leave the
      pawn on a4, while "E4"->"E5" fails. The five texts are parameters
      fixed by the precondition rather than literals in the statement: the
      verifier then parses each text once, which keeps the proof small.
      `OpeningPawnPushes` states the same facts with the literals. */
  lemma PawnPushes(b0: seq<Square>, a2: string, a3: string, a4: string, e4: string, e5: string)
    requires |b0| == 64
    requires b0[8].piece == Some(Piece(Pawn, White))
    requires b0[16].piece == None && b0[24].piece == None && b0[28].piece == None
    requires a2 == "A2" && a3 == "A3" && a4 == "A4" && e4 == "E4" && e5 == "E5"
    ensures var first := MoveSpec(b0, a2, a3);
            var second := MoveSpec(first.1, a3, a4);
            var r1, b1, r2, b2 := first.0, first.1, second.0, second.1;
            && r1 == Returned(Ok) && r2 == Returned(Ok)
            && b2[8].piece == None && b2[16].piece == None
            && b2[24].piece == Some(Piece(Pawn, White))
            && MoveSpec(b0, e4, e5).0 == Returned(Err(NoPieceAtStart))
  {
    CellOfChessCoord(a2);
    CellOfChessCoord(a3);
    CellOfChessCoord(a4);
    CellOfChessCoord(e4);
    CellOfChessCoord(e5);
    MoveRelocates(b0, a2, a3);
    var b1 := MoveSpec(b0, a2, a3).1;
    MoveRelocates(b1, a3, a4);
    MoveNoPieceAtStart(b0, e4, e5);
  }

  /** From the opening position, White's a-pawn moves two squares in two
      moves, and a move from the empty e4 fails. */
  lemma OpeningPawnPushes()
    ensures var b0 := InitLayout(FreshBoard());
            var first := MoveSpec(b0, "A2", "A3");
            var second := MoveSpec(first.1, "A3", "A4");
            var r1, b1, r2, b2 := first.0, first.1, second.0, second.1;
            && r1 == Returned(Ok) && r2 == Returned(Ok)
            && b2[8].piece == None && b2[16].piece == None
            && b2[24].piece == Some(Piece(Pawn, White))
            && MoveSpec(b0, "E4", "E5").0 == Returned(Err(NoPieceAtStart))
  {
    InitRows(0);
    InitPlaces32();
    PawnPushes(InitLayout(FreshBoard()), "A2", "A3", "A4", "E4", "E5");
  }
}
