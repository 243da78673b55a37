# RSChess board and pieces, modelled in Dafny

This project models the board core of RSChess, a small chess program in Rust:

- the `Square` of `src/board.rs`, which packs two 0–7 indices into one byte (one per nibble) and may hold a piece;
- the square's tint, its text coordinate (`get_coords_string`) and the parser of text coordinates (`string_to_u8`);
- the `Board`, a flat array of 64 squares indexed `y * 8 + x`, with `new`, `get_index`, `init`, `r#move` and `get_state`;
- the `Piece` of `src/pieces.rs`, with its display letter and the five constant offset tables.

Files:

- `prelude.dfy` (module `Prelude`) holds Rust's `Option`, the `Outcome` of a call that may panic, and the ASCII case conversions of `char`.
- `pieces.dfy` (module `Pieces`) models `src/pieces.rs`, and also `Color`: Rust declares `Color` in `board.rs`, but Dafny modules may not import each other in a cycle.
- `board.dfy` (module `Board`) models `src/board.rs`.

How the model is built:

- A square is a value, as in Rust, where `Square` is `Copy`. The pure parts (`Square::from`, `get_color`, `get_char`, `get_coords_string`, `string_to_u8`, `get_index`) are functions.
- The board is a class over an `array<Square>` of length 64. `new`, `init` and `r#move` are methods that write cells in place. Each method is proved against a specification function on the sequence of cells: `FreshBoard`, `InitLayout` and `MoveSpec`. The lemmas state what those functions mean.
- Rust's `u8` is a number in 0..255 and its `i8` a newtype. The shifts and masks on the coordinate byte are written out as arithmetic: `<< 4` is a multiplication by 16 modulo 256, `>> 4` a division by 16, `& 0x0F` a remainder modulo 16. The model follows a debug build: `+`, `-` and `*` on `u8` panic on overflow, while `<<` drops the shifted-out bits.
- A panic is the outcome `Panicked(reason)`, not a precondition, so every input has a defined result.

Behaviour of the code that the model keeps:

- **Nibble order.** `Board::new` stores row `y` in the high nibble and column `x` in the low one. `string_to_u8` returns the file in the high nibble and the rank minus one in the low one. `r#move` looks up `get_index(low, high)`, so for a chess coordinate the two orders cancel: "e2" names row 1, column 4 (`CellOfChessCoord`). `get_coords_string` applied to a stored square therefore names the transposed cell (`StoredCoordsAreTransposed`). Nothing calls it.
- **The letter check admits 'i'.** The check in `string_to_u8` rejects only values above 8. So "i1" parses to 0x80, and `r#move` then reaches cell 8, the cell of "a2", because `get_index` checks only the sum `y * 8 + x`.
- **Any decimal digit is accepted.** '9' gives low nibble 8. '0' borrows from the file ("b0" gives 0x0F). "a0" panics in the final `- 1`.
- **Lower case works through `u8` arithmetic.** Lower case is accepted because the shift by 4 discards the extra 32 that a lower-case letter carries after `- b'A'`.
- **`r#move` has no legality check.** A piece may land on any piece of either side. A move onto its own square erases the piece. The offset tables are never read.

## Model

| member | source | states |
|---|---|---|
| `Pieces.From` | src/pieces.rs:35-37 | the piece built has exactly the given type and colour |
| `Pieces.GetChar` | src/pieces.rs:39-53 | the glyph is one of "PRNBQKprnbqk"; it is upper case exactly for White and lower case exactly for Black |
| `Pieces.GlyphTable` | src/pieces.rs:39-53 | Pawn, Rook, Knight, Bishop, Queen and King show 'p', 'r', 'n', 'b', 'q', 'k' for Black and 'P', 'R', 'N', 'B', 'Q', 'K' for White; every White glyph is the Black one shifted to upper case |
| `Pieces.LetterInjective` | src/pieces.rs:40-47 | the six piece types get six different letters |
| `Pieces.GetCharInjective` | src/pieces.rs:39-53 | the twelve (type, colour) pairs get twelve different glyphs, so a glyph determines its piece |
| `Pieces.PawnOffsetsExact` | src/pieces.rs:57-62 | the pawn table has 4 distinct entries; each has first component ±1 and second 1 or 2, and all four such vectors occur |
| `Pieces.RookTableIsRays` | src/pieces.rs:64-69 | entry i of the rook table is direction i / 7 at distance i % 7 + 1 |
| `Pieces.RookOffsetsExact` | src/pieces.rs:64-69 | the 28 rook entries are pairwise distinct; each has exactly one zero component and the other of magnitude 1..7; every such vector occurs |
| `Pieces.KnightOffsetsExact` | src/pieces.rs:71-76 | the 8 knight entries are distinct; each has magnitudes {1, 2}; every such vector occurs |
| `Pieces.BishopTableIsRays` | src/pieces.rs:78-83 | entry i of the bishop table is diagonal i / 7 at distance i % 7 + 1 |
| `Pieces.BishopOffsetsExact` | src/pieces.rs:78-83 | the 28 bishop entries are distinct; each has equal magnitudes in 1..7; every magnitude occurs with all four sign combinations |
| `Pieces.QueenOffsetsAreRookThenBishop` | src/pieces.rs:85-94 | the queen table equals the rook table followed by the bishop table, element for element |
| `Pieces.QueenRookHalf` | src/pieces.rs:85-94 | the queen table has 56 entries and its first 28 are the rook table |
| `Pieces.QueenBishopHalf` | src/pieces.rs:85-94 | the last 28 entries of the queen table are the bishop table |
| `Pieces.QueenOffsetsExact` | src/pieces.rs:85-94 | the 56 queen entries are distinct and are exactly the orthogonal and diagonal vectors of magnitude 1..7 |
| `Board.Square.From` | src/board.rs:29-38 | panics exactly when y > 7 or x > 7; otherwise the high nibble is y, the low nibble is x, and there is no piece |
| `Board.DecimalString` | src/board.rs:42 | the text is a nonempty string of decimal digits, without a leading zero, whose value is the number; it has one character exactly for numbers below 10 |
| `Board.Square.GetCoordsString` | src/board.rs:41-43 | the letter is 'A' plus the high nibble; a low nibble up to 8 gives one digit, the low nibble plus one; a low nibble of 9 or more gives "1" followed by the digit of the low nibble minus 9; for a board coordinate the text is a chess coordinate |
| `Board.Square.GetColor` | src/board.rs:45-51 | the tint is Black exactly when the sum of the two nibbles is even |
| `Board.CornerIsBlack` | src/board.rs:45-51 | byte 0x00, the square "a1", is Black (dark), with or without a piece |
| `Board.TintsDiffer` | src/board.rs:45-51 | two bytes whose nibble sums differ in parity have different tints |
| `Board.LowNeighboursDifferInTint` | src/board.rs:45-51 | bytes one apart in the low nibble (the next column) have different tints |
| `Board.HighNeighboursDifferInTint` | src/board.rs:45-51 | bytes one apart in the high nibble (the next row) have different tints |
| `Board.OccupantUpdates` | src/board.rs:53-63 | `set_piece` and `remove_piece` change only the occupant and `get_piece` reads it back; the last write wins; the displayed character follows the occupant |
| `Board.Square.GetChar` | src/board.rs:65-73 | an occupied square shows its piece's glyph; the character is '#' or ' ' exactly when the square is empty, '#' for a Black tint |
| `Board.GetCharIdentifies` | src/board.rs:65-73 | two squares show the same character exactly when they hold the same piece, or are both empty with the same tint |
| `Board.Square.StringToU8` | src/board.rs:77-92 | returns exactly for two-character texts of a letter 'a'..'i' (either case) and a decimal digit, except "a0" and "A0"; the byte is 16 × file + digit − 1 |
| `Board.CoordsRoundTrip` | src/board.rs:77-92 | for every byte whose nibbles are both 0..7, parsing `get_coords_string`'s text gives the byte back, in upper or lower case |
| `Board.ParseThenPrint` | src/board.rs:77-92 | a chess coordinate parses to a board coordinate, with the file in the high nibble and the rank − 1 in the low one; printing it gives the text upper-cased |
| `Board.ParseAdmitsFileI` | src/board.rs:85-87 | "i1" passes the letter check and gives high nibble 8 (0x80) |
| `Board.ParseAdmitsRank9` | src/board.rs:89-91 | "A9" gives low nibble 8 (0x08) |
| `Board.ParseRank0Borrows` | src/board.rs:91 | "b0" gives 0x0F, which `get_coords_string` prints as "A16" |
| `Board.ParseA0Underflows` | src/board.rs:91 | "a0" passes the checks and panics in the final subtraction |
| `Board.ParseRejectsFileJ` | src/board.rs:85-87 | "j1" panics in the letter check |
| `Board.ParseRejectsLength` | src/board.rs:78-80 | a three-character text panics in the length check |
| `Board.Board.constructor` | src/board.rs:99-109 | the new board's cells are `FreshBoard()`: cell k is `Square::from(k / 8, k % 8)` |
| `Board.Board.FillRow` | src/board.rs:103-105 | the inner loop leaves the cells as `RowWrites` of the old cells: columns 0..7 of row y written, in order, with `Square::from(y, x)` found through `get_index(y, x)` |
| `Board.RowWritesInside` | src/board.rs:103-105 | after the inner loop has written j columns of row y, each of those columns x holds the empty square of row y, column x |
| `Board.RowWritesOutside` | src/board.rs:103-105 | the inner loop for row y leaves every cell outside row y as it was |
| `Board.RowsWrittenAt` | src/board.rs:102-106 | after the outer loop has filled i rows, every cell of those rows holds the empty square of its own row and column |
| `Board.FreshRows` | src/board.rs:102-106 | the two loops, run over any 64 cells, give the fresh board |
| `Board.RowsMakeFreshBoard` | src/board.rs:102-106 | 64 cells that each hold the empty square of their own row and column are the fresh board |
| `Board.FreshCellIsFrom` | src/board.rs:102-106 | for y, x in 0..7, `Square::from(y, x)` returns the empty square with y in the high nibble and x in the low one; that square is cell y * 8 + x of a fresh board, and `get_index(y, x)` finds that cell |
| `Board.EmptySquareCoord` | src/board.rs:29-51 | the square `Square::from(y, x)` builds for y, x in 0..7 is a board coordinate with nibbles y and x, and is Black exactly when y + x is even |
| `Board.FreshCellCoord` | src/board.rs:99-109 | cell k of a fresh board holds row k / 8 in the high nibble and column k % 8 in the low one, and no piece; it is Black exactly when row plus column is even, so a1 is dark |
| `Board.Board.GetIndex` | src/board.rs:111-132 | panics exactly when y * 8 + x >= 64; otherwise gives cell y * 8 + x, which is below 64 and is row y, column x whenever x <= 7 |
| `Board.GetIndexAliases` | src/board.rs:126-129 | whenever y * 8 + x < 64, (y, x) gives the same cell as (y + x / 8, x % 8): a column of 8 or more spills into the following rows |
| `Board.Board.SetPieceAt` | src/board.rs:139-141 | `get_index(y, x).set_piece(p)` puts p in cell y * 8 + x and changes no other cell |
| `Board.Board.Init` | src/board.rs:135-169 | the cells become `InitLayout` of the old cells: every written cell gets its starting piece and every other cell is kept |
| `Board.Board.PlacePawns` | src/board.rs:137-142 | the pawn loop puts a White pawn in every cell of row 1 and a Black pawn in every cell of row 6, and keeps every other cell |
| `Board.Board.PlaceBackRanks` | src/board.rs:144-168 | the sixteen back-rank writes leave the cells as rooks, knights, bishops, queens and kings written in that order |
| `Board.Board.PlaceKind` | src/board.rs:144-168 | the writes for one kind of piece change exactly the cells `KindWrites` names for it |
| `Board.KindWritesAt` | src/board.rs:144-168 | the writes for one kind put its White piece in each row-0 column whose back-rank piece is that kind, its Black piece in the same columns of row 7, and leave every other cell as it was |
| `Board.BackRankWritesComplete` | src/board.rs:144-168 | the pawn loop followed by the sixteen back-rank writes, in source order, gives exactly the opening layout |
| `Board.BackRankOrder` | src/board.rs:144-168 | the back rank reads Rook, Knight, Bishop, Queen, King, Bishop, Knight, Rook from column 0 |
| `Board.InitOnFreshBoard` | src/board.rs:135-169 | on a fresh board, every cell keeps its coordinate and holds the starting piece of its row and column |
| `Board.InitRows` | src/board.rs:137-168 | on a fresh board, White pawns fill row 1, Black pawns fill row 6, White's back rank is on row 0 and Black's on row 7 |
| `Board.InitOccupiesOuterRows` | src/board.rs:135-169 | on a fresh board, `init` leaves cell k occupied exactly when k is in rows 0, 1, 6 or 7 |
| `Board.OccupancyOuterRows` | src/board.rs:135-169 | any 64 cells occupied exactly in the outer two rows on each side hold 32 pieces |
| `Board.InitPlaces32` | src/board.rs:135-169 | on a fresh board, rows 2 to 5 stay empty and exactly 32 squares are occupied |
| `Board.Board.Move` | src/board.rs:171-183 | the outcome and the new cells are `MoveSpec` of the old cells and the two texts |
| `Board.CellOfChessCoord` | src/board.rs:172-179 | the cell `r#move` uses for a chess coordinate is row rank − 1, column file |
| `Board.CellOfAliases` | src/board.rs:126-129 | "i1" reaches the cell of "a2"; "h9" names no cell and panics |
| `Board.StoredCoordsAreTransposed` | src/board.rs:41-43 | the text printed for the square stored at row y, column x names cell 8 * x + y, that is row x, column y, when given to `r#move` |
| `Board.MoveNoPieceAtStart` | src/board.rs:179 | the result is `Err("No piece at start")` exactly when both texts parse, the start names a cell and that cell is empty; the board is then unchanged |
| `Board.MoveFailureKeepsBoard` | src/board.rs:171-183 | every outcome other than `Ok` leaves the board unchanged |
| `Board.MoveRelocates` | src/board.rs:179-182 | the result is `Ok` exactly when both texts name cells and the start is occupied; then the start is empty, the end holds the former start piece unless end = start, and every other cell and every coordinate is unchanged |
| `Board.MoveOntoItselfErases` | src/board.rs:180-181 | moving a piece onto its own square succeeds and erases the piece, leaving one fewer piece on the board |
| `Board.RelocateCount` | src/board.rs:180-181 | writing the start piece to the end cell and then emptying the start cell keeps the piece count, or lowers it by one when the end was occupied or is the start |
| `Board.MoveSpecOk` | src/board.rs:176-182 | a move that returns `Ok` found both cells and an occupied start cell, and its new cells are the start piece relocated to the end cell |
| `Board.MovePieceCount` | src/board.rs:176-182 | a successful move keeps the piece count, or lowers it by one when the end square was occupied by either side or is the start |
| `Board.PawnPushes` | src/board.rs:171-183 | on any board with a White pawn on a2 and a3, a4, e4 empty, "A2"→"A3" then "A3"→"A4" both succeed and leave the pawn on a4 with a2 and a3 empty, and "E4"→"E5" fails with "No piece at start" |
| `Board.OpeningPawnPushes` | src/board.rs:135-183 | from the opening position "A2"→"A3" then "A3"→"A4" both succeed and leave the White pawn on cell 24 with cells 8 and 16 empty; "E4"→"E5" fails with "No piece at start" |
| `Board.Board.GetState` | src/board.rs:185-187 | returns the 64 squares of the board, in order |

## Left out

- The `Display` implementations of `Color` and `Board` (src/board.rs:12-19, 190-203) and the two `println!` calls in `r#move`. They only produce output.
- `Square::new` (src/board.rs:25-27). It only pre-fills the array before `Board::new` overwrites every cell, and the model writes that filler inline as `Square(0, None)`.
- `get_index` returns a `&mut Square` that the caller writes through. The model returns the cell number, and the caller writes that cell of the array.
- The model follows a debug build of the Rust code. A release build wraps around instead of panicking on `u8` overflow. For example, "a0" would then parse to 0xFF, and a `get_index` argument whose product overflows could reach a low cell.
- Text length and `char as u8` are modelled on Unicode scalar values: the length in UTF-8 bytes, and the low byte of the code point. A two-byte string made of one non-ASCII character always panics, as in Rust.
- src/main.rs, src/pieces/mod.rs and js/index.js are not part of this model. They are a stale driver, a trait with no implementation, and a console script.
- Move generation, legality checks, en passant, check detection, castling and promotion are not modelled, because the code modelled here has none of them.
