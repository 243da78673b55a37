/// The few Rust library shapes the board and piece code relies on: `Option`,
/// the distinction between returning normally and panicking, and the ASCII
/// case conversions of `char`.
module Prelude {

  /** Rust's `Option<T>`. */
  datatype Option<+T> = None | Some(value: T)

  /** Why a call panicked. A panic is not an error value the caller can
      inspect: it ends the process. The model keeps it as a distinct outcome
      so that every input has a defined result. */
  datatype Panic =
    | SquareIndexOutOfRange   // `Square::from` with a coordinate above 7
    | CoordLength             // `string_to_u8` on a string that is not 2 bytes long
    | CoordLetter             // `string_to_u8` whose first character is not 'a'..'i'
    | CoordMissingChar        // `string_to_u8` on a single two-byte character
    | CoordDigit              // `string_to_u8` whose second character is not a decimal digit
    | ArithmeticOverflow      // a checked `u8` operation that overflows (debug profile)
    | BoardIndexOutOfRange    // `Board::get_index` with `y * 8 + x >= 64`

  /** The result of a Rust call that may panic. */
  datatype Outcome<+T> = Returned(value: T) | Panicked(reason: Panic)

  predicate IsAsciiUpper(c: char) { 'A' <= c <= 'Z' }

  predicate IsAsciiLower(c: char) { 'a' <= c <= 'z' }

  /** Rust's `char::to_ascii_uppercase`: only 'a'..'z' change. */
  function ToAsciiUppercase(c: char): (u: char)
    ensures IsAsciiLower(c) ==> IsAsciiUpper(u) && u as int == c as int - 32
    ensures !IsAsciiLower(c) ==> u == c
  {
    if IsAsciiLower(c) then (c as int - 32) as char else c
  }

  /** Rust's `char::to_ascii_lowercase`: only 'A'..'Z' change. */
  function ToAsciiLowercase(c: char): (l: char)
    ensures IsAsciiUpper(c) ==> IsAsciiLower(l) && l as int == c as int + 32
    ensures !IsAsciiUpper(c) ==> l == c
  {
    if IsAsciiUpper(c) then (c as int + 32) as char else c
  }
}
