/**
 * The fixed-width integers of the standings code. Rust's `u8` and `i32`
 * panic on overflow in debug builds; here every operation on them is
 * checked against the range, so an overflow becomes a precondition.
 */
module Ints {

  /** Rust's `u8`: games, wins, draws, defeats and points. */
  newtype u8 = x: int | 0 <= x < 0x100

  /** Rust's `i32`: goals scored, goals conceded and goal difference. */
  newtype i32 = x: int | -0x8000_0000 <= x < 0x8000_0000

  predicate InI32(x: int) { -0x8000_0000 <= x < 0x8000_0000 }
}
