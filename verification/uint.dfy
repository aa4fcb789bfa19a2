/** Fixed-width unsigned integers of the C++ sources. */
module Uint {

  const U64_LIMIT: int := 0x1_0000_0000_0000_0000

  /** std::uint64_t */
  type U64 = x: int | 0 <= x < U64_LIMIT
}
