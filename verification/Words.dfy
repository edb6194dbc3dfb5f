/** The integer widths the program's values have. */
module Words {
  const U64_MAX: nat := 0xFFFF_FFFF_FFFF_FFFF
  type U64 = n: int | 0 <= n <= U64_MAX

  predicate IsI64(n: int) {
    -0x8000_0000_0000_0000 <= n < 0x8000_0000_0000_0000
  }
}
