/** The widths of the program's unsigned integers. */
module Widths {
  const U32: nat := 0x1_0000_0000
  const U64: nat := 0x1_0000_0000_0000_0000

  type Uint32 = n: nat | n < U32

  lemma Powers()
    ensures U32 == 4294967296 && U64 == 18446744073709551616
  {}
}
