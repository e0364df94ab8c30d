/** The sizes of the machine words that counters wrap at. */
module Words {
  const WORD32: nat := 0x1_0000_0000
  const WORD64: nat := 0x1_0000_0000_0000_0000
}
