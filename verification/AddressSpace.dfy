/** The guest's 32-bit address space. */
module AddressSpace {
  const ADDRESSES := 0x1_0000_0000

  type Address = a: int | 0 <= a < ADDRESSES
}
