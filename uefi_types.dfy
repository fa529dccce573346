/** The fixed-width integer types of UEFI (section 2.3.1 of the UEFI
    Specification 2.10), as the ranges of their values. UINTN is 64 bits
    wide on the AArch64 boards modelled here. */
module UefiTypes {
  type UInt8 = x: int | 0 <= x < 0x100
  type UInt32 = x: int | 0 <= x < 0x1_0000_0000
  type UInt64 = x: int | 0 <= x < 0x1_0000_0000_0000_0000
  type UIntN = x: int | 0 <= x < 0x1_0000_0000_0000_0000
}
