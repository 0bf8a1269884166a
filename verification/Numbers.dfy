/** Integer widths, and the smaller and the larger of two numbers. */
module Numbers {
  const U8_MAX: nat := 0xff
  const U16_MAX: nat := 0xffff
  const I32_MAX: nat := 0x7fff_ffff
  const U32_MAX: nat := 0xffff_ffff
  const U64_MAX: nat := 0xffff_ffff_ffff_ffff

  function Min(a: nat, b: nat): nat { if a < b then a else b }

  function Max(a: nat, b: nat): nat { if a < b then b else a }
}
