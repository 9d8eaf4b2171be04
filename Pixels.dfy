/**
 * Packed pixels as `BufferedImage.getRGB` returns them: one 32-bit word with
 * alpha in bits 24-31, red in bits 16-23, green in bits 8-15 and blue in bits 0-7.
 * The source unpacks a channel with `(rgb >> k) & 0xFF`; Java's `>>` is an
 * arithmetic shift, but the mask keeps only bits k..k+7, so a logical shift on
 * `bv32` gives the same channel.
 */
module Pixels {

  type Pixel = bv32

  /** The low 24 bits of a pixel: everything but alpha. */
  const ColourMask: bv32 := 0x00FF_FFFF

  function Channel(p: Pixel, shift: bv32): (c: nat)
    requires shift == 0 || shift == 8 || shift == 16
    ensures c <= 255
  {
    ((p >> shift) & 0xFF) as bv8 as nat
  }

  function Red(p: Pixel): (r: nat)
    ensures r <= 255
  {
    Channel(p, 16)
  }

  function Green(p: Pixel): (g: nat)
    ensures g <= 255
  {
    Channel(p, 8)
  }

  function Blue(p: Pixel): (b: nat)
    ensures b <= 255
  {
    Channel(p, 0)
  }

  /** One grey level for every channel of a pixel. */
  predicate Grey(p: Pixel, v: nat)
  {
    Red(p) == v && Green(p) == v && Blue(p) == v
  }

  /** Packs four 8-bit values into one pixel, the inverse of the channel extraction. */
  function Pack(alpha: bv8, red: bv8, green: bv8, blue: bv8): Pixel
  {
    (alpha as bv32 << 24) | (red as bv32 << 16) | (green as bv32 << 8) | blue as bv32
  }

  /** Extracting the channels of a packed pixel gives back what was packed. */
  lemma UnpackPack(alpha: bv8, red: bv8, green: bv8, blue: bv8)
    ensures Red(Pack(alpha, red, green, blue)) == red as nat
    ensures Green(Pack(alpha, red, green, blue)) == green as nat
    ensures Blue(Pack(alpha, red, green, blue)) == blue as nat
  {
  }

  /** Bits 24-31 never reach any channel: two pixels that agree below bit 24 have the same channels. */
  lemma AlphaIgnored(p: Pixel, q: Pixel)
    requires p & ColourMask == q & ColourMask
    ensures Red(p) == Red(q) && Green(p) == Green(q) && Blue(p) == Blue(q)
  {
  }
}
