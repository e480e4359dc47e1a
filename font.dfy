/** The built-in hexadecimal font: sixteen glyphs of five bytes each, placed in
    low memory by `load`. The font module itself is not part of this model; the
    bytes below are the conventional CHIP-8 glyphs, and nothing proved depends on
    them beyond their number. */
module Font {
  import opened Primitives

  const FONT: seq<u8> := [
    0xF0, 0x90, 0x90, 0x90, 0xF0, // 0
    0x20, 0x60, 0x20, 0x20, 0x70, // 1
    0xF0, 0x10, 0xF0, 0x80, 0xF0, // 2
    0xF0, 0x10, 0xF0, 0x10, 0xF0, // 3
    0x90, 0x90, 0xF0, 0x10, 0x10, // 4
    0xF0, 0x80, 0xF0, 0x10, 0xF0, // 5
    0xF0, 0x80, 0xF0, 0x90, 0xF0, // 6
    0xF0, 0x10, 0x20, 0x40, 0x40, // 7
    0xF0, 0x90, 0xF0, 0x90, 0xF0, // 8
    0xF0, 0x90, 0xF0, 0x10, 0xF0, // 9
    0xF0, 0x90, 0xF0, 0x90, 0x90, // A
    0xE0, 0x90, 0xE0, 0x90, 0xE0, // B
    0xF0, 0x80, 0x80, 0x80, 0xF0, // C
    0xE0, 0x90, 0x90, 0x90, 0xE0, // D
    0xF0, 0x80, 0xF0, 0x80, 0xF0, // E
    0xF0, 0x80, 0xF0, 0x80, 0x80  // F
  ]

  const GLYPH_SIZE: nat := 5
  const FONT_START_ADDRESS: nat := 0x50
  /** `copy_from_slice` needs the font range to be exactly as long as the font. */
  const FONT_END_ADDRESS: nat := FONT_START_ADDRESS + |FONT|
}
