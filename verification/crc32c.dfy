/** Checksum masking. */
module Crc32c {
  import opened Coding

  /** A checksum function.  Nothing is assumed of it: CRC32C is section 12.1 of RFC 3720. */
  type Checksum = seq<Byte> -> Word

  const MASK_DELTA: Word := 0xa282ead8

  function RotateRight15(w: Word): Word {
    w / 0x8000 + w % 0x8000 * 0x2_0000
  }

  function RotateLeft15(w: Word): Word {
    w / 0x2_0000 + w % 0x2_0000 * 0x8000
  }

  function AddDelta(w: Word): Word {
    (w + MASK_DELTA) % 0x1_0000_0000
  }

  function SubtractDelta(w: Word): Word {
    (w - MASK_DELTA) % 0x1_0000_0000
  }

  function Mask(crc: Word): Word {
    AddDelta(RotateRight15(crc))
  }

  function Unmask(masked: Word): Word {
    RotateLeft15(SubtractDelta(masked))
  }

  lemma {:induction false} RotateBack(w: Word)
    ensures RotateLeft15(RotateRight15(w)) == w
    ensures RotateRight15(RotateLeft15(w)) == w
  {
    var high, low := w / 0x8000, w % 0x8000;
    assert RotateRight15(w) / 0x2_0000 == low && RotateRight15(w) % 0x2_0000 == high;
    var top, bottom := w / 0x2_0000, w % 0x2_0000;
    assert RotateLeft15(w) / 0x8000 == bottom && RotateLeft15(w) % 0x8000 == top;
  }

  lemma {:induction false} AddBack(w: Word)
    ensures SubtractDelta(AddDelta(w)) == w
    ensures AddDelta(SubtractDelta(w)) == w
  {
  }

  lemma {:induction false} UnmaskOfMask(w: Word)
    ensures Unmask(Mask(w)) == w
  {
    assert SubtractDelta(Mask(w)) == RotateRight15(w) by {
      AddBack(RotateRight15(w));
    }
    RotateBack(w);
  }

  lemma {:induction false} MaskOfUnmask(w: Word)
    ensures Mask(Unmask(w)) == w
  {
    assert RotateRight15(Unmask(w)) == SubtractDelta(w) by {
      RotateBack(SubtractDelta(w));
    }
    AddBack(w);
  }

  /** Masking rotates the word by 15 bits to the right and adds a constant. */
  lemma {:induction false} MaskRotates(high: nat, low: nat)
    requires high < 0x2_0000 && low < 0x8000
    ensures Mask(high * 0x8000 + low) == (low * 0x2_0000 + high + 0xa282_ead8) % 0x1_0000_0000
  {
    assert (high * 0x8000 + low) / 0x8000 == high && (high * 0x8000 + low) % 0x8000 == low;
  }
}
