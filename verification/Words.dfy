/** 64-bit words, whose sums and differences wrap. */
module Words {
  const TWO_31: int := 0x8000_0000
  const TWO_32: int := 0x1_0000_0000
  const TWO_64: int := 0x1_0000_0000_0000_0000

  type Word = x: nat | x < TWO_64

  function Add64(x: Word, y: Word): Word { if x + y < TWO_64 then x + y else x + y - TWO_64 }

  function Sub64(x: Word, y: Word): Word { if x >= y then x - y else x - y + TWO_64 }
}
