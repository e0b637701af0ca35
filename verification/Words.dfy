/** Fixed-width unsigned arithmetic of the Go source: every operation wraps. */
module Words {
  const TWO_16: int := 0x1_0000
  const TWO_32: int := 0x1_0000_0000

  type U16 = x: int | 0 <= x < 0x1_0000
  type U32 = x: int | 0 <= x < 0x1_0000_0000
  type Byte = x: int | 0 <= x < 256

  function Add16(x: U16, y: U16): U16 { if x + y < TWO_16 then x + y else x + y - TWO_16 }

  function Sub16(x: U16, y: U16): U16 { if y <= x then x - y else x - y + TWO_16 }

  function Add32(x: U32, y: U32): U32 { if x + y < TWO_32 then x + y else x + y - TWO_32 }

  function Sub32(x: U32, y: U32): U32 { if y <= x then x - y else x - y + TWO_32 }

  function Min(x: int, y: int): int { if x < y then x else y }
}
