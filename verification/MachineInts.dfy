/** Fixed-width integers as ranges of `int`, and the conversions between them. */
module MachineInts {

  const TWO_TO_8: int := 0x100
  const TWO_TO_16: int := 0x1_0000
  const TWO_TO_24: int := 0x100_0000
  const TWO_TO_32: int := 0x1_0000_0000
  const TWO_TO_63: int := 0x8000_0000_0000_0000
  const TWO_TO_64: int := 0x1_0000_0000_0000_0000

  type Byte = n: int | 0 <= n < 0x100
  type Uint16 = n: int | 0 <= n < 0x1_0000
  type Uint32 = n: int | 0 <= n < 0x1_0000_0000
  type Uint64 = n: int | 0 <= n < 0x1_0000_0000_0000_0000
  type Int64 = n: int | -0x8000_0000_0000_0000 <= n < 0x8000_0000_0000_0000

  /** The signed reading of a 64-bit pattern. */
  function ToInt64(bits: Uint64): Int64 {
    if bits < TWO_TO_63 then bits else bits - TWO_TO_64
  }

  /** Signed 64-bit arithmetic that wraps around. */
  function WrapInt64(n: int): Int64 {
    ToInt64(n % TWO_TO_64)
  }

  /** 256 to the power n. */
  function Power256(n: nat): (p: nat)
    ensures p > 0
  {
    if n == 0 then 1 else 256 * Power256(n - 1)
  }

  lemma PowerTable()
    ensures Power256(0) == 1 && Power256(1) == TWO_TO_8 && Power256(2) == TWO_TO_16
    ensures Power256(3) == TWO_TO_24 && Power256(4) == TWO_TO_32
    ensures Power256(7) == 0x100_0000_0000_0000 && Power256(8) == TWO_TO_64
  {
    assert Power256(4) == TWO_TO_32;
    assert Power256(8) == TWO_TO_64;
  }

  lemma {:induction false} PowerMonotone(m: nat, n: nat)
    requires m <= n
    ensures Power256(m) <= Power256(n)
    decreases n
  {
    if m < n {
      PowerMonotone(m, n - 1);
    }
  }
}
