/** Machine words of the command stream: 32-bit words, signed reinterpretation
    (memcpy of an int32_t) and 64-bit ids split into two words. */
module Words {
  datatype Option<+T> = None | Some(value: T)

  /** Errors of the 2.1 interface, as far as the modelled code returns them by name. */
  datatype Error =
    | NONE | BAD_DISPLAY | BAD_LAYER | BAD_PARAMETER | NO_RESOURCES | NOT_VALIDATED
    | HalError(code: OtherCode)

  /** The numbers that belong to no error named here. */
  type OtherCode = x: Int32 | x != 0 && x != 2 && x != 3 && x != 4 && x != 6 && x != 7 witness 8

  const TWO16: int := 0x1_0000
  const TWO31: int := 0x8000_0000
  const TWO32: int := 0x1_0000_0000

  type Byte = x: int | 0 <= x < 0x100
  type Word = x: int | 0 <= x < TWO32
  type Word64 = x: int | 0 <= x < TWO32 * TWO32
  type Int32 = x: int | -TWO31 <= x < TWO31

  /** The value `v` has after a conversion to uint32_t. */
  function Wrap(v: int): Word {
    v % TWO32
  }

  /** Reading back the bit pattern of a word as an int32_t. */
  function ToSigned(w: Word): Int32 {
    if w < TWO31 then w else w - TWO32
  }

  function FromSigned(v: Int32): (w: Word)
    ensures ToSigned(w) == v
  {
    if v < 0 then v + TWO32 else v
  }

  function Low(v: Word64): Word {
    v % TWO32
  }

  function High(v: Word64): Word {
    v / TWO32
  }

  function Join(lo: Word, hi: Word): (v: Word64)
    ensures Low(v) == lo && High(v) == hi
  {
    hi * TWO32 + lo
  }

  lemma JoinSplit(v: Word64)
    ensures Join(Low(v), High(v)) == v
  {
  }
}
