/**
  The one-byte wire encoding of a character's movement input, as sent with
  every state snapshot: bit 1 says that there is vertical input and bit 2
  that it is positive; bits 5 and 6 say the same of the horizontal input.
  Bytes are `bv8`; the two bit helpers reproduce C#'s integer promotion,
  in which `1 << p` shifts an `int` by `p` modulo 32 and a cast back to
  `byte` drops every bit at position 8 or above.
*/
module InputBits {
  type byte = bv8

  const VERTICAL_PRESENT: byte := 1
  const VERTICAL_POSITIVE: byte := 2
  const HORIZONTAL_PRESENT: byte := 5
  const HORIZONTAL_POSITIVE: byte := 6

  /** The bits the encoding may use: 1, 2, 5 and 6. */
  const INPUT_BITS: byte := 0x66

  /**
    The low byte of the C# `int` value `1 << p`: the shift count is taken
    modulo 32, and a bit shifted to position 8 or above is lost by the cast.
  */
  function BitMask(p: int): (m: byte)
    ensures m == 0 <==> p % 32 >= 8
  {
    var k := p % 32;
    if k < 8 then (1 as byte) << k else 0
  }

  /** `SetBitInByte`: set (`value`) or clear (`!value`) bit `bitPosition` of `byteValue`. */
  function SetBitInByte(byteValue: byte, bitPosition: byte, value: bool): (r: byte)
    ensures bitPosition as int % 32 >= 8 ==> r == byteValue
    ensures value ==> r & byteValue == byteValue
    ensures !value ==> r & byteValue == r
  {
    if value then byteValue | BitMask(bitPosition as int)
    else byteValue & !BitMask(bitPosition as int)
  }

  /** `GetBitValue`: whether bit `bitPosition` of `byteValue` is set. */
  function GetBitValue(byteValue: byte, bitPosition: int): (bit: bool)
    ensures bitPosition % 32 >= 8 ==> !bit
  {
    byteValue & BitMask(bitPosition) != 0
  }

  /** The mask of a position is 0 or the power of two of the position modulo 32. */
  lemma {:induction false} BitMaskValue(p: int)
    ensures var k := p % 32;
      BitMask(p) == (if k == 0 then 1 else if k == 1 then 2 else if k == 2 then 4
        else if k == 3 then 8 else if k == 4 then 16 else if k == 5 then 32
        else if k == 6 then 64 else if k == 7 then 128 else 0)
  {
    var k := p % 32;
    // One shift amount at a time keeps the bit-vector reasoning small.
    if k == 0 { assert (1 as byte) << 0 == 1; }
    else if k == 1 { assert (1 as byte) << 1 == 2; }
    else if k == 2 { assert (1 as byte) << 2 == 4; }
    else if k == 3 { assert (1 as byte) << 3 == 8; }
    else if k == 4 { assert (1 as byte) << 4 == 16; }
    else if k == 5 { assert (1 as byte) << 5 == 32; }
    else if k == 6 { assert (1 as byte) << 6 == 64; }
    else if k == 7 { assert (1 as byte) << 7 == 128; }
  }

  /** After `SetBitInByte(b, p, v)`, reading bit `p` gives `v` back. */
  lemma {:induction false} SetBitThenGet(b: byte, p: byte, v: bool)
    requires p as int % 32 < 8
    ensures GetBitValue(SetBitInByte(b, p, v), p as int) == v
  {
    BitMaskValue(p as int);
  }

  /**
    `SetBitInByte(b, p, v)` leaves every other bit of the byte as it was:
    a reading at a position that differs from `p` modulo 32 is unchanged.
  */
  lemma {:induction false} SetBitKeepsOthers(b: byte, p: byte, v: bool, q: int)
    requires q % 32 != p as int % 32
    ensures GetBitValue(SetBitInByte(b, p, v), q) == GetBitValue(b, q)
  {
    BitMaskValue(p as int);
    BitMaskValue(q);
    assert BitMask(p as int) & BitMask(q) == 0;
  }

  /** The sign of a movement axis value, as the receiver reconstructs it. */
  function Sign(x: real): (s: real)
    ensures s == 1.0 || s == 0.0 || s == -1.0
    ensures (s > 0.0 <==> x > 0.0) && (s < 0.0 <==> x < 0.0)
  {
    if x > 0.0 then 1.0 else if x < 0.0 then -1.0 else 0.0
  }

  /** What the receiving side decodes from the input byte. */
  datatype MoveInput = MoveInput(
    hasInputVertical: bool,
    inputVertical: real,
    hasInputHorizontal: bool,
    inputHorizontal: real)

  /**
    Reference definition of the input byte for the given axis values: the
    presence bit of an axis is set iff its value is non-zero, the direction
    bit iff it is positive.
  */
  function EncodedInput(verticalMove: real, horizontalMove: real): byte
  {
    (if verticalMove != 0.0 then 0x02 else 0)
    | (if verticalMove > 0.0 then 0x04 else 0)
    | (if horizontalMove != 0.0 then 0x20 else 0)
    | (if horizontalMove > 0.0 then 0x40 else 0)
  }

  /**
    The sending side: `inputByte` starts at 0 and each axis with input sets
    its presence bit and, when positive, its direction bit.
  */
  method EncodeInputByte(verticalMove: real, horizontalMove: real) returns (inputByte: byte)
    ensures inputByte == EncodedInput(verticalMove, horizontalMove)
    ensures inputByte & !INPUT_BITS == 0
  {
    inputByte := 0;
    if verticalMove != 0.0 {
      inputByte := SetBitInByte(inputByte, VERTICAL_PRESENT, true);
      if verticalMove > 0.0 {
        inputByte := SetBitInByte(inputByte, VERTICAL_POSITIVE, true);
      }
    }
    if horizontalMove != 0.0 {
      inputByte := SetBitInByte(inputByte, HORIZONTAL_PRESENT, true);
      if horizontalMove > 0.0 {
        inputByte := SetBitInByte(inputByte, HORIZONTAL_POSITIVE, true);
      }
    }
  }

  /**
    The receiving side: an axis has input iff its presence bit is set, and
    its value is then +1 or -1 by the direction bit, and 0 otherwise.
  */
  function DecodeInput(inputByte: byte): (d: MoveInput)
    ensures d.inputVertical in {1.0, 0.0, -1.0} && d.inputHorizontal in {1.0, 0.0, -1.0}
    ensures d.hasInputVertical <==> d.inputVertical != 0.0
    ensures d.hasInputHorizontal <==> d.inputHorizontal != 0.0
  {
    var hasInputVertical := GetBitValue(inputByte, VERTICAL_PRESENT as int);
    var inputVertical :=
      if hasInputVertical then (if GetBitValue(inputByte, VERTICAL_POSITIVE as int) then 1.0 else -1.0)
      else 0.0;
    var hasInputHorizontal := GetBitValue(inputByte, HORIZONTAL_PRESENT as int);
    var inputHorizontal :=
      if GetBitValue(inputByte, HORIZONTAL_PRESENT as int)
      then (if GetBitValue(inputByte, HORIZONTAL_POSITIVE as int) then 1.0 else -1.0)
      else 0.0;
    MoveInput(hasInputVertical, inputVertical, hasInputHorizontal, inputHorizontal)
  }

  /**
    Decoding an encoded byte gives, per axis, "has input" iff the value was
    non-zero and the sign of the value.
  */
  lemma {:induction false} EncodeDecodeRoundTrip(verticalMove: real, horizontalMove: real)
    ensures DecodeInput(EncodedInput(verticalMove, horizontalMove))
      == MoveInput(verticalMove != 0.0, Sign(verticalMove), horizontalMove != 0.0, Sign(horizontalMove))
  {
    BitMaskValue(1);
    BitMaskValue(2);
    BitMaskValue(5);
    BitMaskValue(6);
  }

  /**
    A byte whose direction bits are only set together with their presence
    bits, which is every byte the sender produces.
  */
  predicate WellFormed(b: byte)
  {
    (b & 0x04 != 0 ==> b & 0x02 != 0) && (b & 0x40 != 0 ==> b & 0x20 != 0)
  }

  /**
    Re-encoding what was decoded gives back the input bits of a well-formed
    byte; the other bits are ignored by the receiver.
  */
  lemma {:induction false} DecodeEncodeRoundTrip(b: byte)
    requires WellFormed(b)
    ensures EncodedInput(DecodeInput(b).inputVertical, DecodeInput(b).inputHorizontal) == b & INPUT_BITS
  {
    BitMaskValue(1);
    BitMaskValue(2);
    BitMaskValue(5);
    BitMaskValue(6);
  }

  lemma EncodedInputWellFormed(verticalMove: real, horizontalMove: real)
    ensures WellFormed(EncodedInput(verticalMove, horizontalMove))
  {
  }
}
