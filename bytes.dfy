/**
  Bytes and the fixed-width integer readers of src/BLEScanner.cpp.

  The source assembles 16- and 32-bit values from bytes with shifts and then
  casts them to a signed or unsigned C type.  Here every reader returns an
  unbounded integer; the signed readers are the two's-complement
  reinterpretation of the unsigned value, written out explicitly.
*/
module Bytes {

  /** An 8-bit unsigned value (uint8_t). */
  type byte = x: int | 0 <= x < 0x100

  /** 256 to the power n: the weight of the n-th byte of a little-endian number. */
  function Pow256(n: nat): (r: nat)
    ensures r >= 1
  {
    if n == 0 then 1 else 256 * Pow256(n - 1)
  }

  /** The int8_t cast of an 8-bit unsigned value. */
  function AsInt8(u: nat): (r: int)
    requires u < 0x100
    ensures -0x80 <= r < 0x80 && (r - u) % 0x100 == 0
    ensures r < 0 <==> u >= 0x80
  {
    if u >= 0x80 then u - 0x100 else u
  }

  /** The int16_t cast of a 16-bit unsigned value. */
  function AsInt16(u: nat): (r: int)
    requires u < 0x1_0000
    ensures -0x8000 <= r < 0x8000 && (r - u) % 0x1_0000 == 0
    ensures r < 0 <==> u >= 0x8000
  {
    if u >= 0x8000 then u - 0x1_0000 else u
  }

  /** The int32_t cast of a 32-bit unsigned value. */
  function AsInt32(u: nat): (r: int)
    requires u < 0x1_0000_0000
    ensures -0x8000_0000 <= r < 0x8000_0000 && (r - u) % 0x1_0000_0000 == 0
    ensures r < 0 <==> u >= 0x8000_0000
  {
    if u >= 0x8000_0000 then u - 0x1_0000_0000 else u
  }

  function Uint8(data: seq<byte>, index: nat): (r: byte)
    requires index < |data|
  {
    data[index]
  }

  function Int8(data: seq<byte>, index: nat): (r: int)
    requires index < |data|
    ensures -128 <= r < 128 && (r - data[index]) % 256 == 0
  {
    AsInt8(data[index])
  }

  /** getUint16LE: the byte at index is the low byte. */
  function Uint16LE(data: seq<byte>, index: nat): (r: nat)
    requires index + 2 <= |data|
    ensures r < 0x1_0000
    ensures r % 256 == data[index] && r / 256 == data[index + 1]
  {
    data[index] as int + data[index + 1] as int * 0x100
  }

  /** getUint16BE: the byte at index is the high byte. */
  function Uint16BE(data: seq<byte>, index: nat): (r: nat)
    requires index + 2 <= |data|
    ensures r < 0x1_0000
    ensures r / 256 == data[index] && r % 256 == data[index + 1]
  {
    data[index] as int * 0x100 + data[index + 1] as int
  }

  /** getUint32LE: byte index + k carries weight 256^k. */
  function Uint32LE(data: seq<byte>, index: nat): (r: nat)
    requires index + 4 <= |data|
    ensures r < 0x1_0000_0000
    ensures r % 0x1_0000 == Uint16LE(data, index)
    ensures r / 0x1_0000 == Uint16LE(data, index + 2)
  {
    data[index] as int + data[index + 1] as int * 0x100
      + data[index + 2] as int * 0x1_0000 + data[index + 3] as int * 0x100_0000
  }

  /** getInt16LE: the int16_t cast of the little-endian 16-bit value. */
  function Int16LE(data: seq<byte>, index: nat): (r: int)
    requires index + 2 <= |data|
    ensures -0x8000 <= r < 0x8000
    ensures (r - Uint16LE(data, index)) % 0x1_0000 == 0
  {
    AsInt16(Uint16LE(data, index))
  }

  /** getInt16BE: the int16_t cast of the big-endian 16-bit value. */
  function Int16BE(data: seq<byte>, index: nat): (r: int)
    requires index + 2 <= |data|
    ensures -0x8000 <= r < 0x8000
    ensures (r - Uint16BE(data, index)) % 0x1_0000 == 0
  {
    AsInt16(Uint16BE(data, index))
  }

  /**
    getInt32LE: the int32_t cast of the little-endian 32-bit value
    (the source shifts into a plain int; the top byte's sign bit wraps as on
    every two's-complement target).
  */
  function Int32LE(data: seq<byte>, index: nat): (r: int)
    requires index + 4 <= |data|
    ensures -0x8000_0000 <= r < 0x8000_0000
    ensures (r - Uint32LE(data, index)) % 0x1_0000_0000 == 0
  {
    AsInt32(Uint32LE(data, index))
  }

  /** Reading big-endian is reading little-endian with the two bytes swapped. */
  lemma BigEndianIsSwappedLittleEndian(data: seq<byte>, index: nat)
    requires index + 2 <= |data|
    ensures Uint16BE(data, index) == Uint16LE([data[index + 1], data[index]], 0)
    ensures Int16BE(data, index) == Int16LE([data[index + 1], data[index]], 0)
  {
  }

  /** The signed 16-bit reader is negative exactly when the high byte has its top bit set. */
  lemma Int16LESign(data: seq<byte>, index: nat)
    requires index + 2 <= |data|
    ensures Int16LE(data, index) < 0 <==> data[index + 1] >= 0x80
  {
  }
}
