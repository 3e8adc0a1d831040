/** Shared vocabulary: optional values, bytes, record kinds and stream names. */
module Prelude {
  datatype Option<+T> = None | Some(value: T)

  newtype int32 = x: int | -0x8000_0000 <= x < 0x8000_0000

  /** `static_cast<uint32_t>`: negative arguments wrap to large ones. */
  function AsUint32(x: int32): (r: nat)
    ensures r < 0x1_0000_0000 && (r - x as int) % 0x1_0000_0000 == 0
  {
    if x < 0 then x as int + 0x1_0000_0000 else x as int
  }

  /** The implicit conversion back, which undoes it. */
  function AsInt32(x: nat): (r: int32)
    requires x < 0x1_0000_0000
    ensures AsUint32(r) == x
  {
    if x < 0x8000_0000 then x as int32 else (x - 0x1_0000_0000) as int32
  }

  newtype byte = x: int | 0 <= x < 256

  type Bytes = seq<byte>

  datatype RecordType = STATE | CONFIGURATION | DATA | TAGS

  /** A stream is named by its device type and an instance number. */
  datatype StreamId = StreamId(typeId: nat, instanceId: nat)

  /** `std::map::operator[]` with a vector or pointer-like value: absent keys read as `default`. */
  function Lookup<K, V>(m: map<K, V>, key: K, default: V): V {
    if key in m then m[key] else default
  }

  function Find<K, V>(m: map<K, V>, key: K): Option<V> {
    if key in m then Some(m[key]) else None
  }
}
