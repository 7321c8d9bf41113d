/**
  Bounds-checked sequential reads of the Borsh-style primitives: each read
  takes a buffer and an offset and yields the field and the offset just past
  it, or fails when the field would run past the end of the buffer.
 */
module Borsh {
  import opened Wrappers
  import opened Bytes

  /** A field read from a buffer together with the offset that follows it. */
  datatype Read<+T> = Read(value: T, next: nat)

  function ReadBytes(data: seq<Byte>, pos: nat, n: nat): (r: Option<Read<seq<Byte>>>)
    ensures r.Some? <==> pos + n <= |data|
    ensures r.Some? ==> r.value.value == data[pos..pos + n] && r.value.next == pos + n
  {
    if pos + n <= |data| then Some(Read(data[pos..pos + n], pos + n)) else None
  }

  function ReadKey(data: seq<Byte>, pos: nat): (r: Option<Read<Key>>)
    ensures r.Some? <==> pos + 32 <= |data|
    ensures r.Some? ==> r.value.value == data[pos..pos + 32] && r.value.next == pos + 32
  {
    if pos + 32 <= |data| then Some(Read(data[pos..pos + 32], pos + 32)) else None
  }

  function ReadU8(data: seq<Byte>, pos: nat): (r: Option<Read<Byte>>)
    ensures r.Some? <==> pos < |data|
    ensures r.Some? ==> r.value.value == data[pos] && r.value.next == pos + 1
  {
    if pos < |data| then Some(Read(data[pos], pos + 1)) else None
  }

  /** A u32 little-endian length prefix. */
  function ReadU32(data: seq<Byte>, pos: nat): (r: Option<Read<nat>>)
    ensures r.Some? <==> pos + 4 <= |data|
    ensures r.Some? ==> r.value.value == LeValue(data[pos..pos + 4]) && r.value.next == pos + 4
    ensures r.Some? ==> r.value.value < 0x1_0000_0000
  {
    if pos + 4 <= |data| then
      LeValueBound(data[pos..pos + 4]);
      Pow256Facts();
      Some(Read(LeValue(data[pos..pos + 4]), pos + 4))
    else None
  }

  /** A u64 little-endian amount (also used for the timestamps, read unsigned). */
  function ReadU64(data: seq<Byte>, pos: nat): (r: Option<Read<U64>>)
    ensures r.Some? <==> pos + 8 <= |data|
    ensures r.Some? ==> r.value.value == LeValue(data[pos..pos + 8]) && r.value.next == pos + 8
  {
    if pos + 8 <= |data| then Some(Read(U64Of(data[pos..pos + 8]), pos + 8)) else None
  }
}
