/** Little-endian fields of firmware and file records, and 64-bit wrap-around arithmetic. */
module BootBytes {
  import opened Words

  const U64_LIMIT := 0x1_0000_0000_0000_0000

  type Byte = x: int | 0 <= x < 256

  function U32At(b: seq<Byte>, off: nat): (r: nat)
    requires off + 4 <= |b|
    ensures r < U32_LIMIT
  {
    U16At(b, off) + 0x1_0000 * U16At(b, off + 2)
  }

  function U64At(b: seq<Byte>, off: nat): (r: nat)
    requires off + 8 <= |b|
    ensures r < U64_LIMIT
  {
    U32At(b, off) + U32_LIMIT * U32At(b, off + 4)
  }

  function U16At(b: seq<Byte>, off: nat): (r: nat)
    requires off + 2 <= |b|
    ensures r < 0x1_0000
  {
    var lo: int, hi: int := b[off], b[off + 1];
    lo + 0x100 * hi
  }

  /** `a + b` on two 64-bit words. */
  function Add64(a: nat, b: nat): (r: nat) {
    if a + b < U64_LIMIT then a + b else a + b - U64_LIMIT
  }

  // ---- Ranges of memory found while booting.

  datatype Region = Region(base: nat, length: nat)

  function Last<T>(s: seq<T>): T
    requires s != []
  {
    s[|s| - 1]
  }

  function Bytes(rs: seq<Region>): (n: nat) {
    if rs == [] then 0 else Bytes(rs[..|rs| - 1]) + Last(rs).length
  }
}
