/** Sizes, alignment and little-endian fields shared by pages and WAL records. */
module PageFormat {
  import opened Bytes

  const BLCKSZ: nat := 8192
  const RECORD_HEADER: nat := 24

  function Align8(n: nat): (r: nat)
    ensures n <= r < n + 8 && r % 8 == 0
  {
    (n + 7) / 8 * 8
  }

  function U16(s: seq<byte>, at: nat): (r: nat)
    requires at + 2 <= |s|
    ensures r < 65536
  {
    (s[at] as nat) + 256 * (s[at + 1] as nat)
  }

  function U32(s: seq<byte>, at: nat): (r: nat)
    requires at + 4 <= |s|
    ensures r < UINT32_LIMIT
  {
    U16(s, at) + 65536 * U16(s, at + 2)
  }
}
