/** Fixed-width arithmetic, raw memory, pointers and address ranges. */
module Machine {
  const TWO31: int := 0x8000_0000
  const TWO32: int := 0x1_0000_0000
  const TWO63: int := 0x8000_0000_0000_0000
  const TWO64: int := 0x1_0000_0000_0000_0000

  type byte = n: nat | n < 0x100
  type u32 = n: nat | n < 0x1_0000_0000
  type u64 = n: nat | n < 0x1_0000_0000_0000_0000
  type i64 = n: int | -0x8000_0000_0000_0000 <= n < 0x8000_0000_0000_0000

  /** The contents of an address space: one byte at every address. */
  type Memory = u64 -> byte

  /** Truncation of an integer to 64 unsigned bits. */
  function Wrap64(n: int): u64 {
    n % TWO64
  }

  /** `fetch_add` and `fetch_sub` on a 64-bit counter. */
  function Plus64(x: u64, n: u64): u64 {
    if x + n < TWO64 then x + n else x + n - TWO64
  }

  function Minus64(x: u64, n: u64): u64 {
    if x >= n then x - n else x - n + TWO64
  }

  lemma CountersWrap(x: int, n: u64)
    ensures Plus64(Wrap64(x), n) == Wrap64(x + n)
    ensures Minus64(Wrap64(x), n) == Wrap64(x - n)
  {
  }

  lemma WrapAdd(x: int, y: int)
    ensures Wrap64(Wrap64(x) + y) == Wrap64(x + y)
  {
  }

  /** `n` bytes from `address` up, wrapping at the top of the address space. */
  function ReadBytes(mem: Memory, address: u64, n: nat): (bytes: seq<byte>)
    ensures |bytes| == n
  {
    seq<byte>(n, i requires 0 <= i < n => mem(Wrap64(address + i)))
  }

  // ---------- 32-bit displacements, little endian ----------

  function DecodeInt32(b: seq<byte>): int
    requires |b| == 4
  {
    var u: int := b[0] as int + 0x100 * b[1] as int + 0x1_0000 * b[2] as int + 0x100_0000 * b[3] as int;
    if u < TWO31 then u else u - TWO32
  }

  function EncodeInt32(n: int): (b: seq<byte>)
    requires -TWO31 <= n < TWO31
    ensures |b| == 4
  {
    var u := if n < 0 then n + TWO32 else n;
    [u % 0x100, u / 0x100 % 0x100, u / 0x1_0000 % 0x100, u / 0x100_0000]
  }

  lemma Int32RoundTrip(n: int)
    requires -TWO31 <= n < TWO31
    ensures DecodeInt32(EncodeInt32(n)) == n
  {
    var u := if n < 0 then n + TWO32 else n;
    assert u / 0x100 / 0x100 == u / 0x1_0000;
    assert u / 0x1_0000 / 0x100 == u / 0x100_0000;
  }

  /** A little-endian two's complement displacement, read from memory. */
  function Displacement(mem: Memory, at: u64): int {
    var high := mem((at + 3) % TWO64);
    mem(at) + 0x100 * mem((at + 1) % TWO64) + 0x1_0000 * mem((at + 2) % TWO64)
    + 0x100_0000 * (if high < 0x80 then high else high - 0x100)
  }

  lemma DisplacementMeaning(mem: Memory, at: u64)
    ensures DecodeInt32(ReadBytes(mem, at, 4)) == Displacement(mem, at)
  {
    var b := ReadBytes(mem, at, 4);
    assert Wrap64(at + 0) == at;
    assert b[0] == mem(at) && b[1] == mem(Wrap64(at + 1)) && b[2] == mem(Wrap64(at + 2)) && b[3] == mem(Wrap64(at + 3));
  }

  // ---------- ranges ----------

  datatype MemoryRange = MemoryRange(begin: u64, size: u64) {
    function End(): u64 {
      Wrap64(begin + size)
    }

    predicate Empty() {
      begin == 0 || size == 0
    }

    predicate Contains(address: u64, bytes: u64) {
      !Empty() && address >= begin && bytes <= size && address <= Wrap64(End() - bytes)
    }

    function At(offset: nat): u64 {
      Wrap64(begin + offset)
    }

    function Bytes(mem: Memory): seq<byte> {
      if Empty() then [] else ReadBytes(mem, begin, size)
    }
  }

  /** What the wrapping test means for every range and every block of at least one byte: the
      block lies between the unwrapped ends. The test is conservative only when the range
      itself runs past the top of memory and the block is no longer than the wrapped part. */
  lemma ContainsIsInterval(r: MemoryRange, address: u64, bytes: u64)
    requires bytes > 0
    ensures r.Contains(address, bytes) <==>
            && !r.Empty()
            && r.begin <= address
            && address + bytes <= r.begin + r.size
            && !(r.begin + r.size > TWO64 && bytes <= r.begin + r.size - TWO64)
  {
  }
}
