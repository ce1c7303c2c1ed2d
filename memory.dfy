/**
 * Byte-addressed memory as the kernel sees it through raw pointers, and the
 * little-endian layout of a 64-bit word on x86_64.
 */
module Memory {

  type Byte = b: int | 0 <= b < 256

  /** Bytes in memory; a cell that was never written reads as zero. */
  type Mem = map<nat, Byte>

  const U64_MODULUS: nat := 0x1_0000_0000_0000_0000

  function Read(mem: Mem, addr: nat): Byte {
    if addr in mem then mem[addr] else 0
  }

  /** The `len` bytes starting at `addr` (`core::slice::from_raw_parts`). */
  function Load(mem: Mem, addr: nat, len: nat): (s: seq<Byte>)
    ensures |s| == len
    ensures forall i :: 0 <= i < len ==> s[i] == Read(mem, addr + i)
  {
    var s := seq<Byte>(len, i requires 0 <= i < len => Read(mem, addr + i));
    s
  }

  predicate InSpan(a: nat, addr: nat, n: nat) {
    addr <= a < addr + n
  }

  /** The addresses `addr .. addr + n`. */
  function Span(addr: nat, n: nat): set<nat> {
    set a: nat | addr <= a < addr + n && InSpan(a, addr, n)
  }

  /** Memory after `bytes` are written one after another from `addr` on. */
  function Store(mem: Mem, addr: nat, bytes: seq<Byte>): (m: Mem)
    ensures forall a: nat :: Read(m, a) == if addr <= a < addr + |bytes| then bytes[a - addr] else Read(mem, a)
  {
    var m := map a: nat | a in mem.Keys + Span(addr, |bytes|) :: if addr <= a < addr + |bytes| then bytes[a - addr] else Read(mem, a);
    assert forall a: nat :: addr <= a < addr + |bytes| ==> a in Span(addr, |bytes|) by {
      forall a: nat | addr <= a < addr + |bytes| ensures a in Span(addr, |bytes|) { assert InSpan(a, addr, |bytes|); }
    }
    m
  }

  /** Reading back a stored run gives the run. */
  lemma LoadStored(mem: Mem, addr: nat, bytes: seq<Byte>, off: nat, len: nat)
    requires off + len <= |bytes|
    ensures Load(Store(mem, addr, bytes), addr + off, len) == bytes[off..off + len]
  {
  }

  /** Reading back a whole stored run gives the run. */
  lemma LoadStoredAll(mem: Mem, addr: nat, bytes: seq<Byte>)
    ensures Load(Store(mem, addr, bytes), addr, |bytes|) == bytes
  {
    LoadStored(mem, addr, bytes, 0, |bytes|);
    assert bytes[0..|bytes|] == bytes;
  }

  /** A store elsewhere does not disturb what is read from a run. */
  lemma LoadOutside(mem: Mem, addr: nat, bytes: seq<Byte>, at: nat, len: nat)
    requires at + len <= addr || addr + |bytes| <= at
    ensures Load(Store(mem, addr, bytes), at, len) == Load(mem, at, len)
  {
  }

  /** Two adjacent spans make one. */
  lemma SpanConcat(addr: nat, n: nat, k: nat)
    ensures Span(addr, n) + Span(addr + n, k) == Span(addr, n + k)
  {
    var whole := Span(addr, n + k);
    forall a: nat | a in whole
      ensures a in Span(addr, n) + Span(addr + n, k)
    {
      if a < addr + n {
        assert InSpan(a, addr, n);
      } else {
        assert InSpan(a, addr + n, k);
      }
    }
  }

  /** Writing a run and then the next run is writing their concatenation. */
  lemma StoreAdjacent(mem: Mem, addr: nat, x: seq<Byte>, y: seq<Byte>)
    ensures Store(Store(mem, addr, x), addr + |x|, y) == Store(mem, addr, x + y)
  {
    var left := Store(Store(mem, addr, x), addr + |x|, y);
    var right := Store(mem, addr, x + y);
    SpanConcat(addr, |x|, |y|);
    assert left.Keys == right.Keys;
    forall a | a in left.Keys
      ensures left[a] == right[a]
    {
      assert Read(left, a) == Read(right, a);
    }
  }

  /** The first `i + 1` bytes are the first `i` and then byte `i`. */
  lemma TakeSnoc(s: seq<Byte>, i: nat)
    requires i < |s|
    ensures s[..i] + [s[i]] == s[..i + 1]
  {
  }

  /** Writing one byte is a single map update. */
  lemma StoreOne(mem: Mem, addr: nat, b: Byte)
    ensures Store(mem, addr, [b]) == mem[addr := b]
  {
    var left, right := Store(mem, addr, [b]), mem[addr := b];
    assert Span(addr, 1) == {addr} by {
      assert InSpan(addr, addr, 1);
    }
    assert left.Keys == right.Keys;
    forall a | a in left.Keys
      ensures left[a] == right[a]
    {
      assert Read(left, a) == Read(right, a);
    }
  }

  /** Writing the first `i` bytes and then byte `i` is writing the first `i + 1`. */
  lemma StoreNext(mem: Mem, addr: nat, bytes: seq<Byte>, i: nat)
    requires i < |bytes|
    ensures Store(mem, addr, bytes[..i])[addr + i := bytes[i]] == Store(mem, addr, bytes[..i + 1])
  {
    StoreAdjacent(mem, addr, bytes[..i], [bytes[i]]);
    StoreOne(Store(mem, addr, bytes[..i]), addr + i, bytes[i]);
    TakeSnoc(bytes, i);
  }

  /** 256 to the power `n`. */
  function Pow256(n: nat): (p: nat)
    ensures p >= 1
  {
    if n == 0 then 1 else 256 * Pow256(n - 1)
  }

  /** The low `n` bytes of `x`, least significant first (how x86_64 stores an integer). */
  function LittleEndian(x: nat, n: nat): (s: seq<Byte>)
    ensures |s| == n
  {
    if n == 0 then [] else [x % 256] + LittleEndian(x / 256, n - 1)
  }

  /** The integer whose little-endian bytes are `s`. */
  function FromLittleEndian(s: seq<Byte>): (x: nat)
    ensures x < Pow256(|s|)
  {
    if s == [] then 0 else s[0] + 256 * FromLittleEndian(s[1..])
  }

  /** Decoding the stored bytes of a value that fits gives the value back. */
  lemma {:induction false} LittleEndianRoundTrip(x: nat, n: nat)
    requires x < Pow256(n)
    ensures FromLittleEndian(LittleEndian(x, n)) == x
  {
    if n > 0 {
      LittleEndianRoundTrip(x / 256, n - 1);
      assert LittleEndian(x, n)[1..] == LittleEndian(x / 256, n - 1);
    }
  }

  lemma {:induction false} Pow256Of8()
    ensures Pow256(8) == U64_MODULUS
  {
  }

  /** The eight bytes of a `u64`/`usize` word. */
  function EncodeU64(x: nat): (s: seq<Byte>)
    ensures |s| == 8
  {
    LittleEndian(x, 8)
  }

  /** The value of eight little-endian bytes. */
  function DecodeU64(s: seq<Byte>): (x: nat)
    requires |s| == 8
    ensures x < U64_MODULUS
  {
    Pow256Of8();
    FromLittleEndian(s)
  }

  /** A 64-bit value survives its encoding. */
  lemma U64RoundTrip(x: nat)
    requires x < U64_MODULUS
    ensures DecodeU64(EncodeU64(x)) == x
  {
    Pow256Of8();
    LittleEndianRoundTrip(x, 8);
  }

  /** The `u64` at `addr`. */
  function ReadU64(mem: Mem, addr: nat): (x: nat)
    ensures x < U64_MODULUS
  {
    DecodeU64(Load(mem, addr, 8))
  }
}
