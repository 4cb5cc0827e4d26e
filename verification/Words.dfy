/** Fixed-width machine words: wrapping, truncation, and congruence modulo 2^32. */
module Words {

  type uint8 = x: int | 0 <= x < 0x100
  type uint32 = x: int | 0 <= x < 0x1_0000_0000
  type int32 = x: int | -0x8000_0000 <= x < 0x8000_0000
  type uint64 = x: int | 0 <= x < 0x1_0000_0000_0000_0000

  const INT32_MAX: int32 := 0x7fff_ffff

  /** Conversion to uint32_t. */
  function U32(x: int): uint32 { x % 0x1_0000_0000 }

  /** Conversion to int32_t (two's complement). */
  function S32(x: int): int32 {
    var u := x % 0x1_0000_0000;
    if u < 0x8000_0000 then u else u - 0x1_0000_0000
  }

  /** Conversion to uint64_t. */
  function U64(x: int): uint64 { x % 0x1_0000_0000_0000_0000 }

  /** Conversion to int64_t. */
  function S64(x: int): int {
    var u := x % 0x1_0000_0000_0000_0000;
    if u < 0x8000_0000_0000_0000 then u else u - 0x1_0000_0000_0000_0000
  }

  /** The macro DIFF: signed 32-bit distance. */
  function Diff(x: int, y: int): int32 { S32(U32(x) - U32(y)) }

  /** The macro DIFF64: signed 64-bit distance. */
  function Diff64(x: int, y: int): int { S64(U64(x) - U64(y)) }

  /** C division, which truncates toward zero. */
  function Quot(x: int, d: int): int
    requires d > 0
  {
    if x >= 0 then x / d else -(-x / d)
  }

  /** Equality modulo 2^32. */
  ghost predicate Cong(x: int, y: int) { (x - y) % 0x1_0000_0000 == 0 }

  lemma U32Cong(x: int)
    ensures Cong(U32(x), x)
  {
  }

  lemma S32Cong(x: int)
    ensures Cong(S32(x), x)
  {
  }

  lemma MultipleCong(x: int, y: int, k: int)
    requires x == y + k * 0x1_0000_0000
    ensures Cong(x, y)
  {
  }

  lemma Quotient(x: int, y: int) returns (k: int)
    requires Cong(x, y)
    ensures x == y + k * 0x1_0000_0000
  {
    k := (x - y) / 0x1_0000_0000;
  }

  lemma U64Cong(x: int)
    ensures Cong(U64(x), x)
  {
    var q := x / 0x1_0000_0000_0000_0000;
    MultipleCong(U64(x), x, -q * 0x1_0000_0000);
  }

  lemma S64Cong(x: int)
    ensures Cong(S64(x), x)
  {
    var q := x / 0x1_0000_0000_0000_0000;
    var k := if S64(x) >= 0 then q else q + 1;
    MultipleCong(S64(x), x, -k * 0x1_0000_0000);
  }

  lemma CongTrans(x: int, y: int, z: int)
    requires Cong(x, y) && Cong(y, z)
    ensures Cong(x, z)
  {
    hide Cong;
    var k0 := Quotient(x, y);
    var k1 := Quotient(y, z);
    MultipleCong(x, z, k0 + k1);
  }

  lemma DiffSum(r: int, u: int, x: int, v: int, y: int)
    requires Cong(r, u - v) && Cong(u, x) && Cong(v, y)
    ensures Cong(r, x - y)
  {
    hide Cong;
    var k0 := Quotient(r, u - v);
    var k1 := Quotient(u, x);
    var k2 := Quotient(v, y);
    MultipleCong(r, x - y, k0 + k1 - k2);
  }

  lemma DiffCong(x: int, y: int)
    ensures Cong(Diff(x, y), x - y)
  {
    hide U32, S32, Cong;
    U32Cong(x);
    U32Cong(y);
    S32Cong(U32(x) - U32(y));
    DiffSum(Diff(x, y), U32(x), x, U32(y), y);
  }

  lemma Diff64Cong(x: int, y: int)
    ensures Cong(Diff64(x, y), x - y)
  {
    hide U64, S64, Cong;
    U64Cong(x);
    U64Cong(y);
    S64Cong(U64(x) - U64(y));
    DiffSum(Diff64(x, y), U64(x), x, U64(y), y);
  }

  /** Two 32-bit values of the same residue are the same value. */
  lemma CongInt32(x: int32, y: int32)
    requires Cong(x, y)
    ensures x == y
  {
  }

  lemma CongUint32(x: uint32, y: uint32)
    requires Cong(x, y)
    ensures x == y
  {
  }

  lemma CongMul(a: int, b: int, p: int)
    requires Cong(a, b)
    ensures Cong(a * p, b * p)
  {
    var q := (a - b) / 0x1_0000_0000;
    assert a == b + q * 0x1_0000_0000;
    assert a * p == b * p + (q * p) * 0x1_0000_0000;
    MultipleCong(a * p, b * p, q * p);
  }

  lemma S32OfU32(x: int32)
    ensures S32(U32(x)) == x
  {
  }

  lemma CongSelf(x: int)
    ensures Cong(x, x)
  {
  }

  /** Where the true difference fits, DIFF computes it. */
  lemma DiffExact(x: int, y: int)
    requires -0x8000_0000 <= x - y < 0x8000_0000
    ensures Diff(x, y) == x - y
  {
    hide Diff, Cong;
    DiffCong(x, y);
    CongInt32(Diff(x, y), x - y);
  }

  /** The signed distance to a time of which only the low 32 bits are kept. */
  lemma DiffStamp(now: int, at: int)
    requires -0x8000_0000 <= now - at < 0x8000_0000
    ensures Diff(now, U32(at)) == now - at
  {
    hide Diff, U32, Cong;
    DiffCong(now, U32(at));
    U32Cong(at);
    var k0 := Quotient(Diff(now, U32(at)), now - U32(at));
    var k1 := Quotient(U32(at), at);
    MultipleCong(Diff(now, U32(at)), now - at, k0 - k1);
    CongInt32(Diff(now, U32(at)), now - at);
  }
}
