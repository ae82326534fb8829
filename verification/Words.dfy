/** Fixed-width unsigned arithmetic as C does it, and the signed difference
    that KCP uses to order numbers that wrap around. */
module Words {

  const W16: int := 0x1_0000
  const W32: int := 0x1_0000_0000
  const H32: int := 0x8000_0000

  type byte = x: int | 0 <= x < 256

  function U16(x: int): int { x % W16 }

  function U32(x: int): int { x % W32 }

  /** Reinterprets a 32-bit word as a signed number. */
  function S32(x: int): int {
    var u := U32(x);
    if u < H32 then u else u - W32
  }

  /** `(int32_t)(later - earlier)` on 32-bit words. */
  function TimeDiff(later: int, earlier: int): int { S32(later - earlier) }

  /** Division truncating toward zero, as C divides signed numbers. */
  function TruncDiv(x: int, y: int): int
    requires y > 0
  {
    if x >= 0 then x / y else -((-x) / y)
  }

  function Min(a: int, b: int): int { if a <= b then a else b }

  function Max(a: int, b: int): int { if a >= b then a else b }

  /** The signed difference of two truncated numbers is their true difference
      exactly when that difference fits a signed 32-bit word. */
  lemma TimeDiffExact(x: int, y: int)
    ensures TimeDiff(U32(x), U32(y)) == x - y <==> -H32 <= x - y < H32
  {
    SubWraps(x, y);
  }

  /** Truncating the operands first does not change a wrapped difference. */
  lemma SubWraps(x: int, y: int)
    ensures U32(U32(x) - U32(y)) == U32(x - y)
  {
    var k := x / W32 - y / W32;
    assert x - y == U32(x) - U32(y) + k * W32;
    ModShift(U32(x) - U32(y), k);
  }

  lemma ModShift(x: int, k: int)
    ensures U32(x + k * W32) == U32(x)
  {
    var q := x / W32;
    assert x + k * W32 == (q + k) * W32 + U32(x);
    assert (x + k * W32) / W32 == q + k;
  }

  lemma AddWraps(x: int, y: int)
    ensures U32(U32(x) + y) == U32(x + y)
  {
    ModShift(U32(x) + y, x / W32);
  }

  /** Nearby numbers stay distinct after truncation. */
  lemma WrapInjective(x: int, y: int)
    requires -W32 < x - y < W32
    ensures U32(x) == U32(y) <==> x == y
  {
    SubWraps(x, y);
  }

  /** Concatenation of a list of byte strings. */
  function Flat(ss: seq<seq<byte>>): seq<byte> {
    if ss == [] then [] else ss[0] + Flat(ss[1..])
  }

  lemma {:induction false} FlatAppend(s: seq<seq<byte>>, t: seq<seq<byte>>)
    ensures Flat(s + t) == Flat(s) + Flat(t)
  {
    if s == [] {
      assert s + t == t;
    } else {
      assert (s + t)[1..] == s[1..] + t;
      FlatAppend(s[1..], t);
    }
  }

  lemma FlatOne(x: seq<byte>)
    ensures Flat([x]) == x
  {
    assert Flat([x]) == x + Flat([]);
  }

  lemma FlatSnoc(s: seq<seq<byte>>, x: seq<byte>)
    ensures Flat(s + [x]) == Flat(s) + x
  {
    FlatAppend(s, [x]);
    FlatOne(x);
  }

  /** The bytes of an initial part of a list start the bytes of the list. */
  lemma FlatPrefix(s: seq<seq<byte>>, k: nat)
    requires k <= |s|
    ensures Flat(s[..k]) <= Flat(s)
  {
    assert s == s[..k] + s[k..];
    FlatAppend(s[..k], s[k..]);
  }

  lemma Associate<T>(a: seq<T>, b: seq<T>, c: seq<T>)
    ensures a + b + c == a + (b + c)
  {
  }

  lemma SplitAt<T>(s: seq<T>, k: nat)
    requires k <= |s|
    ensures s[..k] + s[k..] == s
  {
  }
}
