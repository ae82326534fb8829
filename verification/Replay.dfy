/** The replay filter of src/nonce.c: two Bloom filters of
    contrib/libbloom/bloom.c that take turns. The hash is any function of the
    nonce and a seed. */
module Replay {
  import opened Words

  type Nonce = seq<byte>

  datatype Shape = Shape(bits: nat, hashes: nat, hashOf: (Nonce, int) -> int)

  const SEED := 0x9747_b28c

  // ---------------------------------------------------------------- positions

  /** Double hashing: from the first hash on in steps of the second, in 32 bits. */
  ghost function Cursor(a: int, b: int, i: nat): int {
    if i == 0 then U32(a) else U32(Cursor(a, b, i - 1) + b)
  }

  ghost function First(s: Shape, key: Nonce): int { U32(s.hashOf(key, SEED)) }

  ghost function Second(s: Shape, key: Nonce): int { U32(s.hashOf(key, First(s, key))) }

  /** The `i`-th bit of a nonce. */
  ghost function Position(s: Shape, key: Nonce, i: nat): int
    requires s.bits > 0
  {
    Cursor(First(s, key), Second(s, key), i) % s.bits
  }

  ghost function Positions(s: Shape, key: Nonce, n: nat): set<int>
    requires s.bits > 0
  {
    set i | 0 <= i < n :: Position(s, key, i)
  }

  /** Every bit that adding `keys` sets. */
  ghost function Marks(s: Shape, keys: seq<Nonce>): set<int>
    requires s.bits > 0
  {
    set k, i | k in keys && 0 <= i < s.hashes :: Position(s, k, i)
  }

  /** All bits of `key` are bits of `keys`. */
  ghost predicate Hits(s: Shape, key: Nonce, keys: seq<Nonce>)
    requires s.bits > 0
  {
    Positions(s, key, s.hashes) <= Marks(s, keys)
  }

  /** What bloom_check_add computes for its `i`-th turn. */
  lemma {:induction false} CursorIs(a: int, b: int, i: nat)
    ensures U32(a + U32(i * b)) == U32(a + i * b) == Cursor(a, b, i)
  {
    AddWraps(i * b, a);
    if i > 0 {
      CursorIs(a, b, i - 1);
      AddWraps(a + (i - 1) * b, b);
    }
  }

  lemma NextPosition(s: Shape, key: Nonce, i: nat)
    requires s.bits > 0
    ensures Positions(s, key, i + 1) == Positions(s, key, i) + {Position(s, key, i)}
  {
    forall x | x in Positions(s, key, i + 1) ensures x in Positions(s, key, i) + {Position(s, key, i)} {
      var j :| 0 <= j < i + 1 && x == Position(s, key, j);
    }
  }

  /** The bit with index `i` for hash values `a` and `b`. */
  ghost function At(bits: nat, a: int, b: int, i: nat): int
    requires bits > 0
  {
    (a + i * b) % W32 % bits
  }

  lemma PositionIs(s: Shape, key: Nonce, i: nat)
    requires s.bits > 0
    ensures Position(s, key, i) == At(s.bits, First(s, key), Second(s, key), i)
  {
    CursorIs(First(s, key), Second(s, key), i);
  }

  /** Bit `i` of hash values `a` and `b` is one of the `n` bits of `c` and `d`. */
  ghost predicate Shared(bits: nat, a: int, b: int, i: nat, c: int, d: int, n: nat)
    requires bits > 0
  {
    exists j :: 0 <= j < n && At(bits, a, b, i) == At(bits, c, d, j)
  }

  /** Two nonces one of which alone is held, in terms of their hash values. */
  lemma HitsOne(s: Shape, key: Nonce, other: Nonce, a: int, b: int, c: int, d: int)
    requires s.bits > 0 && a == First(s, key) && b == Second(s, key) && c == First(s, other) && d == Second(s, other)
    ensures Hits(s, key, [other]) <==> forall i :: 0 <= i < s.hashes ==> Shared(s.bits, a, b, i, c, d, s.hashes)
  {
    hide Position, At;
    forall i | 0 <= i < s.hashes
      ensures Position(s, key, i) in Marks(s, [other]) <==> Shared(s.bits, a, b, i, c, d, s.hashes)
    {
      PositionIs(s, key, i);
      forall j | 0 <= j < s.hashes ensures Position(s, other, j) == At(s.bits, c, d, j) {
        PositionIs(s, other, j);
      }
      if Position(s, key, i) in Marks(s, [other]) {
        var k, j :| k in [other] && 0 <= j < s.hashes && Position(s, key, i) == Position(s, k, j);
      } else {
        assert forall j :: 0 <= j < s.hashes ==> Position(s, other, j) in Marks(s, [other]);
      }
    }
  }

  // ---------------------------------------------------------------- bits

  function Bit(c: bv8, k: nat): bool
    requires k < 8
  {
    c & ((1 as bv8) << k) != 0
  }

  function WithBit(c: bv8, k: nat): bv8
    requires k < 8
  {
    c | ((1 as bv8) << k)
  }

  lemma SetsOneBit(c: bv8, k: nat, j: nat)
    requires k < 8 && j < 8
    ensures Bit(WithBit(c, k), j) <==> j == k || Bit(c, j)
  {
  }

  ghost predicate Shows(bytes: seq<bv8>, ones: set<int>) {
    && (forall x :: x in ones ==> 0 <= x < 8 * |bytes|)
    && (forall x :: 0 <= x < 8 * |bytes| ==> (x in ones <==> Bit(bytes[x / 8], x % 8)))
  }

  /** Setting bit `x` of the array adds `x` to the set of ones. */
  lemma ShowsOneMore(bytes: seq<bv8>, ones: set<int>, x: nat)
    requires Shows(bytes, ones) && x < 8 * |bytes|
    ensures Shows(bytes[x / 8 := WithBit(bytes[x / 8], x % 8)], ones + {x})
  {
    hide Bit, WithBit;
    var bytes' := bytes[x / 8 := WithBit(bytes[x / 8], x % 8)];
    forall y | 0 <= y < 8 * |bytes|
      ensures y in ones + {x} <==> Bit(bytes'[y / 8], y % 8)
    {
      if y / 8 == x / 8 {
        SetsOneBit(bytes[x / 8], x % 8, y % 8);
        assert y == x <==> y % 8 == x % 8;
      }
    }
  }

  // ---------------------------------------------------------------- one filter

  class Bloom {
    const shape: Shape
    const bf: array<bv8>
    ghost var ones: set<int>

    ghost predicate Valid()
      reads this, bf
    {
      0 < shape.bits <= 8 * bf.Length && Shows(bf[..], ones)
    }

    constructor (shape: Shape, bytes: nat)
      requires 0 < shape.bits <= 8 * bytes
      ensures Valid() && this.shape == shape && fresh(bf) && ones == {}
    {
      this.shape := shape;
      bf := new bv8[bytes](_ => 0);
      ones := {};
    }

    /** test_bit_set_bit */
    method TestSet(x: nat, put: bool) returns (hit: bool)
      requires Valid() && x < shape.bits
      modifies bf, this`ones
      ensures Valid() && (hit <==> x in old(ones))
      ensures ones == if put then old(ones) + {x} else old(ones)
    {
      hide Bit, WithBit;
      var c := bf[x / 8];
      hit := Bit(c, x % 8);
      if !hit && put {
        ShowsOneMore(bf[..], ones, x);
        ghost var bytes := bf[..];
        bf[x / 8] := WithBit(c, x % 8);
        assert bf[..] == bytes[x / 8 := WithBit(c, x % 8)];
        ones := ones + {x};
      }
    }

    /** bloom_check_add: whether all bits of the nonce were set before. */
    method CheckAdd(key: Nonce, add: bool) returns (found: bool)
      requires Valid()
      modifies bf, this`ones
      ensures Valid() && (found <==> Positions(shape, key, shape.hashes) <= old(ones))
      ensures ones == if add then old(ones) + Positions(shape, key, shape.hashes) else old(ones)
    {
      hide Shows, Cursor, Positions;
      var a := U32(shape.hashOf(key, SEED));
      var b := U32(shape.hashOf(key, a));
      var hits, i := 0, 0;
      NoPosition(shape, key);
      while i < shape.hashes
        invariant 0 <= hits <= i <= shape.hashes && Valid()
        invariant ones == if add then old(ones) + Positions(shape, key, i) else old(ones)
        invariant hits == i <==> Positions(shape, key, i) <= old(ones)
        invariant !add ==> hits == i
      {
        CursorIs(a, b, i);
        NextPosition(shape, key, i);
        var x := U32(a + U32(i * b)) % shape.bits;
        var hit := TestSet(x, add);
        if hit {
          hits := hits + 1;
        } else if !add {
          MissingPosition(shape, key, i);
          return false;
        }
        i := i + 1;
      }
      found := hits == shape.hashes;
    }

    /** bloom_reset */
    method Reset()
      requires Valid()
      modifies bf, this`ones
      ensures Valid() && ones == {}
    {
      for i := 0 to bf.Length
        invariant forall k :: 0 <= k < i ==> bf[k] == 0
      {
        bf[i] := 0;
      }
      ones := {};
    }
  }

  lemma NoPosition(s: Shape, key: Nonce)
    requires s.bits > 0
    ensures Positions(s, key, 0) == {}
  {
  }

  lemma MissingPosition(s: Shape, key: Nonce, i: nat)
    requires s.bits > 0 && i < s.hashes
    ensures Position(s, key, i) in Positions(s, key, s.hashes)
  {
  }

  // ---------------------------------------------------------------- two generations

  /** ppbloom: `seen` is every nonce presented so far. */
  class PpBloom {
    const entries: nat
    const first: Bloom
    const second: Bloom
    var count: (nat, nat)
    var current: nat
    ghost var seen: seq<Nonce>

    ghost predicate Valid()
      reads this, first, second, first.bf, second.bf
    {
      && first != second && first.bf != second.bf && first.Valid() && second.Valid() && first.shape == second.shape
      && entries > 0 && current < 2 && (if current == 0 then count.0 else count.1) == |seen| % entries
      && first.ones == Marks(first.shape, if current == 0 then Late(seen, entries) else Early(seen, entries))
      && second.ones == Marks(first.shape, if current == 0 then Early(seen, entries) else Late(seen, entries))
    }

    constructor (shape: Shape, bytes: nat, entries: nat)
      requires 0 < shape.bits <= 8 * bytes && entries > 0
      ensures Valid() && seen == [] && this.entries == entries && first.shape == shape
      ensures fresh(first) && fresh(second) && fresh(first.bf) && fresh(second.bf)
    {
      this.entries := entries;
      first := new Bloom(shape, bytes);
      second := new Bloom(shape, bytes);
      count, current, seen := (0, 0), 0, [];
      new;
      NoMarks(shape);
    }

    /** ppbloom_check_add reports a nonce if and only if all its bits are bits of
        the nonces of the current generation, or of the one before: always if it was
        presented in one of the last `entries` calls. */
    method CheckAdd(key: Nonce) returns (found: bool)
      requires Valid()
      modifies this`count, this`current, this`seen, first, second, first.bf, second.bf
      ensures Valid() && seen == old(seen) + [key]
      ensures found <==> || Hits(first.shape, key, Late(old(seen), entries))
                         || Hits(first.shape, key, Early(old(seen), entries))
      ensures key in Recent(old(seen), entries) ==> found
      ensures found ==> Hits(first.shape, key, Recent(old(seen), 2 * entries))
    {
      hide Shows, Marks, Positions, Late, Early, Recent;
      ReportsRecent(first.shape, seen, key, entries);
      var i, j := if current == 0 then first else second, if current == 0 then second else first;
      var n := if current == 0 then count.0 else count.1;
      found := i.CheckAdd(key, true);
      if !found {
        found := j.CheckAdd(key, false);
      }
      OneMore(i.shape, seen, key, entries);
      seen := seen + [key];
      n := n + 1;
      count := if current == 0 then (n, count.1) else (count.0, n);
      if n >= entries {
        j.Reset();
        count := if current == 0 then (count.0, 0) else (0, count.1);
        current := 1 - current;
      }
    }
  }

  /** The nonces of the current generation: those since their number was last a
      multiple of `entries`. */
  ghost function Late(seen: seq<Nonce>, entries: nat): seq<Nonce>
    requires entries > 0
  {
    seen[|seen| - |seen| % entries..]
  }

  /** The `entries` nonces before those, or none at first. */
  ghost function Early(seen: seq<Nonce>, entries: nat): seq<Nonce>
    requires entries > 0
  {
    Recent(seen[..|seen| - |seen| % entries], entries)
  }

  ghost function Recent(seen: seq<Nonce>, n: nat): seq<Nonce> {
    if |seen| <= n then seen else seen[|seen| - n..]
  }

  lemma NoMarks(s: Shape)
    requires s.bits > 0
    ensures Marks(s, []) == {}
  {
  }

  lemma MarksSnoc(s: Shape, keys: seq<Nonce>, key: Nonce)
    requires s.bits > 0
    ensures Marks(s, keys + [key]) == Marks(s, keys) + Positions(s, key, s.hashes)
  {
    forall x | x in Marks(s, keys + [key]) ensures x in Marks(s, keys) + Positions(s, key, s.hashes) {
      var k, i :| k in keys + [key] && 0 <= i < s.hashes && x == Position(s, k, i);
    }
  }

  /** How the remainder goes on. */
  lemma Turn(n: nat, entries: nat)
    requires entries > 0
    ensures (n + 1) % entries == if n % entries + 1 == entries then 0 else n % entries + 1
  {
    var q, r := n / entries, n % entries;
    assert n == q * entries + r;
    if r + 1 == entries {
      assert n + 1 == (q + 1) * entries + 0;
      Remainder(n + 1, entries, q + 1, 0);
    } else {
      Remainder(n + 1, entries, q, r + 1);
    }
  }

  lemma Remainder(n: nat, d: nat, q: nat, r: nat)
    requires n == q * d + r && r < d
    ensures n % d == r
  {
    var k := n / d - q;
    assert n % d == r - k * d;
    assert k > 0 ==> k * d >= d;
    assert k < 0 ==> k * d <= -1 * d;
  }

  /** One more nonce joins the current generation, which becomes the earlier one
      when it is full. */
  lemma OneMore(s: Shape, seen: seq<Nonce>, key: Nonce, entries: nat)
    requires s.bits > 0 && entries > 0
    ensures var grown, next := Marks(s, Late(seen, entries)) + Positions(s, key, s.hashes), seen + [key];
            if |seen| % entries + 1 == entries
            then Marks(s, Late(next, entries)) == {} && Marks(s, Early(next, entries)) == grown && |next| % entries == 0
            else && Marks(s, Late(next, entries)) == grown && Early(next, entries) == Early(seen, entries)
                 && |next| % entries == |seen| % entries + 1
  {
    hide Marks, Positions;
    var n, next := |seen| % entries, seen + [key];
    var late := seen[|seen| - n..];
    Turn(|seen|, entries);
    MarksSnoc(s, late, key);
    assert next[|seen| - n..] == late + [key];
    if n + 1 == entries {
      assert next[|next| - 0..] == [] && next[..|next| - 0] == next;
      assert Recent(next, entries) == late + [key];
      NoMarks(s);
    } else {
      assert next[..|seen| - n] == seen[..|seen| - n];
    }
  }

  /** A nonce presented in any of the last `entries` calls is always reported, and one
      that is reported has all its bits among those of the last two times `entries`. */
  lemma ReportsRecent(s: Shape, seen: seq<Nonce>, key: Nonce, entries: nat)
    requires s.bits > 0 && entries > 0
    ensures key in Recent(seen, entries) ==> Hits(s, key, Late(seen, entries)) || Hits(s, key, Early(seen, entries))
    ensures Hits(s, key, Late(seen, entries)) || Hits(s, key, Early(seen, entries)) ==>
              Hits(s, key, Recent(seen, 2 * entries))
  {
    hide Hits, Recent;
    Generation(seen, |seen| % entries, entries, key);
    HitsSelf(s, key, Late(seen, entries));
    HitsSelf(s, key, Early(seen, entries));
    Within(seen, |seen| % entries, entries);
    HitsMore(s, key, Late(seen, entries), Recent(seen, 2 * entries));
    HitsMore(s, key, Early(seen, entries), Recent(seen, 2 * entries));
  }

  lemma Generation(seen: seq<Nonce>, n: nat, entries: nat, key: Nonce)
    requires n <= |seen| && n <= entries
    ensures key in Recent(seen, entries) ==> key in seen[|seen| - n..] || key in Recent(seen[..|seen| - n], entries)
  {
    var r, early := Recent(seen, entries), Recent(seen[..|seen| - n], entries);
    if key in r {
      var i :| 0 <= i < |r| && r[i] == key;
      var at := |seen| - |r| + i;
      assert seen[at] == key;
      if at >= |seen| - n {
        assert seen[|seen| - n..][at - (|seen| - n)] == key;
      } else {
        assert early[at - (|seen| - n - |early|)] == key;
      }
    }
  }

  lemma HitsSelf(s: Shape, key: Nonce, keys: seq<Nonce>)
    requires s.bits > 0
    ensures key in keys ==> Hits(s, key, keys)
  {
  }

  lemma HitsMore(s: Shape, key: Nonce, a: seq<Nonce>, b: seq<Nonce>)
    requires s.bits > 0 && (forall k :: k in a ==> k in b)
    ensures Hits(s, key, a) ==> Hits(s, key, b)
  {
    forall x | x in Marks(s, a) ensures x in Marks(s, b) {
      var k, i :| k in a && 0 <= i < s.hashes && x == Position(s, k, i);
      assert k in b;
    }
  }

  /** Both generations lie within the last two times `entries` nonces. */
  lemma Within(seen: seq<Nonce>, n: nat, entries: nat)
    requires n <= |seen| && n <= entries
    ensures forall k :: k in seen[|seen| - n..] ==> k in Recent(seen, 2 * entries)
    ensures forall k :: k in Recent(seen[..|seen| - n], entries) ==> k in Recent(seen, 2 * entries)
  {
    var w := Recent(seen, 2 * entries);
    var o := |seen| - |w|;
    forall k | k in seen[|seen| - n..]
      ensures k in w
    {
      var i :| 0 <= i < n && seen[|seen| - n..][i] == k;
      assert w[|seen| - n + i - o] == k;
    }
    var early := Recent(seen[..|seen| - n], entries);
    forall k | k in early
      ensures k in w
    {
      var i :| 0 <= i < |early| && early[i] == k;
      assert w[|seen| - n - |early| + i - o] == k;
    }
  }

  // ---------------------------------------------------------------- what is not a replay

  /** The generations after one call hold one nonce between them. */
  lemma AfterOne(s: Shape, key: Nonce, other: Nonce, entries: nat)
    requires s.bits > 0 && entries > 0 && s.hashes > 0
    ensures Hits(s, other, Late([key], entries)) || Hits(s, other, Early([key], entries)) <==> Hits(s, other, [key])
    ensures !Hits(s, key, Late([], entries)) && !Hits(s, key, Early([], entries))
  {
    hide Hits, Late, Early;
    Turn(0, entries);
    Generations(key, entries);
    HitsNone(s, other);
    HitsNone(s, key);
  }

  lemma Generations(key: Nonce, entries: nat)
    requires entries > 0 && 1 % entries == (if entries == 1 then 0 else 1)
    ensures Late([], entries) == [] && Early([], entries) == []
    ensures if entries == 1 then Late([key], entries) == [] && Early([key], entries) == [key]
            else Late([key], entries) == [key] && Early([key], entries) == []
  {
    assert [key][..1 - 0] == [key] && [key][1 - 1..] == [key];
  }

  lemma HitsNone(s: Shape, key: Nonce)
    requires s.bits > 0 && s.hashes > 0
    ensures !Hits(s, key, [])
  {
    assert Position(s, key, 0) in Positions(s, key, s.hashes);
  }

  lemma FirstMissing(bits: nat, a: int, b: int, c: int, d: int, n: nat)
    requires bits > 0 && 0 <= a < W32
    requires forall j :: 0 <= j < n ==> a % bits != At(bits, c, d, j)
    ensures !Shared(bits, a, b, 0, c, d, n)
  {
  }

  /** Two calls on a new filter. The first nonce is not reported. The second is exactly
      if each of its `hashes` bits, as its hash values give them, is one of the first's;
      not if its first hash is none of them. */
  method TwoCalls(shape: Shape, bytes: nat, entries: nat, key: Nonce, other: Nonce) returns (early: bool, late: bool)
    requires 0 < shape.bits <= 8 * bytes && entries > 0 && shape.hashes > 0
    ensures !early
    ensures var a, c := U32(shape.hashOf(key, SEED)), U32(shape.hashOf(other, SEED));
            var b, d := U32(shape.hashOf(key, a)), U32(shape.hashOf(other, c));
            && (late <==> forall i :: 0 <= i < shape.hashes ==> Shared(shape.bits, c, d, i, a, b, shape.hashes))
            && ((forall j :: 0 <= j < shape.hashes ==> c % shape.bits != At(shape.bits, a, b, j)) ==> !late)
  {
    hide Hits, Late, Early, Shared, At, Marks, Shows, Bloom.Valid;
    var filter := new PpBloom(shape, bytes, entries);
    AfterOne(shape, key, other, entries);
    early := filter.CheckAdd(key);
    assert filter.seen == [key];
    late := filter.CheckAdd(other);
    HitsOne(shape, other, key, First(shape, other), Second(shape, other), First(shape, key), Second(shape, key));
    ghost var a, b := First(shape, key), Second(shape, key);
    if forall j :: 0 <= j < shape.hashes ==> First(shape, other) % shape.bits != At(shape.bits, a, b, j) {
      FirstMissing(shape.bits, First(shape, other), Second(shape, other), a, b, shape.hashes);
    }
  }
}
