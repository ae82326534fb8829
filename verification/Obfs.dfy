/** The TCP/IPv4 disguise of src/obfs.c and the checksum it rests on (RFC 1071).
    16-bit words are read low byte first, as on a little-endian host. */
module Obfs {
  import opened Words
  import opened Network
  import Filter

  const ALL_ONES := 0xffff

  // ---------------------------------------------------------------- checksum

  /** The sum of the 16-bit words of `data`, an odd last byte standing for a word. */
  function WordSum(data: seq<byte>): nat {
    if data == [] then 0
    else if |data| == 1 then data[0]
    else data[0] as int + 256 * data[1] as int + WordSum(data[2..])
  }

  /** The ones' complement sum: addition where a carry comes back in at the low end. */
  function OnesSum(s: nat): (r: nat)
    ensures r <= ALL_ONES
  {
    if s == 0 then 0 else (s - 1) % ALL_ONES + 1
  }

  function Folded(sum: nat): nat {
    var s := sum / W16 + sum % W16;
    (s + s / W16) % W16
  }

  /** Two folds of a 32-bit sum give the ones' complement sum. */
  lemma TwoFoldsSuffice(sum: nat)
    requires sum < W32
    ensures Folded(sum) == OnesSum(sum)
  {
    var h, l := sum / W16, sum % W16;
    SecondFold(h + l);
    if sum > 0 {
      assert sum == (h + l) + h * ALL_ONES;
      OnesSumShift(h + l, h);
    }
  }

  lemma SecondFold(s: nat)
    requires s <= 2 * ALL_ONES
    ensures (s + s / W16) % W16 == OnesSum(s)
  {
    if s > ALL_ONES {
      assert s / W16 == 1 && (s + 1) % W16 == s - ALL_ONES;
      assert (s - 1) % ALL_ONES == s - 1 - ALL_ONES;
    } else {
      assert s / W16 == 0;
    }
  }

  lemma OnesSumShift(s: nat, k: nat)
    requires s > 0
    ensures OnesSum(s + k * ALL_ONES) == OnesSum(s)
  {
    var q, r := (s - 1) / ALL_ONES, (s - 1) % ALL_ONES;
    assert s + k * ALL_ONES - 1 == (q + k) * ALL_ONES + r;
    assert (s + k * ALL_ONES - 1) % ALL_ONES == r;
  }

  /** Sums have equal ones' complement exactly when they agree modulo 0xffff and
      both or neither are zero. */
  lemma OnesSumEqual(a: nat, b: nat)
    ensures OnesSum(a) == OnesSum(b) <==> a % ALL_ONES == b % ALL_ONES && (a == 0 <==> b == 0)
  {
    OnesSumIs(a);
    OnesSumIs(b);
  }

  lemma OnesSumIs(s: nat)
    ensures OnesSum(s) == if s == 0 then 0 else if s % ALL_ONES == 0 then ALL_ONES else s % ALL_ONES
  {
  }

  lemma {:induction false} SumAppend(a: seq<byte>, b: seq<byte>)
    requires |a| % 2 == 0
    ensures WordSum(a + b) == WordSum(a) + WordSum(b)
  {
    if a == [] {
      assert a + b == b;
    } else {
      assert (a + b)[2..] == a[2..] + b;
      SumAppend(a[2..], b);
    }
  }

  /** in_cksum and the loop of in_cksum_fin. */
  method InCksum(sum: nat, data: seq<byte>) returns (r: nat)
    ensures r == U32(sum + WordSum(data))
  {
    r := U32(sum);
    var i := 0;
    assert data[0..] == data;
    while i + 1 < |data|
      invariant 0 <= i <= |data| && r < W32 && U32(r + WordSum(data[i..])) == U32(sum + WordSum(data))
    {
      assert data[i..][2..] == data[i + 2..];
      var w := data[i] as int + 256 * data[i + 1] as int;
      AddWraps(r + w, WordSum(data[i + 2..]));
      assert WordSum(data[i..]) == w + WordSum(data[i + 2..]);
      r := U32(r + w);
      i := i + 2;
    }
    if i < |data| {
      assert data[i..] == [data[i]];
      r := U32(r + data[i]);
    }
  }

  /** in_cksum_fin */
  method InCksumFin(sum: nat, data: seq<byte>) returns (r: nat)
    requires sum < W32
    ensures r == ALL_ONES - OnesSum(U32(sum + WordSum(data)))
  {
    var s := InCksum(sum, data);
    TwoFoldsSuffice(s);
    s := s / W16 + s % W16;
    s := s + s / W16;
    r := ALL_ONES - s % W16;
  }

  /** The checksum of RFC 1071 over one stretch of bytes. */
  function Checksum(data: seq<byte>): (c: nat)
    ensures c <= ALL_ONES
  {
    ALL_ONES - OnesSum(WordSum(data))
  }

  /** Chained calls over even pieces give the checksum of the whole, for all the
      lengths a packet can have. */
  method Chained(a: seq<byte>, b: seq<byte>, c: seq<byte>) returns (r: nat)
    requires |a| % 2 == 0 && |b| % 2 == 0 && |a| + |b| + |c| <= 0x1_0000
    ensures r == Checksum(a + b + c)
  {
    hide WordSum, OnesSum, U32;
    var s := InCksum(0, a);
    s := InCksum(s, b);
    ChainWraps(WordSum(a), WordSum(b), WordSum(c));
    r := InCksumFin(s, c);
    SumAppend(a, b);
    SumAppend(a + b, c);
    SmallEnough(a + b + c);
  }

  lemma ChainWraps(x: nat, y: nat, z: nat)
    ensures U32(U32(U32(0 + x) + y) + z) == U32(x + y + z)
    ensures U32(U32(0 + x) + y) < W32
  {
    AddWraps(x, y);
    AddWraps(x + y, z);
  }

  lemma SmallEnough(data: seq<byte>)
    requires |data| <= 0x1_0000
    ensures U32(WordSum(data)) == WordSum(data)
  {
    SumBound(data);
  }

  lemma {:induction false} SumBound(data: seq<byte>)
    ensures 2 * WordSum(data) <= ALL_ONES * (|data| + 1)
  {
    if |data| > 1 {
      SumBound(data[2..]);
    }
  }

  /** A word that holds the checksum makes the whole sum to all ones. */
  lemma SumsToAllOnes(rest: nat, check: nat)
    requires check == ALL_ONES - OnesSum(rest)
    ensures OnesSum(rest + check) == ALL_ONES
  {
    if rest > 0 {
      var q := (rest - 1) / ALL_ONES;
      assert rest + check == q * ALL_ONES + ALL_ONES;
      OnesSumShift(ALL_ONES, q);
    }
  }

  // ---------------------------------------------------------------- packets

  datatype AddrFields = Addr(ip: seq<byte>, port: seq<byte>)

  /** An IPv4 address and port, in network byte order. */
  type Addr = a: AddrFields | |a.ip| == 4 && |a.port| == 2
    witness Addr([127, 0, 0, 1], [0, 0])

  /** What a sealed segment takes from the connection it imitates. */
  datatype Flow = Flow(capSeq: nat, capAckSeq: nat, ecn: bool)

  function Big32(x: nat): (b: seq<byte>)
    requires x < W32
    ensures |b| == 4
  {
    Big16(x / W16) + Big16(x % W16)
  }

  /** A word as the checksum code stores it. */
  function Native16(x: nat): (b: seq<byte>)
    requires x < W16
    ensures |b| == 2
  {
    [x % 256, x / 256]
  }

  function IpHeader(src: Addr, dst: Addr, id: nat, plen: nat): (b: seq<byte>)
    requires 20 + plen < W16 && id < W16
    ensures |b| == 20
  {
    [0x45, 2] + Big16(20 + plen) + Native16(id) + [0x40, 0, 64, IPPROTO_TCP, 0, 0] + src.ip + dst.ip
  }

  function TcpHeader(src: Addr, dst: Addr, f: Flow, check: nat): (b: seq<byte>)
    requires check < W16
    ensures |b| == 20
  {
    src.port + dst.port + Big32(U32(f.capAckSeq + 1492)) + Big32(U32(f.capSeq + 1))
    + [0x50, if f.ecn then 0x58 else 0x18, 0x7f, 0xec] + Native16(check) + [0, 0]
  }

  function Pseudo(src: seq<byte>, dst: seq<byte>, plen: nat): (b: seq<byte>)
    requires |src| == 4 && |dst| == 4 && plen < W16
    ensures |b| == 12
  {
    src + dst + [0, IPPROTO_TCP] + Big16(plen)
  }

  function SealCheck(src: Addr, dst: Addr, f: Flow, payload: seq<byte>): nat
    requires |payload| <= ALL_ONES - 40
  {
    Checksum(Pseudo(src.ip, dst.ip, 20 + |payload|) + TcpHeader(src, dst, f, 0) + payload)
  }

  /** The packet that obfs_seal_ipv4 makes of a payload. */
  function Seal(src: Addr, dst: Addr, f: Flow, id: nat, payload: seq<byte>): seq<byte>
    requires |payload| <= ALL_ONES - 40 && id < W16
  {
    IpHeader(src, dst, id, 20 + |payload|) + TcpHeader(src, dst, f, SealCheck(src, dst, f, payload)) + payload
  }

  datatype Opened = Dropped | Payload(from: Addr, off: nat, len: nat)

  predicate SaMatches(bind: Addr, dest: Addr) {
    bind.port == dest.port && (bind.ip == [0, 0, 0, 0] || bind.ip == dest.ip)
  }

  /** The bytes a received TCP checksum covers: its own field counts as zero. */
  function Covered(p: seq<byte>, ihl: nat, tot: nat): seq<byte>
    requires 20 <= ihl && ihl + 20 <= tot <= |p| && tot < W16
  {
    Pseudo(p[12..16], p[16..20], tot - ihl) + (p[ihl..ihl + 16] + [0, 0] + p[ihl + 18..ihl + 20]) + p[ihl + 20..tot]
  }

  function Source(p: seq<byte>, ihl: nat): Addr
    requires 20 <= ihl && ihl + 4 <= |p|
  {
    Addr(p[12..16], p[ihl..ihl + 2])
  }

  function Destination(p: seq<byte>, ihl: nat): Addr
    requires 20 <= ihl && ihl + 4 <= |p|
  {
    Addr(p[16..20], p[ihl + 2..ihl + 4])
  }

  /** Whether the headers are consistent, and where they end. */
  predicate WellFormed(p: seq<byte>) {
    && |p| >= 20 && p[0] / 16 == 4 && p[9] == IPPROTO_TCP
    && var ihl, tot := 4 * (p[0] % 16), Read16(p, 2);
       20 <= ihl && ihl + 20 <= tot <= |p| && 5 <= p[ihl + 12] / 16 && ihl + 4 * (p[ihl + 12] / 16) <= tot
  }

  function CheckField(p: seq<byte>, ihl: nat): nat
    requires ihl + 18 <= |p|
  {
    p[ihl + 16] as int + 256 * p[ihl + 17] as int
  }

  /** What obfs_open_ipv4 makes of a packet. `peers` are the addresses with a
      connection; resets are dropped only under debug logging. */
  function Open(bind: Addr, peers: set<Addr>, debug: bool, p: seq<byte>): Opened {
    if !WellFormed(p) then Dropped
    else
      var ihl, tot := 4 * (p[0] % 16), Read16(p, 2);
      var doff, flags := 4 * (p[ihl + 12] / 16), p[ihl + 13] as int;
      var from, dest := Source(p, ihl), Destination(p, ihl);
      if p[12] != 127 && Checksum(Covered(p, ihl, tot)) != CheckField(p, ihl) then Dropped
      else if !SaMatches(bind, dest) || from !in peers then Dropped
      else if (debug && flags / 4 % 2 == 1) || flags / 8 % 2 == 0 then Dropped
      else Payload(from, ihl + doff, tot - ihl - doff)
  }

  /** obfs_seal_ipv4 writes the headers in front of the payload, in place. */
  method SealInPlace(buf: array<byte>, len: nat, src: Addr, dst: Addr, f: Flow, id: nat) returns (len': nat)
    requires 40 + len <= buf.Length && len <= ALL_ONES - 40 && id < W16
    modifies buf
    ensures len' == 40 + len && buf[..len'] == Seal(src, dst, f, id, old(buf[40..40 + len]))
    ensures buf[40..] == old(buf[40..])
  {
    ghost var payload := buf[40..40 + len];
    var plen := 20 + len;
    var check := Chained(Pseudo(src.ip, dst.ip, plen), TcpHeader(src, dst, f, 0), buf[40..40 + len]);
    var hdr := IpHeader(src, dst, id, plen) + TcpHeader(src, dst, f, check);
    for i := 0 to 40
      invariant buf[..i] == hdr[..i] && buf[40..] == old(buf[40..])
    {
      buf[i] := hdr[i];
    }
    len' := 40 + len;
    assert buf[40..len'] == buf[40..][..len] == payload;
    assert buf[..len'] == buf[..40] + buf[40..len'];
  }

  /** obfs_open_ipv4 on the first `len` bytes of a buffer. */
  method OpenInPlace(buf: array<byte>, len: nat, bind: Addr, peers: set<Addr>, debug: bool) returns (r: Opened)
    requires len <= buf.Length
    ensures r == Open(bind, peers, debug, buf[..len])
  {
    hide Checksum, WordSum;
    var p := buf[..len];
    if !WellFormed(p) {
      return Dropped;
    }
    var ihl, tot := 4 * (p[0] % 16), Read16(p, 2);
    var doff, flags := 4 * (p[ihl + 12] / 16), p[ihl + 13];
    var from, dest := Source(p, ihl), Destination(p, ihl);
    if p[12] != 127 {
      var tcp := p[ihl..ihl + 16] + [0, 0] + p[ihl + 18..ihl + 20];
      var sum := Chained(Pseudo(p[12..16], p[16..20], tot - ihl), tcp, p[ihl + 20..tot]);
      if sum != CheckField(p, ihl) {
        return Dropped;
      }
    }
    if !SaMatches(bind, dest) || from !in peers {
      return Dropped;
    }
    if debug && flags / 4 % 2 == 1 {
      return Dropped;
    }
    if flags / 8 % 2 == 0 {
      return Dropped;
    }
    r := Payload(from, ihl + doff, tot - ihl - doff);
  }

  // ---------------------------------------------------------------- what is accepted

  /** The TCP checksum of the packet with header length `ihl` and total length `tot` is
      right by section 3.1 of RFC 9293: pseudo header and segment sum to all ones. A
      field of all ones is refused, although it stands for the same sum as zero. */
  ghost predicate Sums(p: seq<byte>, ihl: nat, tot: nat)
    requires 20 <= ihl && ihl + 20 <= tot <= |p|
  {
    var plen := tot - ihl;
    && OnesSum(WordSum(p[12..20] + [0, 6, plen / 256 % 256, plen % 256] + p[ihl..tot])) == 0xffff
    && p[ihl + 16..ihl + 18] != [255, 255]
  }

  /** A data segment of a peer for the bound address, by the fields of sections 3.1 of
      RFC 791 and RFC 9293. */
  ghost predicate Acceptable(bind: Addr, peers: set<Addr>, debug: bool, p: seq<byte>) {
    && |p| >= 20 && 0x45 <= p[0] <= 0x4f && p[9] == 6
    && var ihl, tot := 4 * (p[0] - 0x40), 256 * p[2] as int + p[3] as int;
       && ihl + 20 <= tot <= |p| && 0x50 <= p[ihl + 12] && ihl + p[ihl + 12] / 16 * 4 <= tot
       && (p[12] == 127 || Sums(p, ihl, tot))
       && p[ihl + 2..ihl + 4] == bind.port && (p[16..20] == bind.ip || bind.ip == [0, 0, 0, 0])
       && Addr(p[12..16], p[ihl..ihl + 2]) in peers
       && p[ihl + 13] % 16 >= 8 && (debug ==> p[ihl + 13] % 8 < 4)
  }

  /** obfs_open_ipv4 hands on exactly those, with the sender's address, and the part
      of the packet behind both headers. */
  lemma OpenExactly(bind: Addr, peers: set<Addr>, debug: bool, p: seq<byte>)
    ensures Open(bind, peers, debug, p).Payload? <==> Acceptable(bind, peers, debug, p)
    ensures Acceptable(bind, peers, debug, p) ==>
              var r, ihl := Open(bind, peers, debug, p), 4 * (p[0] - 0x40);
              && r.from == Addr(p[12..16], p[ihl..ihl + 2]) && r.off == ihl + p[ihl + 12] / 16 * 4
              && r.off + r.len == 256 * p[2] as int + p[3] as int
  {
    hide Checksum, WordSum, OnesSum, Sums, Covered, CheckField;
    if |p| >= 20 {
      FirstByte(p[0]);
    }
    if WellFormed(p) {
      var ihl, tot := 4 * (p[0] - 0x40), Read16(p, 2);
      FlagBits(p[ihl + 12], p[ihl + 13]);
      ChecksumRight(p, ihl, tot);
    }
  }

  lemma FirstByte(c: byte)
    ensures c / 16 == 4 && 20 <= 4 * (c % 16) <==> 0x45 <= c <= 0x4f
    ensures c / 16 == 4 ==> c % 16 == c - 0x40
  {
  }

  lemma FlagBits(off: byte, flags: byte)
    ensures 5 <= off / 16 <==> 0x50 <= off
    ensures flags / 8 % 2 == 1 <==> flags % 16 >= 8
    ensures flags / 4 % 2 == 1 <==> flags % 8 >= 4
  {
  }

  /** Comparing with the computed checksum is summing the whole, but for a field of
      all ones. */
  lemma ChecksumRight(p: seq<byte>, ihl: nat, tot: nat)
    requires 20 <= ihl && ihl + 20 <= tot <= |p| && tot < W16
    ensures Checksum(Covered(p, ihl, tot)) == CheckField(p, ihl) <==> Sums(p, ihl, tot)
  {
    hide WordSum, OnesSum, Covered;
    var rest, check := WordSum(Covered(p, ihl, tot)), CheckField(p, ihl);
    WholeSum(p, ihl, tot);
    SomeSum(p, ihl, tot);
    RightField(rest, check);
    assert p[ihl + 16..ihl + 18] == [p[ihl + 16], p[ihl + 17]];
  }

  lemma RightField(rest: nat, check: nat)
    requires rest > 0 && check < W16
    ensures ALL_ONES - OnesSum(rest) == check <==> OnesSum(rest + check) == ALL_ONES && check != ALL_ONES
  {
    var q, r := (rest - 1) / ALL_ONES, (rest - 1) % ALL_ONES;
    assert rest + check == (r + 1 + check) + q * ALL_ONES;
    OnesSumShift(r + 1 + check, q);
    var n := r + check;
    assert n % ALL_ONES == if n < ALL_ONES then n else n - ALL_ONES;
  }

  /** The sum over the whole segment is that with the field cleared, and the field. */
  lemma WholeSum(p: seq<byte>, ihl: nat, tot: nat)
    requires 20 <= ihl && ihl + 20 <= tot <= |p| && tot < W16
    ensures var plen := tot - ihl;
            WordSum(p[12..20] + [0, 6, plen / 256 % 256, plen % 256] + p[ihl..tot]) ==
            WordSum(Covered(p, ihl, tot)) + CheckField(p, ihl)
  {
    hide WordSum;
    var plen := tot - ihl;
    var pseudo := Pseudo(p[12..16], p[16..20], plen);
    var pre, post, body := p[ihl..ihl + 16], p[ihl + 18..ihl + 20], p[ihl + 20..tot];
    assert p[12..20] + [0, 6, plen / 256 % 256, plen % 256] == pseudo;
    assert p[ihl..tot] == pre + Native16(CheckField(p, ihl)) + post + body;
    SumFive(pseudo, pre, CheckField(p, ihl), post, body);
    SumFive(pseudo, pre, 0, post, body);
  }

  lemma SumFive(pseudo: seq<byte>, pre: seq<byte>, w: nat, post: seq<byte>, body: seq<byte>)
    requires |pseudo| == 12 && |pre| == 16 && |post| == 2 && w < W16
    ensures WordSum(pseudo + (pre + Native16(w) + post + body)) ==
            WordSum(pseudo) + WordSum(pre) + w + WordSum(post) + WordSum(body)
    ensures WordSum(pseudo + (pre + [0, 0] + post) + body) ==
            WordSum(pseudo) + WordSum(pre) + WordSum(post) + WordSum(body)
  {
    hide WordSum;
    SumAppend(pseudo, pre + Native16(w) + post + body);
    SumAppend(pre + Native16(w) + post, body);
    SumAround(pre, w, post);
    SumAppend(pseudo + (pre + [0, 0] + post), body);
    SumAppend(pseudo, pre + [0, 0] + post);
    assert [0, 0] == Native16(0);
    SumAround(pre, 0, post);
  }

  /** The protocol number alone makes the sum positive. */
  lemma SomeSum(p: seq<byte>, ihl: nat, tot: nat)
    requires 20 <= ihl && ihl + 20 <= tot <= |p| && tot < W16
    ensures WordSum(Covered(p, ihl, tot)) > 0
  {
    hide WordSum;
    var plen := tot - ihl;
    var front := p[12..16] + p[16..20];
    var back := Big16(plen) + ((p[ihl..ihl + 16] + [0, 0] + p[ihl + 18..ihl + 20]) + p[ihl + 20..tot]);
    assert Covered(p, ihl, tot) == front + Native16(0x600) + back;
    SumAround(front, 0x600, back);
  }

  // ---------------------------------------------------------------- round trip

  lemma IpFields(src: Addr, dst: Addr, id: nat, plen: nat)
    requires 20 + plen < W16 && id < W16
    ensures var b := IpHeader(src, dst, id, plen);
            b[0] == 0x45 && Read16(b, 2) == 20 + plen && b[9] == IPPROTO_TCP && b[12..16] == src.ip && b[16..20] == dst.ip
  {
    var b := IpHeader(src, dst, id, plen);
    assert b[2..4] == Big16(20 + plen);
    assert b[2] == b[2..4][0] && b[3] == b[2..4][1];
  }

  lemma TcpFields(src: Addr, dst: Addr, f: Flow, check: nat)
    requires check < W16
    ensures var b := TcpHeader(src, dst, f, check);
            && b[0..2] == src.port && b[2..4] == dst.port && b[12] == 0x50 && (b[13] == 0x18 || b[13] == 0x58)
            && b[16] as int + 256 * b[17] as int == check && b[..16] + [0, 0] + b[18..] == TcpHeader(src, dst, f, 0)
  {
    var b, z := TcpHeader(src, dst, f, check), TcpHeader(src, dst, f, 0);
    assert b[..16] == z[..16] && b[16..18] == Native16(check) && b[18..] == [0, 0] == z[18..];
    assert z[16..18] == Native16(0) == [0, 0];
    assert b[16] == b[16..18][0] && b[17] == b[16..18][1];
    assert z == z[..16] + z[16..18] + z[18..];
  }

  /** Where the parts of a sealed packet lie, with or without trailing bytes. */
  lemma SealedParts(ip: seq<byte>, tcp: seq<byte>, payload: seq<byte>, trail: seq<byte>)
    requires |ip| == 20 && |tcp| == 20
    ensures var p, n := ip + tcp + payload + trail, |payload|;
            && p[..20] == ip && p[20..40] == tcp && p[40..40 + n] == payload
            && p[12..16] == ip[12..16] && p[16..20] == ip[16..20]
            && p[20..22] == tcp[0..2] && p[22..24] == tcp[2..4]
            && p[20..36] == tcp[..16] && p[38..40] == tcp[18..]
            && (forall i :: 0 <= i < 20 ==> p[i] == ip[i]) && (forall i :: 0 <= i < 20 ==> p[20 + i] == tcp[i])
  {
  }

  /** What obfs_open_ipv4 reads from the headers of obfs_seal_ipv4 around `body`. */
  lemma SealedView(src: Addr, dst: Addr, f: Flow, id: nat, check: nat, body: seq<byte>, trail: seq<byte>)
    requires |body| <= ALL_ONES - 40 && id < W16 && check < W16
    ensures var plen := 20 + |body|;
            var p := IpHeader(src, dst, id, plen) + TcpHeader(src, dst, f, check) + body + trail;
            && WellFormed(p) && p[0] == 0x45 && Read16(p, 2) == 20 + plen && p[32] == 0x50 && p[12] == src.ip[0]
            && (p[33] == 0x18 || p[33] == 0x58) && CheckField(p, 20) == check && p[40..40 + |body|] == body
            && Source(p, 20) == src && Destination(p, 20) == dst
            && Covered(p, 20, 20 + plen) == Pseudo(src.ip, dst.ip, plen) + TcpHeader(src, dst, f, 0) + body
  {
    hide IpHeader, TcpHeader, Pseudo;
    var plen := 20 + |body|;
    var ip, tcp := IpHeader(src, dst, id, plen), TcpHeader(src, dst, f, check);
    var p := ip + tcp + body + trail;
    IpFields(src, dst, id, plen);
    TcpFields(src, dst, f, check);
    SealedParts(ip, tcp, body, trail);
    assert p[2] == ip[2] && p[3] == ip[3] && p[0] == ip[0] && p[9] == ip[9] && p[12] == p[12..16][0];
    assert p[20 + 12] == tcp[12] && p[20 + 13] == tcp[13] && p[20 + 16] == tcp[16] && p[20 + 17] == tcp[17];
  }

  /** Opening a sealed packet gives back exactly the payload and the sender,
      whatever follows the packet in the buffer. */
  lemma OpenUndoesSeal(src: Addr, dst: Addr, f: Flow, id: nat, payload: seq<byte>, trail: seq<byte>,
                       bind: Addr, peers: set<Addr>, debug: bool)
    requires |payload| <= ALL_ONES - 40 && id < W16 && SaMatches(bind, dst) && src in peers
    ensures var p := Seal(src, dst, f, id, payload) + trail;
            Open(bind, peers, debug, p) == Payload(src, 40, |payload|) && p[40..40 + |payload|] == payload
  {
    hide Checksum, IpHeader, TcpHeader, Pseudo, Covered, Source, Destination, CheckField, Read16, WellFormed;
    SealedView(src, dst, f, id, SealCheck(src, dst, f, payload), payload, trail);
  }

  /** The filter that the receiver compiled for its bind address, a wildcard or not,
      lets every packet sealed for that address through. */
  lemma SealedPassesFilter(src: Addr, dst: Addr, f: Flow, id: nat, payload: seq<byte>, trail: seq<byte>,
                           port: nat, addr: nat)
    requires |payload| <= ALL_ONES - 40 && id < W16
    requires port in {0, Read16(dst.port, 0)} && addr in {0, Read32(dst.ip, 0)}
    ensures var code := Filter.Link(Filter.Code(Filter.Inet(port, addr)));
            Filter.Run(code, 0, 0, 0, Seal(src, dst, f, id, payload) + trail) == Filter.Accept
  {
    hide IpHeader, TcpHeader, Checksum, WellFormed, CheckField, Covered, Pseudo, Filter.Run, Filter.Link, Filter.Code;
    var p := Seal(src, dst, f, id, payload) + trail;
    var ip, tcp := IpHeader(src, dst, id, 20 + |payload|), TcpHeader(src, dst, f, SealCheck(src, dst, f, payload));
    SealedView(src, dst, f, id, SealCheck(src, dst, f, payload), payload, trail);
    SealedParts(ip, tcp, payload, trail);
    IpFields(src, dst, id, 20 + |payload|);
    NotFragmented(src, dst, id, 20 + |payload|);
    ForPeer(p, dst, port, addr);
    Filter.FilterIsRight(Filter.Inet(port, addr), p);
  }

  lemma ForPeer(p: seq<byte>, dst: Addr, port: nat, addr: nat)
    requires |p| >= 40 && p[0] == 0x45 && p[9] == IPPROTO_TCP && Read16(p, 6) == 0x4000
    requires p[16..20] == dst.ip && p[22..24] == dst.port
    requires port in {0, Read16(dst.port, 0)} && addr in {0, Read32(dst.ip, 0)}
    ensures Filter.Matches4(port, addr, p)
  {
    var w := p[16..20];
    assert p[22] == p[22..24][0] && p[23] == p[22..24][1];
    assert p[16] == w[0] && p[17] == w[1] && p[18] == w[2] && p[19] == w[3];
  }

  /** Don't fragment is set, and nothing else in that word. */
  lemma NotFragmented(src: Addr, dst: Addr, id: nat, plen: nat)
    requires 20 + plen < W16 && id < W16
    ensures Read16(IpHeader(src, dst, id, plen), 6) == 0x4000
  {
  }

  /** What else the sealed header says: it goes on from the captured segment by 1492
      and acknowledges it, with PSH and ACK set, and ECE to echo congestion. */
  lemma SealedFlow(src: Addr, dst: Addr, f: Flow, id: nat, payload: seq<byte>)
    requires |payload| <= ALL_ONES - 40 && id < W16
    ensures var p := Seal(src, dst, f, id, payload);
            && Read32(p, 24) == U32(f.capAckSeq + 1492) && Read32(p, 28) == U32(f.capSeq + 1)
            && p[33] == (if f.ecn then 0x40 else 0) + 0x10 + 0x08 && Read16(p, 34) == 32748
            && p[1] == 2 && p[8] == 64
  {
    hide IpHeader, Checksum, Big32;
    var tcp := TcpHeader(src, dst, f, SealCheck(src, dst, f, payload));
    var ip := IpHeader(src, dst, id, 20 + |payload|);
    SealedParts(ip, tcp, payload, []);
    assert Seal(src, dst, f, id, payload) == ip + tcp + payload + [];
    assert tcp[4..8] == Big32(U32(f.capAckSeq + 1492)) && tcp[8..12] == Big32(U32(f.capSeq + 1));
    WordBack(tcp, 4, U32(f.capAckSeq + 1492));
    WordBack(tcp, 8, U32(f.capSeq + 1));
    IpBytes(src, dst, id, 20 + |payload|);
  }

  lemma IpBytes(src: Addr, dst: Addr, id: nat, plen: nat)
    requires 20 + plen < W16 && id < W16
    ensures var b := IpHeader(src, dst, id, plen); b[1] == 2 && b[8] == 64
  {
  }

  lemma WordBack(b: seq<byte>, at: nat, x: nat)
    requires at + 4 <= |b| && x < W32 && b[at..at + 4] == Big32(x)
    ensures Read32(b, at) == x
  {
    var w := b[at..at + 4];
    assert b[at] == w[0] && b[at + 1] == w[1] && b[at + 2] == w[2] && b[at + 3] == w[3];
  }

  /** A sealed segment with its pseudo header sums to all ones. */
  lemma SealedSumsToAllOnes(src: Addr, dst: Addr, f: Flow, payload: seq<byte>)
    requires |payload| <= ALL_ONES - 40
    ensures OnesSum(WordSum(Pseudo(src.ip, dst.ip, 20 + |payload|)
                            + TcpHeader(src, dst, f, SealCheck(src, dst, f, payload)) + payload)) == ALL_ONES
  {
    hide TcpHeader, Pseudo, WordSum, OnesSum, Checksum;
    var check := SealCheck(src, dst, f, payload);
    CheckCounts(src, dst, f, check);
    WithCheck(Pseudo(src.ip, dst.ip, 20 + |payload|), TcpHeader(src, dst, f, 0), TcpHeader(src, dst, f, check),
              payload, check);
  }

  lemma WithCheck(pseudo: seq<byte>, zeroed: seq<byte>, tcp: seq<byte>, payload: seq<byte>, check: nat)
    requires |pseudo| == 12 && |zeroed| == |tcp| == 20
    requires check == Checksum(pseudo + zeroed + payload) && WordSum(tcp) == WordSum(zeroed) + check
    ensures OnesSum(WordSum(pseudo + tcp + payload)) == ALL_ONES
  {
    hide WordSum, OnesSum;
    SumThree(pseudo, tcp, payload);
    SumThree(pseudo, zeroed, payload);
    var rest := WordSum(pseudo + zeroed + payload);
    SumsToAllOnes(rest, check);
    assert WordSum(pseudo + tcp + payload) == rest + check;
  }

  lemma SumThree(a: seq<byte>, b: seq<byte>, c: seq<byte>)
    requires |a| == 12 && |b| == 20
    ensures WordSum(a + b + c) == WordSum(a) + WordSum(b) + WordSum(c)
  {
    hide WordSum;
    SumAppend(a, b);
    SumAppend(a + b, c);
  }

  lemma CheckCounts(src: Addr, dst: Addr, f: Flow, check: nat)
    requires check < W16
    ensures WordSum(TcpHeader(src, dst, f, check)) == WordSum(TcpHeader(src, dst, f, 0)) + check
  {
    hide WordSum;
    var b, z := TcpHeader(src, dst, f, check), TcpHeader(src, dst, f, 0);
    var pre, post := b[..16], b[18..];
    assert b == pre + Native16(check) + post && z == pre + Native16(0) + post;
    SumAppend(pre, Native16(check));
    SumAppend(pre + Native16(check), post);
    SumAppend(pre, Native16(0));
    SumAppend(pre + Native16(0), post);
    OneWord(check);
    OneWord(0);
  }

  lemma OneWord(x: nat)
    requires x < W16
    ensures WordSum(Native16(x)) == x
  {
    var b := Native16(x);
    assert b[2..] == [];
  }

  /** Which change of a single word the checksum misses: only one between 0 and
      0xffff, and only if some other byte is not zero. */
  lemma OneWordError(a: seq<byte>, w: nat, w': nat, b: seq<byte>)
    requires |a| % 2 == 0 && w < W16 && w' < W16
    ensures Checksum(a + Native16(w) + b) == Checksum(a + Native16(w') + b) <==>
            w == w' || (w in {0, ALL_ONES} && w' in {0, ALL_ONES} && WordSum(a) + WordSum(b) > 0)
  {
    hide WordSum, OnesSum, Native16, Checksum;
    var s := WordSum(a) + WordSum(b);
    ChecksumAround(a, w, b, s);
    ChecksumAround(a, w', b, s);
    SameOnesSum(s, w, w');
  }

  lemma ChecksumAround(a: seq<byte>, w: nat, b: seq<byte>, s: nat)
    requires |a| % 2 == 0 && w < W16 && s == WordSum(a) + WordSum(b)
    ensures Checksum(a + Native16(w) + b) == ALL_ONES - OnesSum(s + w)
  {
    hide WordSum, OnesSum, Native16, Checksum;
    SumAround(a, w, b);
    ChecksumOf(a + Native16(w) + b, s + w);
  }

  lemma ChecksumOf(data: seq<byte>, sum: nat)
    requires WordSum(data) == sum
    ensures Checksum(data) == ALL_ONES - OnesSum(sum)
  {
  }

  lemma SameOnesSum(s: nat, w: nat, w': nat)
    requires w < W16 && w' < W16
    ensures OnesSum(s + w) == OnesSum(s + w') <==> w == w' || (w in {0, ALL_ONES} && w' in {0, ALL_ONES} && s > 0)
  {
    hide OnesSum;
    OnesSumEqual(s + w, s + w');
    Shifted(s, w, w');
    assert w % ALL_ONES == if w == ALL_ONES then 0 else w;
    assert w' % ALL_ONES == if w' == ALL_ONES then 0 else w';
  }

  lemma SumAround(a: seq<byte>, w: nat, b: seq<byte>)
    requires |a| % 2 == 0 && w < W16
    ensures WordSum(a + Native16(w) + b) == WordSum(a) + WordSum(b) + w
  {
    hide WordSum, Native16;
    SumAppend(a, Native16(w));
    SumAppend(a + Native16(w), b);
    OneWord(w);
  }

  lemma Shifted(s: nat, w: nat, w': nat)
    requires w < W16 && w' < W16
    ensures (s + w) % ALL_ONES == (s + w') % ALL_ONES <==> w % ALL_ONES == w' % ALL_ONES
  {
    var q, r := s / ALL_ONES, s % ALL_ONES;
    DropMultiple(q, r + w);
    DropMultiple(q, r + w');
    RemainderOf(r, w);
    RemainderOf(r, w');
  }

  lemma DropMultiple(q: nat, x: nat)
    ensures (q * ALL_ONES + x) % ALL_ONES == x % ALL_ONES
  {
  }

  lemma RemainderOf(r: nat, w: nat)
    requires r < ALL_ONES && w < W16
    ensures var u := w % ALL_ONES; (r + w) % ALL_ONES == if r + u < ALL_ONES then r + u else r + u - ALL_ONES
  {
  }

  /** A sealed packet in which one word of the payload was changed on the way is
      dropped, unless the change is between 0 and 0xffff. */
  lemma CorruptionIsDropped(src: Addr, dst: Addr, f: Flow, id: nat, a: seq<byte>, w: nat, w': nat, b: seq<byte>,
                            trail: seq<byte>, bind: Addr, peers: set<Addr>, debug: bool)
    requires |a| % 2 == 0 && |a| + 2 + |b| <= ALL_ONES - 40 && id < W16 && w < W16 && w' < W16
    requires src.ip[0] != 127 && w != w' && !(w in {0, ALL_ONES} && w' in {0, ALL_ONES})
    ensures var payload, received := a + Native16(w) + b, a + Native16(w') + b;
            Open(bind, peers, debug,
                 IpHeader(src, dst, id, 20 + |payload|) + TcpHeader(src, dst, f, SealCheck(src, dst, f, payload))
                 + received + trail) == Dropped
  {
    hide Checksum, IpHeader, TcpHeader, Pseudo, Native16, Covered, Source, Destination, CheckField, Read16, WellFormed;
    var payload, received := a + Native16(w) + b, a + Native16(w') + b;
    var plen, check := 20 + |payload|, SealCheck(src, dst, f, payload);
    SealedView(src, dst, f, id, check, received, trail);
    var front := Pseudo(src.ip, dst.ip, plen) + TcpHeader(src, dst, f, 0);
    Regroup(front, a, Native16(w), b);
    Regroup(front, a, Native16(w'), b);
    OneWordError(front + a, w, w', b);
  }

  lemma Regroup(x: seq<byte>, a: seq<byte>, n: seq<byte>, b: seq<byte>)
    ensures x + (a + n + b) == (x + a) + n + b
  {
  }
}
