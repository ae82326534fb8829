/** The packet filter compiler of src/obfs.c and the machine its programs run
    on. A program is built from fragments whose failing tests jump to -1; a last
    pass links those jumps to the final instruction, which rejects. */
module Filter {
  import opened Words
  import opened Network

  const UNLINKED := 255

  // ---------------------------------------------------------------- the machine

  datatype Insn =
    | LdB(k: nat) | LdH(k: nat) | LdW(k: nat)      // A := packet[k..]
    | LdHInd(k: nat)                               // A := packet[X + k..]
    | LdxMsh(k: nat)                               // X := 4 * (packet[k] & 0xf)
    | AndK(k: nat)
    | Jeq(k: nat, jt: nat, jf: nat)
    | Jset(k: nat, jt: nat, jf: nat)
    | Ret(k: nat)

  datatype Verdict = Accept | Reject | Stuck

  /** Bitwise and. */
  function And(a: nat, b: nat): nat {
    if a == 0 || b == 0 then 0
    else 2 * And(a / 2, b / 2) + if a % 2 == 1 && b % 2 == 1 then 1 else 0
  }

  /** Runs `prog` from `pc`; a load outside the packet rejects it. */
  function Run(prog: seq<Insn>, pc: nat, a: nat, x: nat, p: seq<byte>): Verdict
    decreases |prog| - pc
  {
    if pc >= |prog| then Stuck
    else
      match prog[pc]
      case LdB(k) => if k < |p| then Run(prog, pc + 1, p[k], x, p) else Reject
      case LdH(k) => if k + 2 <= |p| then Run(prog, pc + 1, Read16(p, k), x, p) else Reject
      case LdW(k) => if k + 4 <= |p| then Run(prog, pc + 1, Read32(p, k), x, p) else Reject
      case LdHInd(k) => if x + k + 2 <= |p| then Run(prog, pc + 1, Read16(p, x + k), x, p) else Reject
      case LdxMsh(k) => if k < |p| then Run(prog, pc + 1, a, 4 * And(p[k], 0xf), p) else Reject
      case AndK(k) => Run(prog, pc + 1, And(a, k), x, p)
      case Jeq(k, jt, jf) => Run(prog, pc + 1 + (if a == k then jt else jf), a, x, p)
      case Jset(k, jt, jf) => Run(prog, pc + 1 + (if And(a, k) != 0 then jt else jf), a, x, p)
      case Ret(k) => if k != 0 then Accept else Reject
  }

  // ---------------------------------------------------------------- what is compiled

  /** The address to bind to, in host byte order; 0 leaves a part open. */
  datatype Bind =
    | Inet(port: nat, addr: nat)
    | Inet6(port: nat, words: (nat, nat, nat, nat))
    | OtherFamily

  function Tcp4(): seq<Insn> {
    [LdB(0), AndK(0xf0), Jeq(0x40, 0, UNLINKED),
     LdB(9), Jeq(IPPROTO_TCP, 0, UNLINKED),
     LdH(6), Jset(0x1fff, UNLINKED, 0)]
  }

  function Port4(port: nat): seq<Insn> {
    if port == 0 then [] else [LdxMsh(0), LdHInd(2), Jeq(port, 0, UNLINKED)]
  }

  function Addr4(addr: nat): seq<Insn> {
    if addr == 0 then [] else [LdW(0x10), Jeq(addr, 0, UNLINKED)]
  }

  function Tcp6(): seq<Insn> {
    [LdB(0), AndK(0xf0), Jeq(0x60, 0, UNLINKED), LdB(6), Jeq(IPPROTO_TCP, 0, UNLINKED)]
  }

  function Port6(port: nat): seq<Insn> {
    if port == 0 then [] else [LdH(0x2a), Jeq(port, 0, UNLINKED)]
  }

  function Addr6(w: (nat, nat, nat, nat)): seq<Insn> {
    if w == (0, 0, 0, 0) then []
    else [LdW(0x18), Jeq(w.0, 0, UNLINKED), LdW(0x1c), Jeq(w.1, 0, UNLINKED),
          LdW(0x20), Jeq(w.2, 0, UNLINKED), LdW(0x24), Jeq(w.3, 0, UNLINKED)]
  }

  function Tests(b: Bind): seq<Insn> {
    match b
    case Inet(port, addr) => Tcp4() + Port4(port) + Addr4(addr)
    case Inet6(port, w) => Tcp6() + Port6(port) + Addr6(w)
    case OtherFamily => []
  }

  function Code(b: Bind): seq<Insn> { Tests(b) + [Ret(0xffff_ffff), Ret(0)] }

  /** A jump offset after the link pass, in 8-bit arithmetic. */
  function Offset(j: nat, i: nat, len: nat): nat {
    if j >= 128 then (j + (len - (i + 1)) % 256) % 256 else j
  }

  function LinkInsn(c: Insn, i: nat, len: nat): Insn {
    match c
    case Jeq(k, jt, jf) => Jeq(k, Offset(jt, i, len), Offset(jf, i, len))
    case Jset(k, jt, jf) => Jset(k, Offset(jt, i, len), Offset(jf, i, len))
    case _ => c
  }

  function Link(code: seq<Insn>): seq<Insn> {
    seq(|code|, i requires 0 <= i < |code| => LinkInsn(code[i], i, |code|))
  }

  /** Appends a fragment if the array has room, as FILTER_GENCODE does. */
  method Gen(filter: array<Insn>, len: nat, fragment: seq<Insn>) returns (ok: bool, len': nat)
    requires len <= filter.Length
    modifies filter
    ensures ok <==> len + |fragment| <= filter.Length
    ensures ok ==> len' == len + |fragment| && filter[..len'] == old(filter[..len]) + fragment
    ensures !ok ==> len' == len && filter[..] == old(filter[..])
  {
    len' := len;
    ok := len + |fragment| <= filter.Length;
    if ok {
      for i := 0 to |fragment|
        invariant len' == len + i && filter[..len'] == old(filter[..len]) + fragment[..i]
      {
        filter[len'] := fragment[i];
        len' := len' + 1;
        assert filter[..len'] == filter[..len + i] + [fragment[i]];
        assert fragment[..i + 1] == fragment[..i] + [fragment[i]];
      }
    }
  }

  /** The link pass. */
  method LinkPass(filter: array<Insn>, len: nat)
    requires len <= filter.Length
    modifies filter
    ensures filter[..len] == Link(old(filter[..len]))
  {
    ghost var code := filter[..len];
    for i := 0 to len
      invariant forall j :: 0 <= j < i ==> filter[j] == LinkInsn(code[j], j, len)
      invariant forall j :: i <= j < len ==> filter[j] == code[j]
    {
      filter[i] := LinkInsn(filter[i], i, len);
    }
  }

  /** filter_compile: it succeeds exactly when the program fits the array. */
  method Compile(filter: array<Insn>, b: Bind) returns (ok: bool, len: nat)
    modifies filter
    ensures ok <==> |Code(b)| <= filter.Length
    ensures ok ==> len <= filter.Length && filter[..len] == Link(Code(b))
  {
    hide Tcp4, Port4, Addr4, Tcp6, Port6, Addr6, Link;
    len := 0;
    ok := true;
    if b.Inet? {
      ok, len := Gen(filter, len, Tcp4());
      if ok {
        ok, len := Gen(filter, len, Port4(b.port));
      }
      if ok {
        ok, len := Gen(filter, len, Addr4(b.addr));
      }
    } else if b.Inet6? {
      ok, len := Gen(filter, len, Tcp6());
      if ok {
        ok, len := Gen(filter, len, Port6(b.port));
      }
      if ok {
        ok, len := Gen(filter, len, Addr6(b.words));
      }
    }
    if ok {
      assert filter[..len] == Tests(b);
      ok, len := Gen(filter, len, [Ret(0xffff_ffff), Ret(0)]);
    }
    if ok {
      LinkPass(filter, len);
    }
  }

  // ---------------------------------------------------------------- what it should accept

  /** TCP over IPv4 that is not a later fragment, to the port and address given. */
  predicate Matches4(port: nat, addr: nat, p: seq<byte>) {
    && |p| >= 10 && p[0] / 16 == 4 && p[9] == IPPROTO_TCP && Read16(p, 6) % 0x2000 == 0
    && (port != 0 ==> var h := 4 * (p[0] % 16); h + 4 <= |p| && Read16(p, h + 2) == port)
    && (addr != 0 ==> 20 <= |p| && Read32(p, 16) == addr)
  }

  /** TCP directly over IPv6, to the port and address given. */
  predicate Matches6(port: nat, w: (nat, nat, nat, nat), p: seq<byte>) {
    && |p| >= 7 && p[0] / 16 == 6 && p[6] == IPPROTO_TCP
    && (port != 0 ==> 44 <= |p| && Read16(p, 42) == port)
    && (w != (0, 0, 0, 0) ==> 40 <= |p| && (Read32(p, 24), Read32(p, 28), Read32(p, 32), Read32(p, 36)) == w)
  }

  predicate Matches(b: Bind, p: seq<byte>) {
    match b
    case Inet(port, addr) => Matches4(port, addr, p)
    case Inet6(port, w) => Matches6(port, w, p)
    case OtherFamily => true
  }

  // ---------------------------------------------------------------- masks

  function Pow2(n: nat): (r: nat)
    ensures r > 0
  {
    if n == 0 then 1 else 2 * Pow2(n - 1)
  }

  /** A mask of low bits takes the remainder. */
  lemma {:induction false} LowBits(a: nat, n: nat)
    ensures And(a, Pow2(n) - 1) == a % Pow2(n)
  {
    if n > 0 {
      LowBits(a / 2, n - 1);
      OneMoreBit(a, Pow2(n - 1));
    }
  }

  lemma OneMoreBit(a: nat, m: nat)
    requires m > 0 && And(a / 2, m - 1) == (a / 2) % m
    ensures And(a, 2 * m - 1) == a % (2 * m)
  {
    var b := 2 * m - 1;
    assert b / 2 == m - 1 && b % 2 == 1;
    assert And(a, b) == 2 * And(a / 2, b / 2) + a % 2;
    HalfMod(a, m);
  }

  lemma HalfMod(a: nat, m: nat)
    requires m > 0
    ensures a % (2 * m) == 2 * ((a / 2) % m) + a % 2
  {
    var h := a / 2;
    var q, r, b := h / m, h % m, a % 2;
    Doubled(a, h, m, q, r, b);
    RemainderIs(a, 2 * m, q, 2 * r + b);
  }

  lemma Doubled(a: int, h: int, m: int, q: int, r: int, b: int)
    requires h == m * q + r && a == 2 * h + b
    ensures a == (2 * m) * q + (2 * r + b)
  {
    assert (2 * m) * q == 2 * (m * q);
  }

  lemma RemainderIs(a: int, d: int, q: int, r: int)
    requires d > 0 && a == d * q + r && 0 <= r < d
    ensures a % d == r
  {
    var u := q - a / d;
    assert a == d * (a / d) + a % d;
    assert d * u == a % d - r by {
      assert d * u == d * q - d * (a / d);
    }
    assert u >= 1 ==> d * u >= d;
    assert u <= -1 ==> d * u <= -d;
  }

  lemma AndDouble(a: nat, b: nat)
    ensures And(a, 2 * b) == 2 * And(a / 2, b)
  {
  }

  lemma HighNibble(a: byte)
    ensures And(a, 0xf0) == a / 16 * 16
  {
    hide And, Pow2;
    var a1: nat, a2: nat, a3: nat, a4: nat := a / 2, a / 4, a / 8, a / 16;
    AndDouble(a, 0x78);
    AndDouble(a1, 0x3c);
    AndDouble(a2, 0x1e);
    AndDouble(a3, 0xf);
    assert And(a, 0xf0) == 16 * And(a4, 0xf);
    LowBits(a4, 4);
    SmallPowers();
  }

  lemma LowNibble(a: byte)
    ensures And(a, 0xf) == a % 16
  {
    LowBits(a, 4);
    SmallPowers();
  }

  lemma FragmentBits(a: nat)
    ensures And(a, 0x1fff) == a % 0x2000
  {
    LowBits(a, 13);
    SmallPowers();
  }

  lemma SmallPowers()
    ensures Pow2(4) == 16 && Pow2(13) == 0x2000
  {
    assert Pow2(2) == 4;
    assert Pow2(4) == 16;
    assert Pow2(6) == 64;
    assert Pow2(8) == 256;
    assert Pow2(10) == 1024;
    assert Pow2(12) == 4096;
  }

  // ---------------------------------------------------------------- the compiler is right

  /** A linked program, short enough for 8-bit offsets, that ends in accept and reject. */
  ghost predicate Whole(prog: seq<Insn>) {
    2 <= |prog| <= 64 && prog[|prog| - 2] == Ret(0xffff_ffff) && prog[|prog| - 1] == Ret(0)
  }

  /** `fragment` was compiled to position `pc`. */
  ghost predicate Placed(prog: seq<Insn>, pc: nat, fragment: seq<Insn>) {
    && pc + |fragment| <= |prog| - 2
    && (forall j :: 0 <= j < |fragment| ==> prog[pc + j] == LinkInsn(fragment[j], pc + j, |prog|))
  }

  /** Every -1 leads to the last instruction. */
  lemma LinksToReject(i: nat, len: nat)
    requires i + 2 <= len <= 64
    ensures i + 1 + Offset(UNLINKED, i, len) == len - 1
  {
  }

  predicate Plain(c: Insn) {
    c.Jeq? || c.Jset? ==> (c.jt == 0 || c.jt == UNLINKED) && (c.jf == 0 || c.jf == UNLINKED)
  }

  lemma TestsPlain(b: Bind)
    ensures |Tests(b)| <= 15 && (forall c :: c in Tests(b) ==> Plain(c))
  {
    match b
    case Inet(port, addr) =>
      assert forall c :: c in Tests(b) ==> c in Tcp4() || c in Port4(port) || c in Addr4(addr);
    case Inet6(port, w) =>
      assert forall c :: c in Tests(b) ==> c in Tcp6() || c in Port6(port) || c in Addr6(w);
    case OtherFamily =>
  }

  /** Every jump of a linked program goes forward and stays inside it; those that
      were -1 reach the reject. The program takes at most 17 of the 32 slots. */
  lemma JumpsGoForward(b: Bind, i: nat)
    requires i < |Code(b)|
    ensures var c, l, n := Code(b)[i], Link(Code(b))[i], |Code(b)|;
            && n <= 17
            && (c.Jeq? || c.Jset? ==>
                  && l == LinkInsn(c, i, n) && i + 1 + l.jt < n && i + 1 + l.jf < n
                  && (c.jt == UNLINKED ==> i + 1 + l.jt == n - 1) && (c.jf == UNLINKED ==> i + 1 + l.jf == n - 1)
                  && (c.jt != UNLINKED ==> l.jt == 0) && (c.jf != UNLINKED ==> l.jf == 0))
  {
    hide Tests;
    TestsPlain(b);
    if i < |Tests(b)| {
      assert Code(b)[i] == Tests(b)[i] && Tests(b)[i] in Tests(b);
      LinksToReject(i, |Code(b)|);
    }
  }

  lemma Ends(prog: seq<Insn>, a: nat, x: nat, p: seq<byte>)
    requires Whole(prog)
    ensures Run(prog, |prog| - 1, a, x, p) == Reject && Run(prog, |prog| - 2, a, x, p) == Accept
  {
  }

  lemma JeqRuns(prog: seq<Insn>, pc: nat, a: nat, x: nat, p: seq<byte>, k: nat)
    requires Whole(prog) && Placed(prog, pc, [Jeq(k, 0, UNLINKED)])
    ensures Run(prog, pc, a, x, p) == if a == k then Run(prog, pc + 1, a, x, p) else Reject
  {
    assert prog[pc + 0] == LinkInsn([Jeq(k, 0, UNLINKED)][0], pc, |prog|);
    LinksToReject(pc, |prog|);
    Ends(prog, a, x, p);
  }

  /** A part of a placed fragment is placed. */
  lemma Part(prog: seq<Insn>, pc: nat, fragment: seq<Insn>, i: nat, j: nat)
    requires Placed(prog, pc, fragment) && i <= j <= |fragment|
    ensures Placed(prog, pc + i, fragment[i..j])
  {
    forall k | 0 <= k < j - i
      ensures prog[pc + i + k] == LinkInsn(fragment[i..j][k], pc + i + k, |prog|)
    {
      assert prog[pc + (i + k)] == LinkInsn(fragment[i + k], pc + (i + k), |prog|);
    }
  }

  lemma ByteRuns(prog: seq<Insn>, pc: nat, a: nat, x: nat, p: seq<byte>, k: nat, v: nat)
    requires Whole(prog) && Placed(prog, pc, [LdB(k), Jeq(v, 0, UNLINKED)])
    ensures Run(prog, pc, a, x, p) == if k < |p| && p[k] == v then Run(prog, pc + 2, v, x, p) else Reject
  {
    var f := [LdB(k), Jeq(v, 0, UNLINKED)];
    assert prog[pc + 0] == LinkInsn(f[0], pc, |prog|);
    Part(prog, pc, f, 1, 2);
    assert f[1..2] == [Jeq(v, 0, UNLINKED)];
    if k < |p| {
      JeqRuns(prog, pc + 1, p[k], x, p, v);
    }
  }

  lemma WordRuns(prog: seq<Insn>, pc: nat, a: nat, x: nat, p: seq<byte>, k: nat, v: nat)
    requires Whole(prog) && Placed(prog, pc, [LdW(k), Jeq(v, 0, UNLINKED)])
    ensures Run(prog, pc, a, x, p) == if k + 4 <= |p| && Read32(p, k) == v then Run(prog, pc + 2, v, x, p) else Reject
  {
    var f := [LdW(k), Jeq(v, 0, UNLINKED)];
    assert prog[pc + 0] == LinkInsn(f[0], pc, |prog|);
    Part(prog, pc, f, 1, 2);
    assert f[1..2] == [Jeq(v, 0, UNLINKED)];
    if k + 4 <= |p| {
      JeqRuns(prog, pc + 1, Read32(p, k), x, p, v);
    }
  }

  lemma HalfRuns(prog: seq<Insn>, pc: nat, a: nat, x: nat, p: seq<byte>, k: nat, v: nat)
    requires Whole(prog) && Placed(prog, pc, [LdH(k), Jeq(v, 0, UNLINKED)])
    ensures Run(prog, pc, a, x, p) == if k + 2 <= |p| && Read16(p, k) == v then Run(prog, pc + 2, v, x, p) else Reject
  {
    var f := [LdH(k), Jeq(v, 0, UNLINKED)];
    assert prog[pc + 0] == LinkInsn(f[0], pc, |prog|);
    Part(prog, pc, f, 1, 2);
    assert f[1..2] == [Jeq(v, 0, UNLINKED)];
    if k + 2 <= |p| {
      JeqRuns(prog, pc + 1, Read16(p, k), x, p, v);
    }
  }

  lemma VersionRuns(prog: seq<Insn>, pc: nat, a: nat, x: nat, p: seq<byte>, v: nat)
    requires Whole(prog) && Placed(prog, pc, [LdB(0), AndK(0xf0), Jeq(16 * v, 0, UNLINKED)])
    ensures Run(prog, pc, a, x, p) == if 0 < |p| && p[0] / 16 == v then Run(prog, pc + 3, 16 * v, x, p) else Reject
  {
    hide And;
    var f := [LdB(0), AndK(0xf0), Jeq(16 * v, 0, UNLINKED)];
    assert prog[pc + 0] == LinkInsn(f[0], pc, |prog|);
    assert prog[pc + 1] == LinkInsn(f[1], pc + 1, |prog|);
    Part(prog, pc, f, 2, 3);
    assert f[2..3] == [Jeq(16 * v, 0, UNLINKED)];
    if 0 < |p| {
      HighNibble(p[0]);
      JeqRuns(prog, pc + 2, And(p[0], 0xf0), x, p, 16 * v);
    }
  }

  lemma FragmentRuns(prog: seq<Insn>, pc: nat, a: nat, x: nat, p: seq<byte>)
    requires Whole(prog) && Placed(prog, pc, [LdH(6), Jset(0x1fff, UNLINKED, 0)])
    ensures Run(prog, pc, a, x, p) ==
            if 8 <= |p| && Read16(p, 6) % 0x2000 == 0 then Run(prog, pc + 2, Read16(p, 6), x, p) else Reject
  {
    hide And;
    var f := [LdH(6), Jset(0x1fff, UNLINKED, 0)];
    assert prog[pc + 0] == LinkInsn(f[0], pc, |prog|);
    assert prog[pc + 1] == LinkInsn(f[1], pc + 1, |prog|);
    LinksToReject(pc + 1, |prog|);
    if 8 <= |p| {
      FragmentBits(Read16(p, 6));
      Ends(prog, Read16(p, 6), x, p);
    }
  }

  lemma Port4Runs(prog: seq<Insn>, pc: nat, a: nat, x: nat, p: seq<byte>, port: nat)
    requires Whole(prog) && Placed(prog, pc, [LdxMsh(0), LdHInd(2), Jeq(port, 0, UNLINKED)]) && 0 < |p|
    ensures var h := 4 * (p[0] % 16);
            Run(prog, pc, a, x, p) ==
            if h + 4 <= |p| && Read16(p, h + 2) == port then Run(prog, pc + 3, port, h, p) else Reject
  {
    hide And;
    var f := [LdxMsh(0), LdHInd(2), Jeq(port, 0, UNLINKED)];
    assert prog[pc + 0] == LinkInsn(f[0], pc, |prog|);
    assert prog[pc + 1] == LinkInsn(f[1], pc + 1, |prog|);
    Part(prog, pc, f, 2, 3);
    assert f[2..3] == [Jeq(port, 0, UNLINKED)];
    LowNibble(p[0]);
    var h := 4 * (p[0] % 16);
    if h + 4 <= |p| {
      JeqRuns(prog, pc + 2, Read16(p, h + 2), h, p, port);
    }
  }

  lemma Tcp4Runs(prog: seq<Insn>, pc: nat, a: nat, x: nat, p: seq<byte>)
    requires Whole(prog) && Placed(prog, pc, Tcp4())
    ensures Run(prog, pc, a, x, p) ==
            if Matches4(0, 0, p) then Run(prog, pc + 7, Read16(p, 6), x, p) else Reject
  {
    hide Run, LinkInsn;
    var f := Tcp4();
    Part(prog, pc, f, 0, 3);
    Part(prog, pc, f, 3, 5);
    Part(prog, pc, f, 5, 7);
    assert f[0..3] == [LdB(0), AndK(0xf0), Jeq(16 * 4, 0, UNLINKED)];
    assert f[3..5] == [LdB(9), Jeq(IPPROTO_TCP, 0, UNLINKED)];
    assert f[5..7] == [LdH(6), Jset(0x1fff, UNLINKED, 0)];
    VersionRuns(prog, pc, a, x, p, 4);
    ByteRuns(prog, pc + 3, 0x40, x, p, 9, IPPROTO_TCP);
    FragmentRuns(prog, pc + 5, IPPROTO_TCP, x, p);
  }

  lemma Tcp6Runs(prog: seq<Insn>, pc: nat, a: nat, x: nat, p: seq<byte>)
    requires Whole(prog) && Placed(prog, pc, Tcp6())
    ensures Run(prog, pc, a, x, p) ==
            if Matches6(0, (0, 0, 0, 0), p) then Run(prog, pc + 5, IPPROTO_TCP, x, p) else Reject
  {
    hide Run, LinkInsn;
    var f := Tcp6();
    Part(prog, pc, f, 0, 3);
    Part(prog, pc, f, 3, 5);
    assert f[0..3] == [LdB(0), AndK(0xf0), Jeq(16 * 6, 0, UNLINKED)];
    assert f[3..5] == [LdB(6), Jeq(IPPROTO_TCP, 0, UNLINKED)];
    VersionRuns(prog, pc, a, x, p, 6);
    ByteRuns(prog, pc + 3, 0x60, x, p, 6, IPPROTO_TCP);
  }

  lemma Addr6Runs(prog: seq<Insn>, pc: nat, a: nat, x: nat, p: seq<byte>, w: (nat, nat, nat, nat))
    requires Whole(prog) && Placed(prog, pc, Addr6(w)) && w != (0, 0, 0, 0)
    ensures Run(prog, pc, a, x, p) ==
            if 40 <= |p| && (Read32(p, 24), Read32(p, 28), Read32(p, 32), Read32(p, 36)) == w
            then Run(prog, pc + 8, w.3, x, p) else Reject
  {
    hide Run, LinkInsn, Read32;
    var f := Addr6(w);
    Part(prog, pc, f, 0, 2);
    Part(prog, pc, f, 2, 4);
    Part(prog, pc, f, 4, 6);
    Part(prog, pc, f, 6, 8);
    assert f[0..2] == [LdW(24), Jeq(w.0, 0, UNLINKED)];
    assert f[2..4] == [LdW(28), Jeq(w.1, 0, UNLINKED)];
    assert f[4..6] == [LdW(32), Jeq(w.2, 0, UNLINKED)];
    assert f[6..8] == [LdW(36), Jeq(w.3, 0, UNLINKED)];
    WordRuns(prog, pc, a, x, p, 24, w.0);
    WordRuns(prog, pc + 2, w.0, x, p, 28, w.1);
    WordRuns(prog, pc + 4, w.1, x, p, 32, w.2);
    WordRuns(prog, pc + 6, w.2, x, p, 36, w.3);
  }

  /** Consecutive fragments of the code are placed one after the other. */
  lemma Consecutive(b: Bind, before: seq<Insn>, fragment: seq<Insn>, after: seq<Insn>)
    requires Tests(b) == before + fragment + after
    ensures Placed(Link(Code(b)), |before|, fragment)
  {
    hide Tests;
    var prog, code := Link(Code(b)), Code(b);
    forall j | 0 <= j < |fragment|
      ensures prog[|before| + j] == LinkInsn(fragment[j], |before| + j, |prog|)
    {
      assert code[|before| + j] == Tests(b)[|before| + j] == fragment[j];
    }
  }

  lemma CodeIsWhole(b: Bind)
    ensures Whole(Link(Code(b)))
  {
    hide Tests;
    TestsPlain(b);
  }

  /** For every address and every packet the compiled program accepts exactly the
      packets of `Matches`, and it always comes to a verdict. */
  lemma FilterIsRight(b: Bind, p: seq<byte>)
    ensures Run(Link(Code(b)), 0, 0, 0, p) == if Matches(b, p) then Accept else Reject
  {
    hide Run, Placed, LinkInsn;
    var prog := Link(Code(b));
    CodeIsWhole(b);
    match b
    case Inet(port, addr) => Inet4Right(port, addr, p);
    case Inet6(port, w) => Inet6Right(port, w, p);
    case OtherFamily => Ends(prog, 0, 0, p);
  }

  /** An IPv4 packet that is no fragment: the more-fragments bit is clear and the
      offset is 0. */
  predicate Unfragmented(p: seq<byte>)
    requires |p| >= 8
  {
    Read16(p, 6) % 0x4000 == 0
  }

  predicate MoreFragments(p: seq<byte>)
    requires |p| >= 8
  {
    p[6] / 0x20 % 2 == 1
  }

  /** The program looks at the offset only: of what it accepts, exactly the packets
      with the more-fragments bit clear are unfragmented. */
  lemma AcceptedMayBeFirstFragment(port: nat, addr: nat, p: seq<byte>)
    requires Run(Link(Code(Inet(port, addr))), 0, 0, 0, p) == Accept
    ensures |p| >= 8 && (Unfragmented(p) <==> !MoreFragments(p))
  {
    hide Run, Link, Code, Read32;
    FilterIsRight(Inet(port, addr), p);
  }

  /** Setting the more-fragments bit of a packet with a full IP header never changes
      the verdict: a first fragment is accepted wherever the whole packet would be. */
  lemma FirstFragmentAccepted(port: nat, addr: nat, p: seq<byte>)
    requires |p| >= 8 && p[0] % 16 >= 5 && !MoreFragments(p)
    ensures var q := p[6 := p[6] + 0x20];
            && MoreFragments(q)
            && Run(Link(Code(Inet(port, addr))), 0, 0, 0, q) == Run(Link(Code(Inet(port, addr))), 0, 0, 0, p)
  {
    hide Run, Link, Code;
    var q := p[6 := p[6] + 0x20];
    FilterIsRight(Inet(port, addr), p);
    FilterIsRight(Inet(port, addr), q);
    assert Read16(q, 6) == Read16(p, 6) + 0x2000;
    var h := 4 * (p[0] % 16);
    assert Matches4(port, addr, q) == Matches4(port, addr, p);
  }

  lemma Inet4Right(port: nat, addr: nat, p: seq<byte>)
    requires Whole(Link(Code(Inet(port, addr))))
    ensures Run(Link(Code(Inet(port, addr))), 0, 0, 0, p) == if Matches4(port, addr, p) then Accept else Reject
  {
    hide Run, Placed, LinkInsn, Read16, Read32;
    var b := Inet(port, addr);
    var prog, t, q, d := Link(Code(b)), Tcp4(), Port4(port), Addr4(addr);
    assert [] + t + (q + d) == Tests(b);
    assert t + q + d == Tests(b) && (t + q) + d + [] == Tests(b);
    Consecutive(b, [], t, q + d);
    Consecutive(b, t, q, d);
    Consecutive(b, t + q, d, []);
    Tcp4Runs(prog, 0, 0, 0, p);
    if Matches4(0, 0, p) {
      var a, x := Read16(p, 6), 0;
      if port != 0 {
        Port4Runs(prog, 7, a, x, p, port);
        a, x := port, 4 * (p[0] % 16);
      }
      if addr != 0 {
        WordRuns(prog, 7 + |q|, a, x, p, 16, addr);
        a := addr;
      }
      Ends(prog, a, x, p);
    }
  }

  lemma Inet6Right(port: nat, w: (nat, nat, nat, nat), p: seq<byte>)
    requires Whole(Link(Code(Inet6(port, w))))
    ensures Run(Link(Code(Inet6(port, w))), 0, 0, 0, p) == if Matches6(port, w, p) then Accept else Reject
  {
    hide Run, Placed, LinkInsn, Read16, Read32;
    var b := Inet6(port, w);
    var prog, t, q, d := Link(Code(b)), Tcp6(), Port6(port), Addr6(w);
    assert [] + t + (q + d) == Tests(b);
    assert t + q + d == Tests(b) && (t + q) + d + [] == Tests(b);
    Consecutive(b, [], t, q + d);
    Consecutive(b, t, q, d);
    Consecutive(b, t + q, d, []);
    Tcp6Runs(prog, 0, 0, 0, p);
    if Matches6(0, (0, 0, 0, 0), p) {
      var a := IPPROTO_TCP;
      if port != 0 {
        HalfRuns(prog, 5, a, 0, p, 42, port);
        a := port;
      }
      if w != (0, 0, 0, 0) {
        Addr6Runs(prog, 5 + |q|, a, 0, p, w);
        a := w.3;
      }
      Ends(prog, a, 0, p);
    }
  }
}
