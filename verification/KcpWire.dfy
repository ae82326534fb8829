/** The byte layout of KCP segments and the parsing loop of ikcp_input. */
module KcpWire {
  import opened Words
  import opened Network
  import opened KcpModel

  // ---------------------------------------------------------------- big-endian words

  function Put16(x: int): (b: seq<byte>)
    ensures |b| == 2
  {
    [x / 256 % 256, x % 256]
  }

  function Put32(x: int): (b: seq<byte>)
    ensures |b| == 4
  {
    [x / 256 / 256 / 256 % 256, x / 256 / 256 % 256, x / 256 % 256, x % 256]
  }

  /** Writing a number and reading it back truncates it to the field. */
  lemma GetPut16(x: int)
    ensures Read16(Put16(x), 0) == U16(x)
  {
  }

  lemma GetPut32(x: int)
    ensures Read32(Put32(x), 0) == U32(x)
  {
    hide U32;
    var a := x / 256;
    var b := a / 256;
    var c := b / 256;
    Joined32(c % 256, b % 256, a % 256, x % 256, Put32(x));
    assert x == 256 * a + x % 256 && a == 256 * b + a % 256 && b == 256 * c + b % 256 && c == 256 * (c / 256) + c % 256;
    Remains(x, c / 256, Read32(Put32(x), 0));
  }

  /** Four bytes as one number. */
  lemma Joined32(a: byte, b: byte, c: byte, d: byte, s: seq<byte>)
    requires s == [a, b, c, d]
    ensures Read32(s, 0) == ((a as int * 256 + b) * 256 + c) * 256 + d
  {
  }

  lemma Remains(x: int, q: int, r: int)
    requires x == q * W32 + r && 0 <= r < W32
    ensures U32(x) == r
  {
    ModShift(r, q);
  }

  // ---------------------------------------------------------------- segments

  function EncodeHeader(s: Segment): (b: seq<byte>)
    ensures |b| == OVERHEAD
  {
    Put32(s.conv) + [s.cmd % 256, s.frg % 256] + Put16(s.wnd) + Put32(s.ts) + Put32(s.sn) +
    Put32(s.una) + Put32(|s.data|)
  }

  function Encode(s: Segment): seq<byte> { EncodeHeader(s) + s.data }

  function EncodeEach(segs: seq<Segment>): (r: seq<seq<byte>>)
    ensures |r| == |segs|
    ensures forall i :: 0 <= i < |segs| ==> r[i] == Encode(segs[i])
  {
    seq(|segs|, i requires 0 <= i < |segs| => Encode(segs[i]))
  }

  function EncodeAll(segs: seq<Segment>): seq<byte> { Flat(EncodeEach(segs)) }

  function EncodePackets(ps: seq<seq<Segment>>): (r: seq<seq<byte>>)
    ensures |r| == |ps|
    ensures forall i :: 0 <= i < |ps| ==> r[i] == EncodeAll(ps[i])
  {
    seq(|ps|, i requires 0 <= i < |ps| => EncodeAll(ps[i]))
  }

  /** A segment with every field cut to its width on the wire. */
  function Truncate(s: Segment): Segment {
    Segment(U32(s.conv), s.cmd % 256, s.frg % 256, U16(s.wnd), U32(s.ts), U32(s.sn), U32(s.una), s.data)
  }

  function TruncateAll(segs: seq<Segment>): (r: seq<Segment>)
    ensures |r| == |segs|
    ensures forall i :: 0 <= i < |segs| ==> r[i] == Truncate(segs[i])
  {
    if segs == [] then [] else [Truncate(segs[0])] + TruncateAll(segs[1..])
  }

  // ---------------------------------------------------------------- parsing

  predicate KnownCommand(cmd: int) {
    cmd == CMD_PUSH || cmd == CMD_ACK || cmd == CMD_WASK || cmd == CMD_WINS
  }

  /** The segments taken from a packet, and what ended the loop. */
  datatype Parsed = Parsed(segs: seq<Segment>, code: int)

  function HeadSegment(b: seq<byte>): Segment
    requires OVERHEAD <= |b| && OVERHEAD + Read32(b, 20) <= |b|
  {
    Segment(Read32(b, 0), b[4], b[5], Read16(b, 6), Read32(b, 8), Read32(b, 12), Read32(b, 16),
            b[OVERHEAD..OVERHEAD + Read32(b, 20)])
  }

  function Parse(conv: int, b: seq<byte>): Parsed
    decreases |b|
  {
    if |b| < OVERHEAD then Parsed([], 0)
    else if Read32(b, 0) != conv then Parsed([], -1)
    else if |b| - OVERHEAD < Read32(b, 20) || Read32(b, 20) >= H32 then Parsed([], -2)
    else if !KnownCommand(b[4]) then Parsed([], -3)
    else
      var rest := Parse(conv, b[OVERHEAD + Read32(b, 20)..]);
      Parsed([HeadSegment(b)] + rest.segs, rest.code)
  }

  datatype InputResult = InputResult(e: Endpoint, code: int)

  /** ikcp_input: segments before a malformed one have taken effect, but the
      window is only grown after a well-formed packet. */
  function InputBytes(m: Arith, e: Endpoint, b: seq<byte>): InputResult {
    if |b| < OVERHEAD then InputResult(e, -1)
    else
      var r := Parse(e.cfg.conv, b);
      var st := TakeSegments(m, Intake(e, false, 0, 0), r.segs);
      if r.code != 0 then InputResult(st.e, r.code)
      else InputResult(FinishInput(m, st, e.snd.una), 0)
  }

  // ---------------------------------------------------------------- round trip

  /** Segments a sender of conversation `conv` may build. */
  predicate Sendable(conv: int, s: Segment) {
    s.conv == conv && 0 <= conv < W32 && KnownCommand(s.cmd) && |s.data| < H32
  }

  /** Header `h` carries the truncated fields of `s`. */
  ghost predicate Fields(h: seq<byte>, s: Segment) {
    && |h| >= OVERHEAD
    && Read32(h, 0) == U32(s.conv) && h[4] == s.cmd % 256 && h[5] == s.frg % 256
    && Read16(h, 6) == U16(s.wnd) && Read32(h, 8) == U32(s.ts) && Read32(h, 12) == U32(s.sn)
    && Read32(h, 16) == U32(s.una) && Read32(h, 20) == U32(|s.data|)
  }

  lemma HeaderFields(s: Segment)
    ensures Fields(EncodeHeader(s), s)
  {
    GetPut32(s.conv); GetPut16(s.wnd); GetPut32(s.ts); GetPut32(s.sn); GetPut32(s.una); GetPut32(|s.data|);
  }

  /** The loop takes a segment whose header fields check out. */
  lemma ParseStep(conv: int, b: seq<byte>, data: seq<byte>, tail: seq<byte>)
    requires |b| >= OVERHEAD && b[OVERHEAD..] == data + tail
    requires Read32(b, 0) == conv && KnownCommand(b[4]) && Read32(b, 20) == |data| < H32
    ensures HeadSegment(b).data == data
    ensures Parse(conv, b) == Parsed([HeadSegment(b)] + Parse(conv, tail).segs, Parse(conv, tail).code)
  {
    assert b[OVERHEAD..OVERHEAD + |data|] == b[OVERHEAD..][..|data|] == data;
    assert b[OVERHEAD + |data|..] == b[OVERHEAD..][|data|..] == tail;
  }

  lemma FieldsPrefix(h: seq<byte>, b: seq<byte>, s: Segment)
    requires Fields(h, s) && h <= b
    ensures Fields(b, s)
  {
  }

  lemma ParseFramed(conv: int, h: seq<byte>, s: Segment, tail: seq<byte>)
    requires Sendable(conv, s) && |h| == OVERHEAD && Fields(h, s)
    ensures Parse(conv, h + (s.data + tail)) ==
            Parsed([Truncate(s)] + Parse(conv, tail).segs, Parse(conv, tail).code)
  {
    hide Read16, Read32, Parse;
    var b := h + (s.data + tail);
    FieldsPrefix(h, b, s);
    ParseStep(conv, b, s.data, tail);
  }

  /** One encoded segment in front of anything is parsed back. */
  lemma ParseHead(conv: int, s: Segment, tail: seq<byte>)
    requires Sendable(conv, s)
    ensures Parse(conv, Encode(s) + tail) ==
            Parsed([Truncate(s)] + Parse(conv, tail).segs, Parse(conv, tail).code)
  {
    HeaderFields(s);
    ParseFramed(conv, EncodeHeader(s), s, tail);
    Associate(EncodeHeader(s), s.data, tail);
  }

  lemma EncodeAllFront(s: Segment, segs: seq<Segment>)
    ensures EncodeAll([s] + segs) == Encode(s) + EncodeAll(segs)
  {
    assert EncodeEach([s] + segs) == [Encode(s)] + EncodeEach(segs);
  }

  lemma EncodeAllSnoc(segs: seq<Segment>, s: Segment)
    ensures EncodeAll(segs + [s]) == EncodeAll(segs) + Encode(s)
  {
    assert EncodeEach(segs + [s]) == EncodeEach(segs) + [Encode(s)];
    FlatSnoc(EncodeEach(segs), Encode(s));
  }

  /** The sizes that ikcp_flush budgets with are the sizes on the wire. */
  lemma {:induction false} EncodedSize(segs: seq<Segment>)
    ensures |EncodeAll(segs)| == PacketSize(segs)
  {
    if segs != [] {
      var init, last := segs[..|segs| - 1], segs[|segs| - 1];
      assert segs == init + [last];
      EncodedSize(init);
      EncodeAllSnoc(init, last);
    }
  }

  /** Encoding any list of segments, with any tail shorter than a header
      behind it, and parsing gives exactly that list, field by field. */
  lemma {:induction false} ParseEncode(conv: int, segs: seq<Segment>, pad: seq<byte>)
    requires forall s :: s in segs ==> Sendable(conv, s)
    requires |pad| < OVERHEAD
    ensures Parse(conv, EncodeAll(segs) + pad) == Parsed(TruncateAll(segs), 0)
  {
    if segs == [] {
      assert EncodeAll(segs) + pad == pad;
    } else {
      var tail := EncodeAll(segs[1..]) + pad;
      assert segs == [segs[0]] + segs[1..];
      EncodeAllFront(segs[0], segs[1..]);
      assert EncodeAll(segs) + pad == Encode(segs[0]) + tail;
      ParseEncode(conv, segs[1..], pad);
      ParseHead(conv, segs[0], tail);
    }
  }

  /** A padded packet has the same effect as the segments it was built from. */
  lemma InputPadded(m: Arith, e: Endpoint, segs: seq<Segment>, pad: seq<byte>)
    requires segs != [] && |pad| < OVERHEAD
    requires forall s :: s in segs ==> Sendable(e.cfg.conv, s)
    ensures InputBytes(m, e, EncodeAll(segs) + pad) == InputResult(Input(m, e, TruncateAll(segs)), 0)
  {
    ParseEncode(e.cfg.conv, segs, pad);
  }

  // ---------------------------------------------------------------- any bytes

  lemma PutRead16(b: seq<byte>, i: nat)
    requires i + 2 <= |b|
    ensures Put16(Read16(b, i)) == b[i..i + 2]
  {
  }

  lemma PutRead32(b: seq<byte>, i: nat)
    requires i + 4 <= |b|
    ensures Put32(Read32(b, i)) == b[i..i + 4]
  {
    hide Read32;
    var x, h, m, l := Read32(b, i), b[i] as int, b[i] as int * 256 + b[i + 1],
          (b[i] as int * 256 + b[i + 1]) * 256 + b[i + 2];
    ReadIs(b, i);
    LastByte(x, l, b[i + 3]);
    LastByte(l, m, b[i + 2]);
    LastByte(m, h, b[i + 1]);
  }

  lemma ReadIs(b: seq<byte>, i: nat)
    requires i + 4 <= |b|
    ensures Read32(b, i) == ((b[i] as int * 256 + b[i + 1]) * 256 + b[i + 2]) * 256 + b[i + 3]
  {
  }

  lemma LastByte(x: int, rest: int, c: byte)
    requires x == rest * 256 + c
    ensures x / 256 == rest && x % 256 == c
  {
  }

  /** A header is what its fields encode. */
  lemma HeadEncodes(b: seq<byte>)
    requires OVERHEAD <= |b| && OVERHEAD + Read32(b, 20) <= |b|
    ensures Encode(HeadSegment(b)) == b[..OVERHEAD + Read32(b, 20)]
  {
    hide Put16, Put32, Read16, Read32;
    PutRead32(b, 0);
    PutRead16(b, 6);
    PutRead32(b, 8);
    PutRead32(b, 12);
    PutRead32(b, 16);
    PutRead32(b, 20);
    var s, len := HeadSegment(b), Read32(b, 20);
    assert [s.cmd % 256, s.frg % 256] == b[4..6];
    assert EncodeHeader(s) == b[0..4] + b[4..6] + b[6..8] + b[8..12] + b[12..16] + b[16..20] + b[20..24];
    assert EncodeHeader(s) == b[..OVERHEAD];
    assert b[..OVERHEAD + len] == b[..OVERHEAD] + b[OVERHEAD..OVERHEAD + len];
  }

  /** Whether ikcp_input can take a segment from the front of `b`, and why not. */
  function Refusal(conv: int, b: seq<byte>): int {
    if |b| < OVERHEAD then 0
    else if Read32(b, 0) != conv then -1
    else if Read32(b, 20) > |b| - OVERHEAD || Read32(b, 20) >= H32 then -2
    else if b[4] !in {81, 82, 83, 84} then -3
    else 1
  }

  /** For any bytes: the segments taken are those that spell the front of them, and what
      follows cannot be taken, for the reason given. */
  lemma {:induction false} ParseIs(conv: int, b: seq<byte>) returns (rest: seq<byte>)
    ensures var r := Parse(conv, b);
            && b == EncodeAll(r.segs) + rest && (forall s :: s in r.segs ==> s.conv == conv && KnownCommand(s.cmd))
            && Refusal(conv, rest) <= 0 && r.code == Refusal(conv, rest)
    decreases |b|
  {
    hide HeadSegment, Encode, Read32;
    if Refusal(conv, b) <= 0 {
      rest := b;
      assert EncodeAll([]) + b == b;
    } else {
      var n := OVERHEAD + Read32(b, 20);
      rest := ParseIs(conv, b[n..]);
      var tail := Parse(conv, b[n..]).segs;
      HeadEncodes(b);
      HeadIs(b);
      EncodeAllFront(HeadSegment(b), tail);
      Associate(Encode(HeadSegment(b)), EncodeAll(tail), rest);
      assert b == b[..n] + b[n..];
    }
  }

  lemma HeadIs(b: seq<byte>)
    requires OVERHEAD <= |b| && OVERHEAD + Read32(b, 20) <= |b|
    ensures HeadSegment(b).conv == Read32(b, 0) && HeadSegment(b).cmd == b[4]
  {
  }
}
