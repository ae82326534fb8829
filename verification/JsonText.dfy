/** JSON strings as contrib/cjson/cJSON.c escapes and unescapes them. */
module JsonText {
  import opened Words

  const QUOTE: byte := 34
  const BACKSLASH: byte := 92

  datatype Option<T> = None | Some(value: T)

  /** A parsed value and the offset behind it. */
  datatype Got<T> = Fail | Got(value: T, at: nat)

  // ---------------------------------------------------------------- printing

  function HexChar(d: nat): byte
    requires d < 16
  {
    if d < 10 then 48 + d else 87 + d
  }

  /** How one byte of a string is printed. */
  function Escape(c: byte): (e: seq<byte>)
    ensures 0 < |e| <= 6
  {
    if c > 31 && c != QUOTE && c != BACKSLASH then [c]
    else if c == BACKSLASH || c == QUOTE then [BACKSLASH, c]
    else if c == 8 then [BACKSLASH, 98]
    else if c == 12 then [BACKSLASH, 102]
    else if c == 10 then [BACKSLASH, 110]
    else if c == 13 then [BACKSLASH, 114]
    else if c == 9 then [BACKSLASH, 116]
    else [BACKSLASH, 117, 48, 48, HexChar(c / 16), HexChar(c % 16)]
  }

  function EscapeAll(text: seq<byte>): seq<byte> {
    if text == [] then [] else Escape(text[0]) + EscapeAll(text[1..])
  }

  function Quoted(text: seq<byte>): seq<byte> { [QUOTE] + EscapeAll(text) + [QUOTE] }

  // ---------------------------------------------------------------- parsing

  /** The offset of the closing quote, looking from `i`; the input's length if there is none. */
  function Close(s: seq<byte>, i: nat): (e: nat)
    requires i <= |s|
    ensures i <= e <= |s| && (e < |s| ==> s[e] == QUOTE)
    decreases |s| - i
  {
    if i == |s| || s[i] == QUOTE then i
    else if s[i] == BACKSLASH then (if i + 1 == |s| then |s| else Close(s, i + 2))
    else Close(s, i + 1)
  }

  function HexValue(c: byte): (v: int)
    ensures -1 <= v < 16
  {
    if 48 <= c <= 57 then c - 48
    else if 65 <= c <= 70 then c - 55
    else if 97 <= c <= 102 then c - 87
    else -1
  }

  /** Four hexadecimal digits, or 0 if one is not a digit. */
  function Hex4(s: seq<byte>, i: nat): (x: nat)
    requires i + 4 <= |s|
    ensures x < 0x10000
    ensures x > 0 ==> forall k :: i <= k < i + 4 ==> HexValue(s[k]) >= 0
  {
    var a, b, c, d := HexValue(s[i]), HexValue(s[i + 1]), HexValue(s[i + 2]), HexValue(s[i + 3]);
    if a < 0 || b < 0 || c < 0 || d < 0 then 0 else ((a * 16 + b) * 16 + c) * 16 + d
  }

  /** UTF-8 (section 3 of RFC 3629). */
  function Utf8(cp: nat): (b: seq<byte>)
    requires cp <= 0x10ffff
    ensures 1 <= |b| <= 4 && (cp < 0x10000 ==> |b| <= 3)
  {
    if cp < 0x80 then [cp]
    else if cp < 0x800 then [0xc0 + cp / 64, 0x80 + cp % 64]
    else if cp < 0x10000 then [0xe0 + cp / 4096, 0x80 + cp / 64 % 64, 0x80 + cp % 64]
    else [0xf0 + cp / 262144, 0x80 + cp / 4096 % 64, 0x80 + cp / 64 % 64, 0x80 + cp % 64]
  }

  /** What a \u escape at `i` stands for and how long it is; length 0 on failure. */
  datatype Literal = Literal(bytes: seq<byte>, len: nat)

  function Utf16(s: seq<byte>, i: nat, end: nat): (l: Literal)
    requires i <= end <= |s|
    ensures l.len == 0 || (l.len == 6 && |l.bytes| <= 3) || (l.len == 12 && |l.bytes| == 4)
    ensures i + l.len <= end
  {
    if end - i < 6 then Literal([], 0)
    else
      var first := Hex4(s, i + 2);
      if 0xdc00 <= first <= 0xdfff then Literal([], 0)
      else if 0xd800 <= first <= 0xdbff then
        if end - i < 12 || s[i + 6] != BACKSLASH || s[i + 7] != 117 then Literal([], 0)
        else
          var second := Hex4(s, i + 8);
          if second < 0xdc00 || second > 0xdfff then Literal([], 0)
          else Literal(Utf8(0x10000 + (first - 0xd800) * 0x400 + (second - 0xdc00)), 12)
      else Literal(Utf8(first), 6)
  }

  /** The byte a two-character escape stands for, or -1. */
  function Simple(c: byte): int {
    if c == 98 then 8 else if c == 102 then 12 else if c == 110 then 10 else if c == 114 then 13
    else if c == 116 then 9 else if c == QUOTE || c == BACKSLASH || c == 47 then c else -1
  }

  /** What one turn of the unescaping loop writes and consumes; `None` on a bad escape. */
  function Unit(s: seq<byte>, i: nat, end: nat): (u: Option<Literal>)
    requires i < end < |s|
    ensures u.Some? ==> 0 < u.value.len <= 12
  {
    if s[i] != BACKSLASH then Some(Literal([s[i]], 1))
    else if s[i + 1] == 117 then
      var l := Utf16(s, i, end);
      if l.len == 0 then None else Some(l)
    else if Simple(s[i + 1]) < 0 then None
    else Some(Literal([Simple(s[i + 1])], 2))
  }

  function Unescape(s: seq<byte>, i: nat, end: nat): Option<seq<byte>>
    requires end < |s|
    decreases |s| - i
  {
    if i >= end then Some([])
    else
      var u := Unit(s, i, end);
      if u.None? then None
      else
        var rest := Unescape(s, i + u.value.len, end);
        if rest.None? then None else Some(u.value.bytes + rest.value)
  }

  function ParseString(s: seq<byte>, at: nat): (g: Got<seq<byte>>)
    ensures g.Got? ==> at < g.at <= |s|
  {
    if at >= |s| || s[at] != QUOTE then Fail
    else
      var end := Close(s, at + 1);
      if end == |s| then Fail
      else
        var out := Unescape(s, at + 1, end);
        if out.None? then Fail else Got(out.value, end + 1)
  }

  // ---------------------------------------------------------------- text in place

  /** `t` stands in `s` at `i`. */
  predicate Stands(s: seq<byte>, i: nat, t: seq<byte>) {
    i + |t| <= |s| && s[i..i + |t|] == t
  }

  lemma StandsParts(s: seq<byte>, i: nat, a: seq<byte>, b: seq<byte>)
    requires Stands(s, i, a + b)
    ensures Stands(s, i, a) && Stands(s, i + |a|, b)
  {
    var t := s[i..i + |a + b|];
    assert t[..|a|] == a && t[|a|..] == b;
    assert s[i..i + |a|] == t[..|a|] && s[i + |a|..i + |a| + |b|] == t[|a|..];
  }

  lemma StandsAt(s: seq<byte>, i: nat, t: seq<byte>, k: nat)
    requires Stands(s, i, t) && k < |t|
    ensures i + |t| <= |s| && s[i + k] == t[k]
  {
    assert s[i + k] == s[i..i + |t|][k];
  }

  // ---------------------------------------------------------------- UTF-8

  /** A code point and the number of bytes it took. */
  datatype Scalar = Scalar(cp: nat, len: nat)

  predicate Continues(c: byte) { 0x80 <= c <= 0xbf }

  /** The first character of a byte string by section 3 of RFC 3629: shortest form
      only, no surrogates and nothing above 0x10ffff. */
  function Decode(b: seq<byte>): Option<Scalar> {
    if b == [] then None
    else if b[0] <= 0x7f then Some(Scalar(b[0], 1))
    else if 0xc2 <= b[0] <= 0xdf && |b| >= 2 && Continues(b[1]) then
      Some(Scalar((b[0] as int - 0xc0) * 64 + (b[1] as int - 0x80), 2))
    else if 0xe0 <= b[0] <= 0xef && |b| >= 3 && Continues(b[1]) && Continues(b[2]) then
      var cp := ((b[0] as int - 0xe0) * 64 + (b[1] as int - 0x80)) * 64 + (b[2] as int - 0x80);
      if cp < 0x800 || 0xd800 <= cp <= 0xdfff then None else Some(Scalar(cp, 3))
    else if 0xf0 <= b[0] <= 0xf4 && |b| >= 4 && Continues(b[1]) && Continues(b[2]) && Continues(b[3]) then
      var cp := (((b[0] as int - 0xf0) * 64 + (b[1] as int - 0x80)) * 64 + (b[2] as int - 0x80)) * 64 + (b[3] as int - 0x80);
      if cp < 0x10000 || cp > 0x10ffff then None else Some(Scalar(cp, 4))
    else None
  }

  /** What utf16_literal_to_utf8 writes for a code point is its encoding. */
  lemma Utf8Decodes(cp: nat, tail: seq<byte>)
    requires cp <= 0x10ffff
    ensures Decode(Utf8(cp) + tail) == if 0xd800 <= cp <= 0xdfff then None else Some(Scalar(cp, |Utf8(cp)|))
  {
    hide Utf8, Decode;
    if cp < 0x800 {
      ShortDecodes(cp, tail);
    } else if cp < 0x10000 {
      LongDecodes(cp, tail);
    } else {
      LongestDecodes(cp, tail);
    }
  }

  lemma ShortDecodes(cp: nat, tail: seq<byte>)
    requires cp < 0x800
    ensures Decode(Utf8(cp) + tail) == Some(Scalar(cp, |Utf8(cp)|))
  {
    var b := Utf8(cp) + tail;
    assert forall i :: 0 <= i < |Utf8(cp)| ==> b[i] == Utf8(cp)[i];
  }

  lemma LongDecodes(cp: nat, tail: seq<byte>)
    requires 0x800 <= cp < 0x10000
    ensures Decode(Utf8(cp) + tail) == if 0xd800 <= cp <= 0xdfff then None else Some(Scalar(cp, 3))
    ensures |Utf8(cp)| == 3
  {
    var b, x := Utf8(cp) + tail, cp / 64;
    assert x / 64 == cp / 4096 && cp == x / 64 * 4096 + x % 64 * 64 + cp % 64;
    assert b[0] == 0xe0 + x / 64 && b[1] == 0x80 + x % 64 && b[2] == 0x80 + cp % 64;
  }

  lemma LongestDecodes(cp: nat, tail: seq<byte>)
    requires 0x10000 <= cp <= 0x10ffff
    ensures Decode(Utf8(cp) + tail) == Some(Scalar(cp, 4)) && |Utf8(cp)| == 4
  {
    var b, x, y := Utf8(cp) + tail, cp / 64, cp / 4096;
    assert x / 64 == y && y / 64 == cp / 262144 && y / 64 <= 4;
    assert cp == y / 64 * 262144 + y % 64 * 4096 + x % 64 * 64 + cp % 64;
    assert b[0] == 0xf0 + y / 64 && b[1] == 0x80 + y % 64 && b[2] == 0x80 + x % 64 && b[3] == 0x80 + cp % 64;
  }

  // ---------------------------------------------------------------- strings of RFC 8259

  /** `c` is the hexadecimal digit for `v`, in either case. */
  ghost predicate Digit(c: byte, v: nat) {
    v < 16 && (c == "0123456789abcdef"[v] as int || c == "0123456789ABCDEF"[v] as int)
  }

  /** Four digits that write `x`. */
  ghost predicate Numeral(d: seq<byte>, x: nat) {
    && |d| == 4 && x < 0x10000
    && Digit(d[0], x / 4096) && Digit(d[1], x / 256 % 16) && Digit(d[2], x / 16 % 16) && Digit(d[3], x % 16)
  }

  /** One character of a string as section 7 of RFC 8259 lets it be written: itself, a
      two-character escape, a \u escape, or two for a surrogate pair. */
  datatype Piece = Plain(c: byte) | Short(c: byte) | Code(x: nat, d: seq<byte>)
                 | Pair(hi: nat, d: seq<byte>, lo: nat, e: seq<byte>)

  /** The two-character escapes. */
  const SHORT: map<byte, byte> :=
    map[0x22 := 0x22, 0x5c := 0x5c, 0x2f := 0x2f, 0x62 := 0x08, 0x66 := 0x0c, 0x6e := 0x0a, 0x72 := 0x0d, 0x74 := 0x09]

  /** The program takes control characters as they are, which the grammar does not. */
  ghost predicate Proper(p: Piece) {
    match p
    case Plain(c) => c != QUOTE && c != BACKSLASH
    case Short(c) => c in SHORT
    case Code(x, d) => Numeral(d, x) && !(0xd800 <= x <= 0xdfff)
    case Pair(hi, d, lo, e) => Numeral(d, hi) && 0xd800 <= hi <= 0xdbff && Numeral(e, lo) && 0xdc00 <= lo <= 0xdfff
  }

  function Spelled(p: Piece): seq<byte> {
    match p
    case Plain(c) => [c]
    case Short(c) => [BACKSLASH, c]
    case Code(_, d) => [BACKSLASH, 117] + d
    case Pair(_, d, _, e) => [BACKSLASH, 117] + d + [BACKSLASH, 117] + e
  }

  /** The bytes that a piece stands for: an escape of a code point stands for its UTF-8
      encoding, and a pair for the code point of section 2.2 of RFC 2781. */
  ghost predicate Means(p: Piece, b: seq<byte>) {
    match p
    case Plain(c) => b == [c]
    case Short(c) => c in SHORT && b == [SHORT[c]]
    case Code(x, _) => Decode(b) == Some(Scalar(x, |b|))
    case Pair(hi, _, lo, _) =>
      0xd800 <= hi && 0xdc00 <= lo && Decode(b) == Some(Scalar((hi - 0xd800) * 0x400 + (lo - 0xdc00) + 0x10000, |b|))
  }

  function SpelledAll(ps: seq<Piece>): seq<byte> {
    if ps == [] then [] else Spelled(ps[0]) + SpelledAll(ps[1..])
  }

  ghost predicate MeanAll(ps: seq<Piece>, bs: seq<seq<byte>>) {
    |bs| == |ps| && forall k :: 0 <= k < |ps| ==> Proper(ps[k]) && Means(ps[k], bs[k])
  }

  // ---------------------------------------------------------------- reading them

  lemma DigitBack(c: byte, v: nat)
    requires Digit(c, v)
    ensures HexValue(c) == v && c != QUOTE && c != BACKSLASH
  {
  }

  lemma NumeralBack(s: seq<byte>, i: nat, d: seq<byte>, x: nat)
    requires Stands(s, i, d) && Numeral(d, x)
    ensures i + 4 <= |s| && Hex4(s, i) == x && Close(s, i) == Close(s, i + 4)
  {
    hide Stands, Close, Digit, HexValue;
    StandsAt(s, i, d, 0);
    StandsAt(s, i, d, 1);
    StandsAt(s, i, d, 2);
    StandsAt(s, i, d, 3);
    DigitBack(d[0], x / 4096);
    DigitBack(d[1], x / 256 % 16);
    DigitBack(d[2], x / 16 % 16);
    DigitBack(d[3], x % 16);
    FourDigits(x);
    CloseOver(s, i);
  }

  lemma FourDigits(x: nat)
    requires x < 0x10000
    ensures ((x / 4096 * 16 + x / 256 % 16) * 16 + x / 16 % 16) * 16 + x % 16 == x
  {
    var y, z := x / 16, x / 256;
    assert z == y / 16 && x / 4096 == z / 16;
  }

  lemma CloseOver(s: seq<byte>, i: nat)
    requires i + 4 <= |s| && forall k :: i <= k < i + 4 ==> s[k] != QUOTE && s[k] != BACKSLASH
    ensures Close(s, i) == Close(s, i + 4)
  {
    assert Close(s, i) == Close(s, i + 1);
    assert Close(s, i + 1) == Close(s, i + 2);
    assert Close(s, i + 2) == Close(s, i + 3);
  }

  /** An escape begins at `i`. */
  lemma EscapeOver(s: seq<byte>, i: nat, c: byte)
    requires Stands(s, i, [BACKSLASH, c])
    ensures i + 2 <= |s| && s[i] == BACKSLASH && s[i + 1] == c && Close(s, i) == Close(s, i + 2)
  {
    StandsAt(s, i, [BACKSLASH, c], 0);
    StandsAt(s, i, [BACKSLASH, c], 1);
  }

  lemma CodeBack(s: seq<byte>, i: nat, p: Piece, end: nat) returns (b: seq<byte>)
    requires p.Code? && Proper(p) && Stands(s, i, Spelled(p)) && i + 6 <= end < |s|
    ensures Unit(s, i, end) == Some(Literal(b, 6)) && Means(p, b) && Close(s, i) == Close(s, i + 6)
  {
    hide Stands, Close, Hex4, Utf8, Decode, Numeral;
    StandsParts(s, i, [BACKSLASH, 117], p.d);
    EscapeOver(s, i, 117);
    NumeralBack(s, i + 2, p.d, p.x);
    Utf8Decodes(p.x, []);
    b := Utf8(p.x);
    assert b + [] == b;
  }

  lemma PairBack(s: seq<byte>, i: nat, p: Piece, end: nat) returns (b: seq<byte>)
    requires p.Pair? && Proper(p) && Stands(s, i, Spelled(p)) && i + 12 <= end < |s|
    ensures Unit(s, i, end) == Some(Literal(b, 12)) && Means(p, b) && Close(s, i) == Close(s, i + 12)
  {
    hide Stands, Close, Hex4, Utf8, Decode, Digit;
    var u := [BACKSLASH, 117];
    StandsParts(s, i, u + p.d + u, p.e);
    StandsParts(s, i, u + p.d, u);
    StandsParts(s, i, u, p.d);
    EscapeOver(s, i, 117);
    NumeralBack(s, i + 2, p.d, p.hi);
    EscapeOver(s, i + 6, 117);
    NumeralBack(s, i + 8, p.e, p.lo);
    var cp := 0x10000 + (p.hi - 0xd800) * 0x400 + (p.lo - 0xdc00);
    Utf8Decodes(cp, []);
    b := Utf8(cp);
    assert b + [] == b;
  }

  /** One piece is read as what it stands for, and holds no closing quote. */
  lemma PieceBack(s: seq<byte>, i: nat, p: Piece, end: nat) returns (b: seq<byte>)
    requires Proper(p) && Stands(s, i, Spelled(p)) && i + |Spelled(p)| <= end < |s|
    ensures i < end && Unit(s, i, end) == Some(Literal(b, |Spelled(p)|)) && Means(p, b)
    ensures Close(s, i) == Close(s, i + |Spelled(p)|)
  {
    hide Stands, Utf16, Digit, Decode;
    match p
    case Plain(c) =>
      StandsAt(s, i, Spelled(p), 0);
      b := [c];
    case Short(c) =>
      EscapeOver(s, i, c);
      b := [SHORT[c]];
    case Code(_, _) => b := CodeBack(s, i, p, end);
    case Pair(_, _, _, _) => b := PairBack(s, i, p, end);
  }

  lemma UnescapeFirst(s: seq<byte>, i: nat, end: nat, l: Literal, rest: seq<byte>)
    requires i < end < |s| && Unit(s, i, end) == Some(l) && Unescape(s, i + l.len, end) == Some(rest)
    ensures Unescape(s, i, end) == Some(l.bytes + rest)
  {
  }

  lemma SpelledFront(ps: seq<Piece>)
    requires ps != []
    ensures SpelledAll(ps) == Spelled(ps[0]) + SpelledAll(ps[1..])
  {
  }

  lemma NoPieces()
    ensures MeanAll([], [])
  {
  }

  lemma OnePiece(p: Piece, b: seq<byte>, ps: seq<Piece>, bs: seq<seq<byte>>)
    requires Proper(p) && Means(p, b) && MeanAll(ps, bs)
    ensures SpelledAll([p] + ps) == Spelled(p) + SpelledAll(ps) && MeanAll([p] + ps, [b] + bs)
    ensures Flat([b] + bs) == b + Flat(bs)
  {
    hide Proper, Means, Spelled;
    assert ([p] + ps)[1..] == ps && ([b] + bs)[1..] == bs;
    forall k | 0 <= k < |ps| + 1 ensures Proper(([p] + ps)[k]) && Means(([p] + ps)[k], ([b] + bs)[k]) {
      if k > 0 {
        assert ([p] + ps)[k] == ps[k - 1] && ([b] + bs)[k] == bs[k - 1];
      }
    }
  }

  lemma {:induction false} SpelledBack(s: seq<byte>, i: nat, ps: seq<Piece>) returns (bs: seq<seq<byte>>)
    requires Stands(s, i, SpelledAll(ps) + [QUOTE]) && forall p :: p in ps ==> Proper(p)
    ensures var end := i + |SpelledAll(ps)|;
            end < |s| && Close(s, i) == end && Unescape(s, i, end) == Some(Flat(bs))
    ensures MeanAll(ps, bs)
    decreases |ps|
  {
    hide Unit, Spelled, Stands, Means, Proper, MeanAll, Unescape, SpelledAll, Close;
    var end := i + |SpelledAll(ps)|;
    if ps == [] {
      bs := [];
      NoPieces();
      NothingSpelled(s, i);
    } else {
      var e, rest := Spelled(ps[0]), SpelledAll(ps[1..]);
      SpelledFront(ps);
      TwoParts(s, i, e, rest);
      var more := SpelledBack(s, i + |e|, ps[1..]);
      var b := PieceBack(s, i, ps[0], end);
      UnescapeFirst(s, i, end, Literal(b, |e|), Flat(more));
      bs := [b] + more;
      OnePiece(ps[0], b, ps[1..], more);
      assert ps == [ps[0]] + ps[1..];
    }
  }

  lemma NothingSpelled(s: seq<byte>, i: nat)
    requires Stands(s, i, SpelledAll([]) + [QUOTE])
    ensures SpelledAll([]) == [] && i < |s| && Close(s, i) == i && Unescape(s, i, i) == Some([])
  {
    StandsAt(s, i, [] + [QUOTE], 0);
  }

  lemma TwoParts(s: seq<byte>, i: nat, e: seq<byte>, rest: seq<byte>)
    requires Stands(s, i, e + rest + [QUOTE])
    ensures Stands(s, i, e) && Stands(s, i + |e|, rest + [QUOTE])
  {
    Associate(e, rest, [QUOTE]);
    StandsParts(s, i, e, rest + [QUOTE]);
  }

  /** Every string of the grammar, however its characters are written, is taken for
      what it means. */
  lemma SpelledParses(s: seq<byte>, at: nat, ps: seq<Piece>) returns (bs: seq<seq<byte>>)
    requires Stands(s, at, [QUOTE] + SpelledAll(ps) + [QUOTE]) && forall p :: p in ps ==> Proper(p)
    ensures ParseString(s, at) == Got(Flat(bs), at + |SpelledAll(ps)| + 2) && MeanAll(ps, bs)
  {
    hide Proper, MeanAll, Stands, Close, Unescape, SpelledAll;
    Associate([QUOTE], SpelledAll(ps), [QUOTE]);
    StandsParts(s, at, [QUOTE], SpelledAll(ps) + [QUOTE]);
    StandsAt(s, at, [QUOTE], 0);
    bs := SpelledBack(s, at + 1, ps);
  }

  // ---------------------------------------------------------------- printing then parsing

  /** How print_string_ptr writes a byte. */
  function PieceOf(c: byte): Piece {
    if c > 31 && c != QUOTE && c != BACKSLASH then Plain(c)
    else if |Escape(c)| == 2 then Short(Escape(c)[1])
    else Code(c, [48, 48, HexChar(c / 16), HexChar(c % 16)])
  }

  function PiecesOf(text: seq<byte>): (ps: seq<Piece>)
    ensures |ps| == |text| && forall i :: 0 <= i < |text| ==> ps[i] == PieceOf(text[i])
  {
    seq(|text|, i requires 0 <= i < |text| => PieceOf(text[i]))
  }

  lemma EscapeIsPiece(c: byte)
    ensures Proper(PieceOf(c)) && Spelled(PieceOf(c)) == Escape(c)
  {
    hide Numeral;
    if |Escape(c)| == 6 {
      ControlIsPiece(c);
    }
  }

  lemma ControlIsPiece(c: byte)
    requires c < 32
    ensures Numeral([48, 48, HexChar(c / 16), HexChar(c % 16)], c)
  {
    hide Digit, HexChar;
    HexDigit(c / 16);
    HexDigit(c % 16);
    HexDigit(0);
  }

  lemma HexDigit(v: nat)
    requires v < 16
    ensures Digit(HexChar(v), v) && HexChar(0) == 48
  {
  }

  lemma PieceIsByte(c: byte, b: seq<byte>)
    requires Means(PieceOf(c), b)
    ensures b == [c]
  {
  }

  lemma {:induction false} EscapeAllIs(text: seq<byte>)
    ensures EscapeAll(text) == SpelledAll(PiecesOf(text))
  {
    hide PieceOf, Escape;
    if text != [] {
      EscapeIsPiece(text[0]);
      assert PiecesOf(text)[1..] == PiecesOf(text[1..]);
      EscapeAllIs(text[1..]);
    }
  }

  lemma {:induction false} FlatSingles(bs: seq<seq<byte>>, text: seq<byte>)
    requires |bs| == |text| && forall k :: 0 <= k < |bs| ==> bs[k] == [text[k]]
    ensures Flat(bs) == text
  {
    if text != [] {
      FlatSingles(bs[1..], text[1..]);
      assert text == [text[0]] + text[1..];
    }
  }

  /** Parsing a printed string gives it back and stops behind it. */
  lemma StringRoundTrip(s: seq<byte>, i: nat, text: seq<byte>)
    requires Stands(s, i, Quoted(text))
    ensures ParseString(s, i) == Got(text, i + |Quoted(text)|)
  {
    hide Stands, ParseString, Means, PieceOf, Proper;
    EscapeAllIs(text);
    forall k | 0 <= k < |text| ensures Proper(PiecesOf(text)[k]) {
      EscapeIsPiece(text[k]);
    }
    var bs := SpelledParses(s, i, PiecesOf(text));
    forall k | 0 <= k < |text| ensures bs[k] == [text[k]] {
      PieceIsByte(text[k], bs[k]);
    }
    FlatSingles(bs, text);
  }

  // ---------------------------------------------------------------- nothing else is taken

  /** A \u escape at `i` that is not followed by four digits. */
  predicate Stray(s: seq<byte>, i: nat, end: nat)
    requires end <= |s|
  {
    && i + 6 <= end && s[i] == BACKSLASH && s[i + 1] == 117
    && !(HexValue(s[i + 2]) >= 0 && HexValue(s[i + 3]) >= 0 && HexValue(s[i + 4]) >= 0 && HexValue(s[i + 5]) >= 0)
  }

  /** parse_hex4 gives 0 for it, so that it is taken for a zero byte. */
  lemma StrayIsZero(s: seq<byte>, i: nat, end: nat)
    requires end < |s| && Stray(s, i, end)
    ensures Unit(s, i, end) == Some(Literal([0], 6))
  {
  }

  /** For example, "\uZZZZ" is taken. */
  lemma StrayIsTaken()
    ensures ParseString([QUOTE, BACKSLASH, 117, 90, 90, 90, 90, QUOTE], 0) == Got([0], 8)
  {
    var s := [QUOTE, BACKSLASH, 117, 90, 90, 90, 90, QUOTE];
    CloseOver(s, 3);
    assert Close(s, 1) == Close(s, 3) == 7;
    StrayIsZero(s, 1, 7);
    assert Unescape(s, 7, 7) == Some([]);
    UnescapeFirst(s, 1, 7, Literal([0], 6), []);
    var zero: seq<byte> := [0];
    assert zero + [] == zero;
  }

  lemma DigitOf(c: byte)
    requires HexValue(c) >= 0
    ensures Digit(c, HexValue(c))
  {
  }

  lemma NumeralOf(s: seq<byte>, i: nat)
    requires i + 4 <= |s| && forall k :: i <= k < i + 4 ==> HexValue(s[k]) >= 0
    ensures Numeral(s[i..i + 4], Hex4(s, i))
  {
    hide Digit, HexValue;
    var x, d := Hex4(s, i), s[i..i + 4];
    assert d[0] == s[i] && d[1] == s[i + 1] && d[2] == s[i + 2] && d[3] == s[i + 3];
    DigitOf(d[0]);
    DigitOf(d[1]);
    DigitOf(d[2]);
    DigitOf(d[3]);
    DigitsOf(HexValue(d[0]), HexValue(d[1]), HexValue(d[2]), HexValue(d[3]), x);
  }

  lemma DigitsOf(a: nat, b: nat, c: nat, d: nat, x: nat)
    requires a < 16 && b < 16 && c < 16 && d < 16 && x == ((a * 16 + b) * 16 + c) * 16 + d
    ensures x / 4096 == a && x / 256 % 16 == b && x / 16 % 16 == c && x % 16 == d
  {
  }

  /** The piece that the loop reads at `i`. */
  function PieceAt(s: seq<byte>, i: nat, end: nat): Piece
    requires i < end < |s|
  {
    if s[i] != BACKSLASH then Plain(s[i])
    else if s[i + 1] != 117 || i + 6 > end then Short(s[i + 1])
    else if 0xd800 <= Hex4(s, i + 2) <= 0xdbff && i + 12 <= end then
      Pair(Hex4(s, i + 2), s[i + 2..i + 6], Hex4(s, i + 8), s[i + 8..i + 12])
    else Code(Hex4(s, i + 2), s[i + 2..i + 6])
  }

  lemma UnicodeReads(s: seq<byte>, i: nat, end: nat)
    requires i < end < |s| && s[i] == BACKSLASH && s[i + 1] == 117 && Utf16(s, i, end).len > 0 && !Stray(s, i, end)
    ensures var p, l := PieceAt(s, i, end), Utf16(s, i, end); Proper(p) && Spelled(p) == s[i..i + l.len]
  {
    hide Numeral, HexValue;
    NumeralOf(s, i + 2);
    assert s[i..i + 6] == [BACKSLASH, 117] + s[i + 2..i + 6];
    if Utf16(s, i, end).len == 12 {
      NumeralOf(s, i + 8);
      assert s[i..i + 12] == [BACKSLASH, 117] + s[i + 2..i + 6] + [BACKSLASH, 117] + s[i + 8..i + 12];
    }
  }

  /** A turn of the loop reads a piece of the grammar or a stray escape. */
  lemma UnitReads(s: seq<byte>, i: nat, end: nat)
    requires i < end < |s| && Unit(s, i, end).Some? && !Stray(s, i, end)
    requires s[i] != QUOTE && (s[i] == BACKSLASH ==> i + 2 <= end)
    ensures var p, l := PieceAt(s, i, end), Unit(s, i, end).value;
            i + l.len <= end && Proper(p) && Spelled(p) == s[i..i + l.len]
  {
    hide Stray, Hex4;
    if s[i] == BACKSLASH && s[i + 1] == 117 {
      UnicodeReads(s, i, end);
    } else if s[i] == BACKSLASH {
      assert s[i..i + 2] == [BACKSLASH, s[i + 1]];
    } else {
      assert s[i..i + 1] == [s[i]];
    }
  }

  /** Either all of the text is spelled by the grammar, or a stray escape stands in it. */
  lemma {:induction false} TextReads(s: seq<byte>, i: nat, end: nat)
    returns (stray: bool, at: nat, ps: seq<Piece>, bs: seq<seq<byte>>)
    requires i <= |s| && Close(s, i) == end < |s| && Unescape(s, i, end).Some?
    ensures stray ==> i <= at < end && Stray(s, at, end)
    ensures !stray ==> && SpelledAll(ps) == s[i..end] && MeanAll(ps, bs)
                       && Unescape(s, i, end) == Some(Flat(bs))
    decreases |s| - i
  {
    hide Unit, Spelled, Means, Proper, Stray, PieceAt, MeanAll;
    NoPieces();
    stray, at, ps, bs := false, i, [], [];
    if i < end {
      if Stray(s, i, end) {
        stray := true;
      } else {
        var p, l := PieceAt(s, i, end), Unit(s, i, end).value;
        UnitReads(s, i, end);
        var b := PieceBack(s, i, p, end);
        stray, at, ps, bs := TextReads(s, i + l.len, end);
        if !stray {
          UnescapeFirst(s, i, end, l, Flat(bs));
          assert s[i..end] == s[i..i + l.len] + s[i + l.len..end];
          OnePiece(p, b, ps, bs);
          ps, bs := [p] + ps, [b] + bs;
        }
      }
    }
  }

  lemma InQuotes(s: seq<byte>, at: nat, end: nat)
    requires at < end < |s| && s[at] == QUOTE && s[end] == QUOTE
    ensures Stands(s, at, [QUOTE] + s[at + 1..end] + [QUOTE])
  {
    assert s[at..end + 1] == [QUOTE] + s[at + 1..end] + [QUOTE];
  }

  /** parse_string takes nothing but strings of the grammar, stray escapes apart. */
  lemma ParsedIsSpelled(s: seq<byte>, at: nat) returns (stray: bool, k: nat, ps: seq<Piece>, bs: seq<seq<byte>>)
    requires ParseString(s, at).Got?
    ensures stray ==> at < k && Stray(s, k, ParseString(s, at).at - 1)
    ensures !stray ==> && Stands(s, at, [QUOTE] + SpelledAll(ps) + [QUOTE]) && MeanAll(ps, bs)
                       && ParseString(s, at) == Got(Flat(bs), at + |SpelledAll(ps)| + 2)
  {
    hide Stray, MeanAll, Unescape, SpelledAll, Flat;
    var end := Close(s, at + 1);
    stray, k, ps, bs := TextReads(s, at + 1, end);
    InQuotes(s, at, end);
  }

  // ---------------------------------------------------------------- room for the result

  /** Backslashes that the measuring loop skips over, from `i`. */
  function Skips(s: seq<byte>, i: nat): nat
    requires i <= |s|
    decreases |s| - i
  {
    if i == |s| || s[i] == QUOTE then 0
    else if s[i] == BACKSLASH then (if i + 1 == |s| then 0 else 1 + Skips(s, i + 2))
    else Skips(s, i + 1)
  }

  /** Whether the measuring loop that began at `from` passes over offset `k` as
      the second half of an escape. */
  ghost predicate InPair(s: seq<byte>, from: nat, k: nat)
    requires from <= k <= |s|
    decreases k
  {
    k > from && s[k - 1] == BACKSLASH && !InPair(s, from, k - 1)
  }

  /** Escapes that the measuring loop sees from offset `i` on. */
  ghost function Begun(s: seq<byte>, from: nat, i: nat, end: nat): nat
    requires from <= i && end <= |s|
    decreases end - i
  {
    if i >= end then 0 else (if InPair(s, from, i + 1) then 1 else 0) + Begun(s, from, i + 1, end)
  }

  lemma {:induction false} SkipsAreBegun(s: seq<byte>, from: nat, i: nat, end: nat)
    requires from <= i <= |s| && !InPair(s, from, i) && Close(s, i) == end < |s|
    ensures Skips(s, i) == Begun(s, from, i, end) && i <= end && !InPair(s, from, end)
    decreases |s| - i
  {
    if s[i] == BACKSLASH {
      assert InPair(s, from, i + 1) && !InPair(s, from, i + 2);
      SkipsAreBegun(s, from, i + 2, end);
    } else if s[i] != QUOTE {
      assert !InPair(s, from, i + 1);
      SkipsAreBegun(s, from, i + 1, end);
    }
  }

  /** Escapes never begin at neighbouring offsets. */
  lemma {:induction false} HalfAtMost(s: seq<byte>, from: nat, i: nat, n: nat, end: nat)
    requires from <= i && i + 2 * n <= end <= |s|
    ensures Begun(s, from, i, end) <= n + Begun(s, from, i + 2 * n, end)
    decreases n
  {
    if n > 0 {
      HalfAtMost(s, from, i + 2, n - 1, end);
      assert InPair(s, from, i + 1) ==> !InPair(s, from, i + 2);
    }
  }

  /** One turn of the loop writes no more than its share. */
  lemma UnitFits(s: seq<byte>, from: nat, i: nat, end: nat)
    requires from <= i < end < |s| && !InPair(s, from, end) && Unit(s, i, end).Some?
    ensures var u := Unit(s, i, end).value;
            && (i + u.len <= end ==> |u.bytes| + Begun(s, from, i, end) <= u.len + Begun(s, from, i + u.len, end))
            && (i + u.len > end ==> |u.bytes| + Begun(s, from, i, end) <= end - i)
  {
    var u := Unit(s, i, end).value;
    if u.len == 2 && i + 2 > end {
      assert Begun(s, from, end, end) == 0;
    } else if u.len > 1 {
      HalfAtMost(s, from, i, u.len / 2, end);
    }
  }

  lemma {:induction false} BegunAtMost(s: seq<byte>, from: nat, i: nat, end: nat)
    requires from <= i <= end <= |s|
    ensures Begun(s, from, i, end) <= end - i
    decreases end - i
  {
    if i < end {
      BegunAtMost(s, from, i + 1, end);
    }
  }

  /** Where the unescaping loop stands and what it has written. */
  datatype Progress = Progress(i: nat, out: seq<byte>)

  /** The loop after at most `n` turns from offset `from`; a bad escape stops it. */
  ghost function Turns(s: seq<byte>, from: nat, end: nat, n: nat): (r: Progress)
    requires end < |s|
    ensures from <= r.i
  {
    if n == 0 then Progress(from, [])
    else
      var r := Turns(s, from, end, n - 1);
      if r.i >= end || Unit(s, r.i, end).None? then r
      else var u := Unit(s, r.i, end).value; Progress(r.i + u.len, r.out + u.bytes)
  }

  lemma {:induction false} TurnsFit(s: seq<byte>, from: nat, end: nat, n: nat)
    requires from <= end < |s| && !InPair(s, from, end)
    ensures var r := Turns(s, from, end, n);
            && (r.i <= end ==> |r.out| + Begun(s, from, from, end) <= r.i - from + Begun(s, from, r.i, end))
            && |r.out| + Begun(s, from, from, end) <= end - from
  {
    hide Unit, InPair;
    if n == 0 {
      BegunAtMost(s, from, from, end);
    } else {
      TurnsFit(s, from, end, n - 1);
      var r := Turns(s, from, end, n - 1);
      if r.i < end && Unit(s, r.i, end).Some? {
        UnitFits(s, from, r.i, end);
        var r' := Turns(s, from, end, n);
        if r'.i <= end {
          BegunAtMost(s, from, r'.i, end);
        }
      }
    }
  }

  /** The bytes parse_string allocates for a string that begins at `at`. */
  function Allocated(s: seq<byte>, at: nat): int
    requires at < |s|
  {
    Close(s, at + 1) - at - Skips(s, at + 1)
  }

  /** What the loop has written fits what was allocated, with a byte left for the
      terminator: after every turn, whether a later escape is refused or not. */
  lemma StringFits(s: seq<byte>, at: nat, n: nat)
    requires at < |s| && Close(s, at + 1) < |s|
    ensures |Turns(s, at + 1, Close(s, at + 1), n).out| < Allocated(s, at)
  {
    var end := Close(s, at + 1);
    SkipsAreBegun(s, at + 1, at + 1, end);
    TurnsFit(s, at + 1, end, n);
  }

  // ---------------------------------------------------------------- the loops

  /** parse_string: measures, allocates and unescapes. */
  method ParseStringLoop(s: seq<byte>, at: nat) returns (g: Got<seq<byte>>)
    ensures g == ParseString(s, at)
  {
    hide Unit, Unescape;
    if at >= |s| || s[at] != QUOTE {
      return Fail;
    }
    var end, skipped := at + 1, 0;
    while end < |s| && s[end] != QUOTE
      invariant at < end <= |s| && Close(s, end) == Close(s, at + 1) && skipped + Skips(s, end) == Skips(s, at + 1)
    {
      if s[end] == BACKSLASH {
        if end + 1 >= |s| {
          return Fail;
        }
        skipped := skipped + 1;
        end := end + 1;
      }
      end := end + 1;
    }
    if end >= |s| {
      return Fail;
    }
    var out := UnescapeLoop(s, at, end, end - at - skipped);
    g := if out.Some? then Got(out.value, end + 1) else Fail;
  }

  /** The second loop of parse_string. Whatever it meets, it never writes past
      the `room` bytes it was given. */
  method UnescapeLoop(s: seq<byte>, at: nat, end: nat, room: int) returns (g: Option<seq<byte>>)
    requires at < |s| && Close(s, at + 1) == end < |s| && room == Allocated(s, at)
    ensures g == Unescape(s, at + 1, end)
  {
    hide Unit, Close, Allocated;
    var i, out := at + 1, [];
    ghost var turns := 0;
    StringFits(s, at, turns);
    NothingBefore(Unescape(s, at + 1, end));
    while i < end
      invariant |out| < room && Turns(s, at + 1, end, turns) == Progress(i, out)
      invariant at < i && Joined(Unescape(s, at + 1, end), out, Unescape(s, i, end))
      decreases end - i
    {
      var u := Unit(s, i, end);
      if u.None? {
        return None;
      }
      JoinedMore(Unescape(s, at + 1, end), out, u.value.bytes, Unescape(s, i + u.value.len, end));
      out := out + u.value.bytes;
      i := i + u.value.len;
      turns := turns + 1;
      StringFits(s, at, turns);
    }
    assert out + [] == out;
    g := Some(out);
  }

  /** `whole` is `done` followed by `rest`. */
  ghost predicate Joined(whole: Option<seq<byte>>, done: seq<byte>, rest: Option<seq<byte>>) {
    match rest
    case None => whole.None?
    case Some(r) => whole == Some(done + r)
  }

  lemma JoinedMore(whole: Option<seq<byte>>, done: seq<byte>, more: seq<byte>, rest: Option<seq<byte>>)
    requires Joined(whole, done, if rest.None? then None else Some(more + rest.value))
    ensures Joined(whole, done + more, rest)
  {
    if rest.Some? {
      Associate(done, more, rest.value);
    }
  }

  lemma NothingBefore(r: Option<seq<byte>>)
    ensures r.Some? ==> r.value == [] + r.value
  {
  }

  /** Additional characters needed to escape a string. */
  function Extra(text: seq<byte>): nat {
    if text == [] then 0 else |Escape(text[0])| - 1 + Extra(text[1..])
  }

  lemma {:induction false} ExtraIs(text: seq<byte>)
    ensures |EscapeAll(text)| == |text| + Extra(text)
  {
    if text != [] {
      ExtraIs(text[1..]);
    }
  }

  /** print_string_ptr: measures, then escapes into exactly that many bytes. */
  method PrintString(text: seq<byte>) returns (out: seq<byte>)
    ensures out == Quoted(text)
  {
    var extra, i := 0, 0;
    assert text[0..] == text;
    while i < |text|
      invariant 0 <= i <= |text| && extra + Extra(text[i..]) == Extra(text)
    {
      assert text[i..][1..] == text[i + 1..];
      extra := extra + |Escape(text[i])| - 1;
      i := i + 1;
    }
    ExtraIs(text);
    var length := |text| + extra;
    if extra == 0 {
      NothingEscaped(text);
      return [QUOTE] + text + [QUOTE];
    }
    out, i := [QUOTE], 0;
    while i < |text|
      invariant 0 <= i <= |text| && out + EscapeAll(text[i..]) == [QUOTE] + EscapeAll(text)
    {
      assert text[i..][1..] == text[i + 1..];
      Associate(out, Escape(text[i]), EscapeAll(text[i + 1..]));
      out := out + Escape(text[i]);
      i := i + 1;
    }
    assert out + [] == out;
    assert |out| == length + 1;
    out := out + [QUOTE];
  }

  lemma {:induction false} NothingEscaped(text: seq<byte>)
    requires Extra(text) == 0
    ensures EscapeAll(text) == text
  {
    if text != [] {
      NothingEscaped(text[1..]);
      assert text == [text[0]] + text[1..];
    }
  }
}
