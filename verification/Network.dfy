/** Packets on the network: numbers in network byte order and the constants of
    src/pktqueue.h and <netinet/in.h> that several layers share. */
module Network {
  import opened Words

  const MAX_PACKET_SIZE := 1500
  const IPPROTO_TCP := 6

  /** Two bytes, the high one first. */
  function Big16(x: int): (b: seq<byte>)
    requires 0 <= x < W16
    ensures |b| == 2
  {
    [x / 256, x % 256]
  }

  function Read16(b: seq<byte>, at: nat): (x: nat)
    requires at + 2 <= |b|
    ensures x < W16
  {
    b[at] as int * 256 + b[at + 1] as int
  }

  function Read32(b: seq<byte>, at: nat): (x: nat)
    requires at + 4 <= |b|
    ensures x < W32
  {
    Read16(b, at) * W16 + Read16(b, at + 2)
  }
}
