/** Two control blocks of `KcpEndpoint` driven by any list of actions over a
    network of byte strings: what the objects do is a run of `KcpProgram`, so
    what is proved of those runs holds of the objects. */
module KcpPair {
  import opened Words
  import opened KcpModel
  import opened KcpWire
  import opened KcpSystem
  import opened KcpProgram
  import opened KcpEndpoint

  class Host {
    const kcp: Kcp
    var out: seq<seq<byte>>
    var accepted: seq<byte>
    var delivered: seq<byte>

    ghost predicate Valid()
      reads this, kcp
    {
      kcp.Valid()
    }

    ghost function State(): WNode
      reads this, kcp
    {
      WNode(kcp.Model(), out, accepted, delivered)
    }

    constructor (cfg: Config)
      ensures Valid() && State() == WStart(cfg) && fresh(kcp)
    {
      kcp := new Kcp(cfg);
      out, accepted, delivered := [], [], [];
    }

    /** One action, with the datagrams the other side has sent so far. */
    method Do(act: Action, ghost peer: WNode, sent: seq<seq<byte>>)
      requires Valid() && sent == peer.out
      modifies this, kcp
      ensures Valid() && State() == WAct(old(State()), peer, act)
    {
      hide KcpModel.Send, KcpModel.Recv, KcpModel.Update, KcpModel.Flush, InputBytes, EncodePackets;
      match act
      case SendBytes(_, data) =>
        SendRange(kcp.cfg.mss, kcp.sndQueue, data);
        var ret := kcp.Send(data);
        accepted := accepted + data[..Max(ret, 0)];
      case RecvBytes(_, cap) =>
        var ret, data := kcp.Recv(cap);
        delivered := delivered + data;
      case UpdateAt(_, now) =>
        var packets := kcp.Update(now);
        out := out + packets;
      case FlushNow(_) =>
        var packets := kcp.Flush();
        out := out + packets;
      case Deliver(_, k, pad) =>
        if k < |sent| {
          var code := kcp.Input(sent[k] + pad);
        }
    }
  }

  lemma SendRange(mss: int, queue: seq<seq<byte>>, data: seq<byte>)
    requires mss > 0
    ensures KcpModel.Send(mss, queue, data).ret <= |data|
  {
  }

  /** A run of the two objects is the run of the program model, and so the bytes
      each user gets are a prefix of the bytes accepted from the other. */
  method Play(left: Config, right: Config, acts: seq<Action>) returns (l: Host, r: Host)
    ensures l.Valid() && r.Valid() && WSystem(l.State(), r.State()) == WRun(WInitial(left, right), acts)
    ensures left.conv == right.conv && RecentRun(Initial(left, right), acts) ==>
              r.delivered <= l.accepted && l.delivered <= r.accepted
  {
    hide WAct;
    l := new Host(left);
    r := new Host(right);
    var i := 0;
    assert acts[0..] == acts;
    while i < |acts|
      invariant 0 <= i <= |acts| && l.Valid() && r.Valid() && l != r && l.kcp != r.kcp
      invariant fresh(l) && fresh(r) && fresh(l.kcp) && fresh(r.kcp)
      invariant WRun(WSystem(l.State(), r.State()), acts[i..]) == WRun(WInitial(left, right), acts)
    {
      assert acts[i..][1..] == acts[i + 1..];
      if acts[i].who.Left? {
        l.Do(acts[i], r.State(), r.out);
      } else {
        r.Do(acts[i], l.State(), l.out);
      }
      i := i + 1;
    }
    if left.conv == right.conv && RecentRun(Initial(left, right), acts) {
      ProgramIsReliable(left, right, acts);
    }
  }
}
