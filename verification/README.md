# A model of kcptun-libev and proofs about it

kcptun-libev carries TCP connections over KCP, a reliable-stream protocol on
top of UDP. This project models the parts that decide whether the tunnel is
right, in Dafny, and proves what the program promises about them:

- **KCP** (`contrib/kcp/ikcp.c`). `KcpModel.dfy` states every operation as a
  function on the value of a control block, with the arithmetic of sequence
  numbers as a parameter: `Word` is the program's 32-bit arithmetic, `Ideal`
  is arithmetic on unbounded numbers, and `Lifted` keeps unbounded numbers but
  compares them by their last 32 bits. `KcpEndpoint.dfy` is the control block
  as an object; each C function is a method with the loops of the original,
  proved to take the block from one value of the model to the next.
  `KcpSystem.dfy` runs two endpoints over a network that keeps every datagram
  ever sent, so that it may lose, duplicate, reorder and delay at will, and
  proves what every state of every run keeps. `KcpWrap.dfy` and
  `KcpProgram.dfy` carry this over to the 32-bit program with its bytes on the
  wire, `KcpTransfer.dfy` restates the invariants for its wrapped numbers,
  `KcpStale.dfy` says what datagrams that are too old do to it, `KcpLift.dfy`
  and `KcpOrder.dfy` what order survives them, and `KcpPair.dfy` applies the
  program's guarantees to two of the objects. `KcpReady.dfy` is KCP as its user
  sees it. `KcpProgress.dfy`, `KcpClock.dfy` and `KcpPace.dfy` are about clearing
  the window, the scheduling hint and congestion control.
  `KcpRun.dfy` shows that every run of the program, with no condition on what is
  delivered when, is the truncation of a run on unbounded numbers. On top of it,
  and told from the history of a run alone, `KcpHeed.dfy` says which window a
  sender goes by and when it probes, `KcpResend.dfy` when a segment is sent again,
  what that does to the congestion window and when the link is given up, and
  `KcpEcho.dfy` what is acknowledged and what is learnt from it.
- **The tunnel** (`src/session.c`, `src/event_tcp.c`, `src/event_kcp.c`,
  `src/event_timer.c`, `src/pktqueue.c`). `Frames.dfy` is the framing,
  `Sessions.dfy` the session object whose callbacks take socket results from
  scripts the environment writes, `Tunnel.dfy` what two sessions achieve
  together and when one that hears nothing is freed. `TunnelPair.dfy` puts a
  session on top of a KCP control block at each end and drives the four objects
  by any list of events: after each callback the calls it made of KCP are made
  on the control block. `Sizing.dfy` is about packet sizes.
- **The hash table** (`contrib/csnippets/algo/hashtable.c`) in `HashTable.dfy`,
  as an object that refines a map.
- **The packet filter compiler and the TCP disguise** (`src/obfs.c`) in
  `Filter.dfy` and `Obfs.dfy`.
- **The replay filter** (`src/nonce.c`, `contrib/libbloom/bloom.c`) in
  `Replay.dfy`.
- **JSON** (`contrib/cjson/cJSON.c`) in `JsonText.dfy` and `Json.dfy`;
  `JsonGrammar.dfy` compares the parser with the grammar of RFC 8259.

Some promises do not hold of the code in general. Each is stated with what
holds instead, and with an input that breaks it:

- KCP delivers in order over every run in which no datagram is delivered more
  than 2^31 sequence numbers late (`KcpProgram.ProgramIsReliable`), and a run
  that offers less than 2 GB in each direction always meets this
  (`KcpProgram.ProgramIsReliableFor2GB`). Order alone needs less: datagrams of
  any age, as long as each PUSH that passes the window test is in the window
  (`KcpOrder.ProgramKeepsOrder`). The test lets in a number it should not if and
  only if the number lies in the receive window modulo 2^32 but not in the window
  (`KcpStale.AdmitsStale`). One that is expected modulo 2^32 is handed on as the
  expected one, and the bytes stay right if and only if the two payloads are equal
  (`KcpOrder.MisplacedIsHandedOn`); `KcpStale.StalePushIsTaken` is a state where
  that goes wrong. A cumulative acknowledgement below the send buffer empties it if
  and only if the buffer begins more than 2^31 above it (`KcpStale.StaleUnaDrops`);
  then a segment that never arrived is in neither buffer, and the stream stalls
  (`KcpStale.StaleUnaLoses`).
- `table_compact` goes by the `valid` marks and moves an entry without moving its
  mark. Right marks stay right if and only if no free slot lies below a live one.
  Compaction by wrong marks keeps every entry if and only if each live slot
  without a mark lies behind the marked entries and among the first `size` slots
  (`HashTable.GatheringExact`), and `table_set` if and only if
  `HashTable.Table.SetKeeps` holds before it. `HashTable.LoseMark` and
  `HashTable.LoseEntry` lose a mark and then an entry with six calls on a new
  table.
- A session no packet reaches is freed within one session limit plus linger and
  time_wait only if KCP holds nothing for it; each segment it still holds can
  add one session limit (`Tunnel.SilentIsReclaimed`,
  `Tunnel.BufferedSegmentStays`).
- The announced window is the free room of the receive queue, except that an
  empty queue of 65536 is announced as 0 (`KcpSystem.AnnouncedWindow`).
- The IPv4 filter drops later fragments but accepts first ones
  (`Filter.AcceptedMayBeFirstFragment`, `Filter.FirstFragmentAccepted`).
- A TCP checksum field of 0xffff is never accepted, although with it the segment
  sums to all ones exactly when it does with 0; with any other field the packet is
  accepted if and only if the sum is right (`Obfs.OpenExactly`).
- A segment is sent again exactly when its timeout has passed, as long as no
  timeout has outgrown 31 bits, which none can before the 21st transmission
  (`KcpResend.ProgramResendsOnTime`, `KcpResend.EarlyIsSound`).
- The JSON parser takes a `\u` escape without four hexadecimal digits for a zero
  byte (`JsonText.StrayIsTaken`). It also takes unescaped control characters in
  strings and any byte up to 32 as a blank. Apart from these and from numbers it
  takes exactly the texts of the grammar that are nested at most 1000 deep.

Where comments in the code and the code differ, the model follows the code:
the length test in `ss_process` joins two tests that exclude each other and
never fires, so frames are taken as the peer's `kcp_push` and `kcp_sendmsg`
build them.

## Model

| member | source | states |
|---|---|---|
| KcpSystem.ReliableStream | contrib/kcp/ikcp.c:336-416 | In every state of every run of two endpoints over a network that loses, duplicates, reorders and delays, the bytes each user got are a prefix of the bytes accepted from the other. |
| KcpSystem.NeverLast | contrib/kcp/ikcp.c:557-605 | With unbounded numbers, in every reachable state and for datagrams of any age, each assigned number is in its sender's buffer or has reached the peer. |
| KcpTransfer.ProgramNeverLast | contrib/kcp/ikcp.c:557-605 | In every reachable state of the 32-bit program each number from the one a receiver expects up to the one its sender assigns next is in the sender's buffer or held by the receiver: no acknowledgement removes the last copy. |
| KcpTransfer.ProgramWindowsHold | contrib/kcp/ikcp.c:683-732 | In every reachable state of the 32-bit program both buffers are in order on the circle of numbers, at most the send window is in flight, arrivals lie in the receive window, and neither receive list is longer than it. |
| KcpSystem.RunKeeps | contrib/kcp/ikcp.c:748-1148 | The invariant of both streams survives any list of sends, receives, updates, flushes and deliveries. |
| KcpSystem.AnnouncedWindow | contrib/kcp/ikcp.c:927-933 | The window in a header equals the free room of the queue if and only if it is not the case that the window is 65536 and the queue empty, which is announced as 0. |
| KcpProgram.ProgramIsReliable | contrib/kcp/ikcp.c:748-909 | The same prefix property for the 32-bit program with encoded, padded datagrams, for every run in which no delivery is more than 2^31 numbers late. |
| KcpProgram.ProgramIsReliableFor2GB | contrib/kcp/ikcp.c:748-909 | It holds outright for every run that offers less than 2^31 - 65536 bytes each way. |
| KcpProgram.RunCoupled | contrib/kcp/ikcp.c:116-119 | A run of the 32-bit program is, state by state, the truncation of the run on unbounded numbers. |
| KcpLift.InputCut | contrib/kcp/ikcp.c:748-909 | For every packet and every control block, ikcp_input on 32-bit numbers is the truncation of ikcp_input on unbounded numbers compared by their last 32 bits. |
| KcpRun.ProgramIsLifted | contrib/kcp/ikcp.c:116-119 | Over every list of actions and with datagrams of any age, the state of the 32-bit program is the truncation of that of a run on unbounded numbers compared by their last 32 bits. |
| KcpHeed.BytesHeeded | contrib/kcp/ikcp.c:761-793 | After ikcp_input on any bytes, malformed or not, the peer's window is the one in the last segment before the first bad one. |
| KcpHeed.WireWindow | contrib/kcp/ikcp.c:767-791 | For a datagram of any segments and padding it is the 16-bit field 6 bytes into the last header. |
| KcpHeed.ProgramHeedsWindow | contrib/kcp/ikcp.c:1021-1051 | Over every run the window a sender goes by is the one in the last datagram delivered to it, and a flush fills exactly the room under it: it numbers nothing at or past una and that window, and nothing at all if it is closed. |
| KcpHeed.ProgramProbesAndTells | contrib/kcp/ikcp.c:978-1019 | Over every run a side that last heard a closed window starts its probe timer or asks once it has run out, and a flush announces the window exactly if it was asked, or a full receive queue was drained, since the last announcement. |
| KcpHeed.ProgramFillsSegments | contrib/kcp/ikcp.c:462-530 | Over every run all segments that wait for a number are full but the last. |
| KcpResend.ProgramResendsOnTime | contrib/kcp/ikcp.c:1058-1095 | Over every run a flush pushes each newly numbered segment, each buffered one exactly if the time since it was last pushed has reached its timeout or it was passed over often enough, and nothing else; the timeout begins as the round-trip estimate, plus an eighth with nodelay 0, and grows with every loss as the settings say. |
| KcpResend.EarlyIsSound | contrib/kcp/ikcp.c:1066-1080 | No timeout is truncated before the 21st transmission. |
| KcpResend.ProgramBacksOff | contrib/kcp/ikcp.c:1126-1147 | Over every run a flush that finds a timeout over leaves a congestion window of one segment and half the window as threshold; one that only resends early leaves half of what is in flight as threshold and that plus the fast-resend setting as window; any other leaves both alone. |
| KcpResend.ProgramGivesUp | contrib/kcp/ikcp.c:1114-1116 | Over every run the link counts as dead exactly once some number has been pushed `deadLink` times. |
| KcpEcho.ProgramAcknowledges | contrib/kcp/ikcp.c:964-974 | Over every run a flush acknowledges exactly the data segments that arrived inside or below the receive window since the last flush, in order, with their times. |
| KcpEcho.AcksAreEchoes | contrib/kcp/ikcp.c:827-853 | Over every run each acknowledgement carries the number and the time of a data segment that its addressee sent. |
| KcpEcho.InputLearns | contrib/kcp/ikcp.c:795-800 | ikcp_input learns from every acknowledgement in a packet, in order, that is not from the future. |
| KcpEcho.LearnOne | contrib/kcp/ikcp.c:538-555 | A sample moves the mean by an eighth of its distance and the deviation by a quarter, and the timeout is the mean with the larger of four deviations and the interval, within its limits. |
| KcpEcho.LearnWithin | contrib/kcp/ikcp.c:538-555 | Samples between two bounds keep the mean between them. |
| KcpEcho.LearnSettles | contrib/kcp/ikcp.c:538-555 | With a constant round trip the deviation goes to zero and the timeout to that round trip and one interval. |
| KcpOrder.ProgramKeepsOrder | contrib/kcp/ikcp.c:683-743 | The prefix property of the 32-bit program over every run in which each PUSH that passes the window test is in the window, with acknowledgements, probes and window announcements of any age. |
| KcpOrder.EmitOrdered | contrib/kcp/ikcp.c:938-1148 | A flush keeps order in both directions even if the sender has forgotten segments that never arrived and the pending acknowledgements are for other numbers. |
| KcpOrder.PushInPlace | contrib/kcp/ikcp.c:683-743 | A PUSH that is in the window whenever the 32-bit test says so is stored as in the unbounded system, or not at all. |
| KcpOrder.MisplacedIsHandedOn | contrib/kcp/ikcp.c:683-743 | A PUSH whose number is the expected one modulo 2^32 is handed on as the expected one, and the bytes still follow the sender's if and only if its payload is that of the expected number. |
| KcpStale.AdmitsStale | contrib/kcp/ikcp.c:827-853 | The program admits a number that the unbounded system does not if and only if it lies in the receive window modulo 2^32 but not in the window; it admits every number that the unbounded system admits. |
| KcpStale.PushStored | contrib/kcp/ikcp.c:683-743 | A PUSH is stored exactly when its number is admitted; otherwise it is at most acknowledged. |
| KcpStale.StalePushIsTaken | contrib/kcp/ikcp.c:683-743 | In a state that satisfies the invariant, after 2^32 segments, a late copy of the first is taken for the next: the user gets bytes beyond what was accepted. |
| KcpStale.StaleUnaDrops | contrib/kcp/ikcp.c:591-605 | A cumulative acknowledgement below a whole sorted send buffer and less than 2^32 behind removes everything if the buffer begins more than 2^31 above it, and nothing otherwise. |
| KcpStale.StaleUnaLoses | contrib/kcp/ikcp.c:591-605 | In a state that satisfies the invariant, with such a datagram in the network, its delivery makes the program forget a segment that never arrived; the unbounded system keeps it. |
| KcpTransfer.ProgramCleanRound | contrib/kcp/ikcp.c:938-1148 | From any reachable state of the 32-bit program with the peer's queue drained, its window at least the send window and all resend times due, one flush fully delivered and one flush back leave nothing unacknowledged. |
| KcpClock.HintIsSafe | contrib/kcp/ikcp.c:1191-1229 | No update between `now` and the time ikcp_check returns flushes, across the wrap of the clock, and that time is not after the first flush. |
| KcpClock.FlushesExactlyThen | contrib/kcp/ikcp.c:1155-1180 | Up to the flush delay, an update flushes if and only if exactly that delay has passed, including the ten-second resynchronisation. |
| KcpClock.HintIsNow | contrib/kcp/ikcp.c:1199-1219 | The hint is `now` if and only if an update would flush or some segment's resend time has come. |
| KcpClock.HintIsEarliest | contrib/kcp/ikcp.c:1191-1229 | The hint is the first time from `now` on at which an update flushes, a segment's resend time comes or one interval has passed. |
| KcpClock.NextFlush | contrib/kcp/ikcp.c:1164-1178 | After a flush the next is due one interval after that one was due, or after `now` if that has passed; an update that does not flush leaves the time alone. |
| KcpPace.AvoidanceStep | contrib/kcp/ikcp.c:889-901 | In congestion avoidance an acknowledgement adds mss * mss / incr and mss / 16 to the byte count, and below the peer's window the congestion window grows exactly when the byte count reaches one segment more. |
| KcpPace.InputGrows | contrib/kcp/ikcp.c:881-906 | A packet changes the congestion window only if it moves `una` forward, and then by one step under the window it announces. |
| KcpPace.GrowthIsBounded | contrib/kcp/ikcp.c:881-906 | An acknowledgement never shrinks the congestion window, leaves one that is not below the announced window alone and takes no other past it, adds exactly one in slow start, and keeps the byte count within one segment of the window. |
| KcpPace.PaceHolds | contrib/kcp/ikcp.c:881-906 | In every reachable state of the 32-bit program, for every fast-retransmit setting the configuration accepts, the congestion window and its byte count are in that range, so that none of their sums and products wraps around. |
| KcpPace.ProbesKeepComing | contrib/kcp/ikcp.c:979-997 | While the peer's window is closed, the probe interval stays between 7 and 120 seconds and a flush asks exactly when it has run out. |
| KcpModel.UpdateAck | contrib/kcp/ikcp.c:538-555 | The retransmission timeout stays between the configured minimum and 4000 ms, and nothing but round-trip state changes. |
| KcpPace.EstimateFits | contrib/kcp/ikcp.c:538-555 | With round trips under 37 hours the round-trip estimates stay below that and no intermediate value leaves 32 bits. |
| KcpModel.AfterFlush | contrib/kcp/ikcp.c:1126-1147 | After a flush the congestion window is at least one segment. |
| Words.TimeDiffExact | contrib/kcp/ikcp.c:116-119 | The signed difference of two truncated numbers is their true difference if and only if that fits 32 signed bits. |
| KcpWire.ParseEncode | contrib/kcp/ikcp.c:761-793 | Parsing the encoding of any list of segments followed by fewer than 24 bytes of padding gives exactly that list. |
| KcpWire.ParseIs | contrib/kcp/ikcp.c:761-793 | Any bytes are the encoding of the segments that were read, followed by a rest that begins with a bad segment or is too short for a header; which of these it is decides the return code. |
| KcpWire.InputPadded | contrib/kcp/ikcp.c:873-875 | ikcp_input on such a datagram acts as on the list of segments. |
| KcpWire.EncodedSize | contrib/kcp/ikcp.c:914-925 | An encoded datagram has the size that the packing counts. |
| KcpBytes.SendSpec | contrib/kcp/ikcp.c:452-533 | The send queue grows by exactly the bytes reported as sent, its segments stay within the segment size, and everything is taken if and only if it needs fewer than 128 segments. |
| KcpBytes.SendExactly | contrib/kcp/ikcp.c:452-533 | What ikcp_send returns in terms of the room in the last segment: everything, only what fits there if the rest needs 128 segments or more, or -2; it leaves no two segments where one is enough. |
| KcpBytes.RecvMessage | contrib/kcp/ikcp.c:336-416 | A message that has arrived whole is handed out whole if it fits the buffer; otherwise the result is -3 and nothing changes. |
| KcpBytes.RecvPartial | contrib/kcp/ikcp.c:342-350 | With an empty queue or half a message the result is -1 or -2 and nothing changes. |
| KcpBytes.RecvOne | contrib/kcp/ikcp.c:336-416 | In stream mode a receive gives exactly the first queued segment if it fits the buffer, and otherwise fails and changes nothing. |
| KcpReady.JointReady | contrib/kcp/ikcp.c:683-743 | What KCP holds ready, queue and gapless arrivals, continues the bytes handed out so far and with them is a prefix of the bytes the peer accepted. |
| KcpReady.JointDeliver | contrib/kcp/ikcp.c:748-909 | A datagram only adds to the end of the ready list. |
| KcpReady.JointRecv | contrib/kcp/ikcp.c:336-416 | A receive with room for a segment hands out the first of the ready list and leaves the rest. |
| KcpBytes.PacketsSpec | contrib/kcp/ikcp.c:964-1019 | Cutting a flush into datagrams loses, adds and reorders nothing; each is non-empty and at most the MTU. |
| KcpBytes.PacketsAreFull | contrib/kcp/ikcp.c:1099-1112 | No datagram is begun for a segment that the one before had room for. |
| KcpLists.DropBeforeSpec | contrib/kcp/ikcp.c:591-605 | On a sorted buffer a cumulative acknowledgement removes exactly the numbers below it. |
| KcpLists.DropOneSpec | contrib/kcp/ikcp.c:568-589 | On a sorted buffer a single acknowledgement removes exactly that number if it is there, and nothing else. |
| KcpLists.InsertSpec | contrib/kcp/ikcp.c:695-713 | Insertion puts a new number at its sorted place and leaves the buffer alone if the number is there. |
| KcpLists.DrainSpec | contrib/kcp/ikcp.c:720-732 | Draining moves a run of consecutive numbers from the buffer to the queue and stops at a gap or a full queue. |
| KcpLists.FillSpec | contrib/kcp/ikcp.c:1028-1051 | Filling numbers a prefix of the queue consecutively and never exceeds the window. |
| KcpLists.TransmitSpec | contrib/kcp/ikcp.c:1058-1118 | The transmission pass keeps numbers and payloads, sends only buffered segments, and sends every segment that is due. |
| KcpWrap.FlushWraps | contrib/kcp/ikcp.c:938-1148 | A flush on truncated numbers is the truncation of the flush on unbounded numbers. |
| KcpProgram.InputWraps | contrib/kcp/ikcp.c:748-909 | Input on truncated numbers is the truncation of input on unbounded numbers, for honest datagrams that are not too late. |
| KcpEndpoint.Kcp.constructor | contrib/kcp/ikcp.c:213-277 | A new control block is the initial value of the model, with a peer window of 128, a timeout of 200 and a threshold of 2. |
| KcpEndpoint.Kcp.ExtendLast | contrib/kcp/ikcp.c:462-493 | Appends to the last queued segment as many bytes as it has room for. |
| KcpEndpoint.Kcp.Fragment | contrib/kcp/ikcp.c:509-530 | Appends the data cut into pieces of the segment size. |
| KcpEndpoint.Kcp.Send | contrib/kcp/ikcp.c:452-533 | Takes the block to the model's send, with the same return value and error cases. |
| KcpEndpoint.Kcp.MoveReady | contrib/kcp/ikcp.c:720-732 | Moves segments that are next in order to the receive queue, keeping both counters. |
| KcpEndpoint.Kcp.PeekSize | contrib/kcp/ikcp.c:421-447 | The size of the first complete message, or -1. |
| KcpEndpoint.Kcp.TakeMessage | contrib/kcp/ikcp.c:362-390 | Takes the segments of the first message off the queue and returns their bytes. |
| KcpEndpoint.Kcp.Recv | contrib/kcp/ikcp.c:336-416 | Takes the block to the model's receive, with the error cases -1, -2 and -3 and the window announcement. |
| KcpEndpoint.Kcp.ShrinkBuf | contrib/kcp/ikcp.c:557-566 | The first unacknowledged number becomes that of the buffer's head, or the next number. |
| KcpEndpoint.Kcp.ParseUna | contrib/kcp/ikcp.c:591-605 | Drops the acknowledged prefix in the loop of the original. |
| KcpEndpoint.Kcp.ParseAck | contrib/kcp/ikcp.c:568-589 | Drops one acknowledged segment if it lies in the window. |
| KcpEndpoint.Kcp.ParseFastack | contrib/kcp/ikcp.c:607-629 | Counts the skipped segments up to the acknowledged one. |
| KcpEndpoint.Kcp.AckPush | contrib/kcp/ikcp.c:634-670 | Appends to the list of acknowledgements to send; a full block is replaced by the smallest of 8, 16, 32 and so on that holds it. |
| KcpEndpoint.Kcp.InsertArrived | contrib/kcp/ikcp.c:695-713 | Finds the place of an arrived segment from the far end. |
| KcpEndpoint.Kcp.ParseData | contrib/kcp/ikcp.c:683-743 | Stores a segment inside the receive window and drains. |
| KcpEndpoint.Kcp.UpdateAck | contrib/kcp/ikcp.c:538-555 | Takes the round-trip state to that of the model. |
| KcpEndpoint.Kcp.TakeAck | contrib/kcp/ikcp.c:795-826 | The acknowledgement branch of input, with the conservative choice of the latest one. |
| KcpEndpoint.Kcp.TakePush | contrib/kcp/ikcp.c:827-853 | The data branch of input. |
| KcpEndpoint.Kcp.TakeSegment | contrib/kcp/ikcp.c:791-871 | One turn of the input loop is the model's, whose effect on the peer's window is KcpHeed.WireWindow and on the estimate KcpEcho.InputLearns. |
| KcpEndpoint.Kcp.GrowCwnd | contrib/kcp/ikcp.c:881-906 | Takes the congestion window to that of the model. |
| KcpEndpoint.Kcp.Input | contrib/kcp/ikcp.c:748-909 | On any bytes, takes the block to the model's input with its return code, including packets that go wrong halfway. |
| KcpEndpoint.Kcp.FlushAcks | contrib/kcp/ikcp.c:964-974 | Packs one acknowledgement segment per pending acknowledgement. |
| KcpEndpoint.Kcp.Probe | contrib/kcp/ikcp.c:978-997 | Takes the probing state to that of the model. |
| KcpEndpoint.Kcp.FlushProbes | contrib/kcp/ikcp.c:999-1019 | Packs the window probes that are due. |
| KcpEndpoint.Kcp.SendWindow | contrib/kcp/ikcp.c:1023-1026 | The window a flush may fill. |
| KcpEndpoint.Kcp.FillWindow | contrib/kcp/ikcp.c:1028-1051 | Numbers queued segments while the window has room. |
| KcpEndpoint.Kcp.TransmitOne | contrib/kcp/ikcp.c:1060-1095 | Decides for one segment as the model does whether and why it is sent, and its next resend time; when that is over a run is KcpResend.ProgramResendsOnTime. |
| KcpEndpoint.Kcp.TransmitPass | contrib/kcp/ikcp.c:1057-1118 | The pass over the send buffer packs exactly the segments of the model's pass. |
| KcpEndpoint.Kcp.AfterFlush | contrib/kcp/ikcp.c:1126-1147 | Takes the congestion state to that of the model. |
| KcpEndpoint.Kcp.Flush | contrib/kcp/ikcp.c:938-1148 | Takes the block to the model's flush and hands exactly the encoded datagrams of its packing to the output. |
| KcpEndpoint.Put | contrib/kcp/ikcp.c:1099-1112 | Adds one segment to the open datagram, sending it first if it is full. |
| KcpEndpoint.Finish | contrib/kcp/ikcp.c:1120-1124 | Sends what is left in the open datagram. |
| KcpEndpoint.Kcp.Tick | contrib/kcp/ikcp.c:1155-1179 | Decides whether an update flushes and when the next flush is. |
| KcpEndpoint.Kcp.Update | contrib/kcp/ikcp.c:1155-1180 | Takes the block to the model's update. |
| KcpEndpoint.Kcp.Check | contrib/kcp/ikcp.c:1191-1229 | Returns the model's hint. |
| KcpPair.Host.Do | contrib/kcp/ikcp.c:336-1180 | One action on a control block, with its datagrams, is one step of the program model. |
| KcpPair.Play | contrib/kcp/ikcp.c:336-1180 | Two control blocks driven by any list of actions over a network of byte strings carry out a run of the program model, and each user gets a prefix of what the other sent. |
| Sizing.EveryPacketFits | src/pktqueue.c:82-106 | In every run of the 32-bit program, whatever arrives, every datagram ever sent, with any padding that may be drawn, fits its buffer once sealed, and the IP packet around it is at most kcp.mtu. |
| Sizing.SealFits | src/pktqueue.c:247-262 | The same for any message up to the segment limit, and padding is shorter than a segment header. |
| Sizing.MssIsEnough | src/server.c:276-314 | Every accepted configuration leaves KCP a usable MTU, and segments large enough for frames. |
| Frames.FirstFrame | src/session.h:33-39 | A buffer that starts a stream of honest frames names its first frame from 4 bytes on, and holds it whole once its length is there. |
| Frames.SameFrames | src/session.h:33-46 | If the bytes of one list of frames start those of another, its frames are the first frames of the other. |
| Frames.FrameTaken | src/event_kcp.c:58-93 | ikcp_send takes every frame whole, since a frame needs fewer than 128 segments. |
| Sessions.Session.AcceptOne | src/event_tcp.c:57-88 | A session for a TCP client starts valid and has sent DIAL. |
| Sessions.Session.constructor | src/session.c:343-384 | A new session is valid, has received nothing and asked nothing of KCP; one for an unknown conversation has no TCP connection. |
| Sessions.Session.KcpSend | src/event_kcp.c:58-69 | All bytes of a frame enter the send queue. |
| Sessions.Session.SendMsg | src/event_kcp.c:71-80 | Sends a frame without payload; both directions keep their invariants. |
| Sessions.Session.KcpPush | src/event_kcp.c:82-93 | All bytes read so far leave as one frame. |
| Sessions.Session.KcpRecv | src/event_kcp.c:95-116 | Takes ready segments in order until none is left or `wbuf` has less than a segment of room; the session counts as seen exactly if it took one. |
| Sessions.Gather | src/event_kcp.c:100-107 | The loop: what is taken continues the frames in `wbuf`, and nothing is lost between the list and the buffer. |
| Sessions.Session.KcpClose | src/session.c:234-253 | Says EOF at most once and lingers; everything read was sent before it. |
| Sessions.Session.KcpStop | src/session.c:281-290 | Releases KCP and the buffers; what TCP got stays a prefix of what the peer sent. |
| Sessions.Session.TcpStop | src/session.c:267-279 | TCP ends in TIME_WAIT. |
| Sessions.Session.TcpSend | src/event_tcp.c:239-273 | One write: TCP takes the next part of the payload in progress, for any short, refused or failed write. |
| Sessions.Session.TcpSendAll | src/event_tcp.c:299-302 | Writes on after short writes until everything is taken, TCP would block or it fails. |
| Sessions.Session.TcpFlush | src/event_tcp.c:290-307 | TCP takes exactly what the writes until blocking give; a failure ends TCP and closes KCP, and nothing else changes a state. |
| Sessions.Session.TcpNotify | src/event_tcp.c:142-167 | A lingering connection ends; otherwise reading is armed exactly when KCP can take more and writing exactly when data waits, and the socket is open. |
| Sessions.Session.OnMsg | src/session.c:119-172 | Acts on the frame the peer sent next: DIAL connects, PUSH starts flushing its payload, EOF makes both sides linger, KEEPALIVE is answered by the accepting side; only a DIAL can be refused, exactly when TCP was dialled before or dialling fails. |
| Sessions.Session.OnDial | src/session.c:119-172 | The DIAL case. |
| Sessions.Session.OnEof | src/session.c:119-172 | The EOF case: both sides linger. |
| Sessions.Session.OnKeepAlive | src/session.c:119-172 | The KEEPALIVE case. |
| Sessions.Session.Consume | src/session.c:69-74 | Drops exactly the frame that TCP has taken whole. |
| Sessions.Session.Refill | src/session.c:177-198 | Waits only for TCP to take the frame in progress, or, with nothing more to receive from KCP, for the rest of a frame. |
| Sessions.Session.Process | src/session.c:175-211 | Returns 0 after exactly one more frame, else acts on none; progress bounds the number of turns. |
| Sessions.Session.ReadCb | src/session.c:311-323 | Ends, keeps the session valid, and while connected stops only to wait for TCP or for KCP. |
| Sessions.Session.TcpRecv | src/event_tcp.c:170-213 | One read: at most what a frame can carry, only while KCP can take more, and the end of the stream is told apart from waiting. |
| Sessions.Session.SessionSend | src/session.c:213-232 | Sends what was read, exactly while KCP is not closing. |
| Sessions.Session.TcpRelay | src/event_tcp.c:223-231 | Reads until KCP is full, TCP has no more or the stream ends; everything read is in frames handed to KCP, in order. |
| Sessions.Session.TcpRecvAll | src/event_tcp.c:215-236 | The same, and both sides close exactly when the last read was the end of the stream. |
| Sessions.Session.ConnectedCb | src/event_tcp.c:275-288 | A failed connect closes both sides, any other connects. |
| Sessions.Session.OnWritable | src/event_tcp.c:324-333 | Keeps the session valid and leaves nothing undone that could be done now. |
| Sessions.Session.SocketCb | src/event_tcp.c:309-334 | Keeps the session valid and both states moving forward for any split of reads and writes; reads all there is, ends TCP at the end of the stream, leaves nothing undone that could be done now, and counts as seen only if it took a segment from KCP. |
| Sessions.Session.PacketCb | src/pktqueue.c:157-198 | Refuses a finished session or a foreign address, and then changes nothing but the resets it answers with; otherwise keeps the session valid and both states moving forward, connects a connecting session, takes segments only in order, counts as seen exactly if it took one, and leaves nothing undone that could be done now. |
| Sessions.Session.Refuse | src/pktqueue.c:158-183 | Over the whole life of a session any two resets it answers with are more than a second apart, and none is withheld unless one was sent within the last second. |
| Sessions.Session.KcpPump | src/event_kcp.c:118-133 | Keeps the session valid whatever KCP sends, and arms the socket by the new state. |
| Sessions.Session.ResetCb | src/session.c:574-600 | Both sides end in TIME_WAIT with everything released. |
| Sessions.Session.TimeoutFilt | src/event_timer.c:23-83 | Keeps the session valid, moves forward only, agrees with the timer function that Tunnel.SilentIsReclaimed and Tunnel.NeverEarly are about, and sends the frames that Tunnel.AsksOnTime is about. |
| Tunnel.TunnelIsPrefix | src/session.c:119-211 | If KCP gave one side a prefix of the other's bytes, the bytes it wrote to TCP are a prefix of those the other read from TCP, and all of them once it acted on the EOF. |
| TunnelPair.Play | src/event_tcp.c:170-273 | Two sessions over two KCP control blocks, driven by any list of socket, packet, timer and reset events at either end over a network that loses, repeats, reorders and delays: each end has written to TCP a prefix of what the other read from TCP, and all of it once it acted on the EOF. |
| TunnelPair.Happen | src/pktqueue.c:109-198 | Each event keeps the two ends linked: what KCP accepted and delivered at an end is what its session offered and received. |
| TunnelPair.End.OnSocket | src/event_tcp.c:309-334 | A socket callback and the KCP calls it makes. |
| TunnelPair.End.OnPacket | src/pktqueue.c:157-198 | ikcp_input and session_read_cb: what KCP makes ready continues the frames of the other end. |
| TunnelPair.End.OnUpdate | src/event_kcp.c:118-133 | ikcp_update, after which the session sees what KCP left unnumbered and unacknowledged. |
| TunnelPair.End.OnTimer | src/event_timer.c:23-83 | The session timer and the frames it sends. |
| TunnelPair.End.Settle | src/event_kcp.c:58-116 | The calls a callback made bring session and control block back into agreement: every receive gives the segment the session took, every send takes the whole frame. |
| Tunnel.SilentIsReclaimed | src/event_timer.c:23-83 | A session no packet reaches, for which KCP holds n segments, is freed within n + 1 times the larger of the dial and session limits plus linger, time_wait and n + 3 tick periods, whatever its TCP side does. |
| Tunnel.BufferedSegmentStays | src/event_kcp.c:108-111 | With the default limits and one segment held, a session is still there when one without would have been freed. |
| Tunnel.TickMoves | src/event_timer.c:23-83 | A tick takes a session forward exactly if it has been in its state for longer than the limit of that state. |
| Tunnel.NeverEarly | src/event_timer.c:23-83 | However often the timer ticks, a session stays where it is until its limit. |
| Tunnel.AsksOnTime | src/event_timer.c:32-55 | After any number of such ticks a client sends KEEPALIVE at each tick more than `keepalive` after the last packet, the accepting side never does, and a dial that took too long ends with EOF. |
| HashTable.Table.constructor | contrib/csnippets/algo/hashtable.c:320-340 | A new table is the empty map. |
| HashTable.Table.Locate | contrib/csnippets/algo/hashtable.c:202-223 | The walk down a chain finds the slot of the key if and only if the key is in the map. |
| HashTable.Table.Find | contrib/csnippets/algo/hashtable.c:263-284 | Finds exactly the keys of the map, with their elements. |
| HashTable.Table.RemoveAt | contrib/csnippets/algo/hashtable.c:299-303 | Unlinks a slot: chains stay acyclic and disjoint, and the slot joins the free list. |
| HashTable.Table.Del | contrib/csnippets/algo/hashtable.c:286-318 | The map loses exactly this key, and its element is returned. |
| HashTable.Table.FilterBucket | contrib/csnippets/algo/hashtable.c:393-410 | One bucket loses exactly the items that fail the callback. |
| HashTable.Table.Filter | contrib/csnippets/algo/hashtable.c:382-413 | The map keeps exactly the entries that satisfy the callback. |
| HashTable.MoveDown | contrib/csnippets/algo/hashtable.c:90-111 | The compaction loop moves marked entries down in order, and exactly the slots before the first hole stay marked. |
| HashTable.CompactDone | contrib/csnippets/algo/hashtable.c:90-111 | If only live slots are marked, compaction fills the first slots with the marked entries in order, leaves the others where they are, and marks exactly the slots before the first hole. |
| HashTable.GatheringSlot | contrib/csnippets/algo/hashtable.c:90-111 | The entry of a live slot survives compaction if and only if the slot is marked, or lies behind the marked entries and among the first `size` slots. |
| HashTable.GatheringExact | contrib/csnippets/algo/hashtable.c:90-111 | All entries survive, and nothing else takes their place, if and only if that holds of every live slot without a mark. |
| HashTable.LoseMark | contrib/csnippets/algo/hashtable.c:101-107 | Two sets, a delete and a reserve on a new table leave its one entry unmarked. |
| HashTable.LoseEntry | contrib/csnippets/algo/hashtable.c:94-109 | One more set and reserve then overwrite that entry: of two slots in use both hold the other key. |
| HashTable.RightMarksKeep | contrib/csnippets/algo/hashtable.c:197-261 | While the marks are right no set loses an entry. |
| HashTable.Table.Compact | contrib/csnippets/algo/hashtable.c:90-111 | The first slots hold what going by the marks gathers there, and exactly the slots before the first hole are marked. |
| HashTable.Table.Realloc | contrib/csnippets/algo/hashtable.c:143-171 | Growing, shrinking or failing to allocate leaves the gathered entries and their marks unchanged. |
| HashTable.Table.Rehash | contrib/csnippets/algo/hashtable.c:113-129 | Chains the gathered entries again: every access stays inside the array, whatever the entries are. |
| HashTable.CeilCapacity | contrib/csnippets/algo/hashtable.c:35-47 | The smallest listed prime that is large enough, or the next odd number past the list, as far as a table can go. |
| HashTable.Table.Reserve | contrib/csnippets/algo/hashtable.c:347-380 | Every entry is carried over, and with it the map, if and only if nothing moved or no live slot without a mark was in the way; right marks stay right if and only if nothing moved or there was no hole. |
| HashTable.Table.Grow | contrib/csnippets/algo/hashtable.c:173-183 | The same for growing by a third; if memory allows, the capacity becomes the target. |
| HashTable.Table.Reseed | contrib/csnippets/algo/hashtable.c:185-195 | Every entry is carried over if and only if no live slot without a mark was in the way; right marks stay right if and only if there was no hole. |
| HashTable.Table.TakeSlot | contrib/csnippets/algo/hashtable.c:225-242 | A slot is claimed unless the table is full and cannot grow; if it grows, entries are kept as by reserving. |
| HashTable.Table.InsertAt | contrib/csnippets/algo/hashtable.c:244-251 | A claimed slot holds the new entry, marked, at the head of its bucket; no other entry or mark changes. |
| HashTable.Table.Set | contrib/csnippets/algo/hashtable.c:197-261 | On any table in which only live slots are marked: every entry is one that was there or the new one; none is lost if and only if the condition on the marks before the call holds, and then the map gains or replaces the entry, or nothing changes when a full table cannot grow; the old element is returned; right marks stay right if and only if it did not reseed with a hole. |
| Filter.FilterIsRight | src/obfs.c:309-350 | For every bind address and packet the linked program accepts exactly TCP of that IP version, for IPv4 not a later fragment, to the port and address given; it always reaches a verdict. |
| Filter.AcceptedMayBeFirstFragment | src/obfs.c:234-236 | An accepted IPv4 packet is unfragmented if and only if its more-fragments bit is clear. |
| Filter.FirstFragmentAccepted | src/obfs.c:234-236 | Setting that bit never changes the verdict on a packet with a full IP header. |
| Filter.JumpsGoForward | src/obfs.c:338-347 | Every jump goes forward and stays inside, every -1 leads to the reject, and the program takes at most 17 slots. |
| Filter.Compile | src/obfs.c:309-350 | Compiles in place, and succeeds if and only if the program fits the array. |
| Filter.Gen | src/obfs.c:212-220 | Appends a fragment if there is room and changes nothing otherwise. |
| Filter.LinkPass | src/obfs.c:338-347 | Patches every instruction of the program. |
| Replay.PpBloom.CheckAdd | src/nonce.c:19-33 | Reports a nonce exactly if all its bits are among those of the nonces since the last turn of the filters, or among those of the generation before; so always if it was presented in any of the last `entries` calls. |
| Replay.PpBloom.constructor | src/nonce.c:45-63 | Nothing has been seen. |
| Replay.TwoCalls | src/nonce.c:19-33 | On a new filter the first nonce is not reported, and a second exactly if each of its positions, as its two hash values give them, is one of the first's; not if its first hash is none of them. |
| Replay.HitsOne | contrib/libbloom/bloom.c:56-68 | A filter that holds one nonce has all bits of another exactly if each of (a + i * b) mod 2^32 mod bits is one of (c + j * d) mod 2^32 mod bits. |
| Replay.CursorIs | contrib/libbloom/bloom.c:56-62 | Consecutive positions differ by the second hash modulo 2^32. |
| Replay.Bloom.CheckAdd | contrib/libbloom/bloom.c:48-77 | Reports exactly whether all bits of the nonce were set, and adding sets exactly those. |
| Replay.Bloom.TestSet | contrib/libbloom/bloom.c:30-45 | Tests one bit and sets no other. |
| Replay.Bloom.Reset | contrib/libbloom/bloom.c:156-161 | No bit is set. |
| Replay.ReportsRecent | src/nonce.c:22-25 | The two generations together hold every nonce of the last `entries` calls. |
| Obfs.OpenExactly | src/obfs.c:1226-1316 | A packet gives a payload exactly if its bytes are an IPv4 TCP packet of consistent lengths whose ones' complement sum is right with a field other than 0xffff, or which comes from 127/8, to the bound address and port, from a peer, with PSH set, and with RST clear under debug; the payload is then all behind both headers. |
| Obfs.SealedPassesFilter | src/obfs.c:1431-1483 | The filter program compiled for the receiver's address, wildcard or not, accepts every packet sealed for it. |
| Obfs.SealedFlow | src/obfs.c:1445-1466 | A sealed segment goes on from the captured one by 1492 and acknowledges it, with PSH and ACK set, and ECE exactly when congestion is to be echoed. |
| Obfs.OpenUndoesSeal | src/obfs.c:1226-1316 | Opening a sealed packet gives back exactly the payload and the sender, whatever follows it in the buffer. |
| Obfs.CorruptionIsDropped | src/obfs.c:1252-1268 | A sealed packet with one changed payload word is dropped, unless the change is between 0 and 0xffff. |
| Obfs.OneWordError | src/obfs.c:1175-1202 | A change of one word goes unnoticed if and only if it is between 0 and 0xffff and the rest is not all zero. |
| Obfs.SealedSumsToAllOnes | src/obfs.c:1468-1479 | A sealed segment with its pseudo header sums to all ones. |
| Obfs.TwoFoldsSuffice | src/obfs.c:1199-1201 | Two folds of any 32-bit sum give the ones' complement sum. |
| Obfs.Chained | src/obfs.c:1261-1265 | Chained sums over even pieces give the checksum of the whole, for all packet lengths. |
| Obfs.InCksum | src/obfs.c:1175-1184 | The 32-bit sum of the words. |
| Obfs.InCksumFin | src/obfs.c:1186-1202 | The complement of the ones' complement sum. |
| Obfs.SealInPlace | src/obfs.c:1431-1483 | Writes the headers in front of the payload and leaves the payload alone. |
| Obfs.OpenInPlace | src/obfs.c:1226-1316 | Decides on any bytes as the model does, which Obfs.OpenExactly pins down. |
| JsonText.StringRoundTrip | contrib/cjson/cJSON.c:777-904 | Parsing a printed string gives it back and stops behind it. |
| JsonText.Utf8Decodes | contrib/cjson/cJSON.c:725-767 | For every code point up to 0x10ffff the bytes written decode, by section 3 of RFC 3629, to that code point and their number, whatever follows. |
| JsonText.SpelledParses | contrib/cjson/cJSON.c:777-904 | Every string of section 7 of RFC 8259, with its characters written as themselves, as two-character escapes, as `\u` escapes in either case or as surrogate pairs, is taken for the bytes it means. |
| JsonText.ParsedIsSpelled | contrib/cjson/cJSON.c:777-904 | Whatever is taken is such a string, unless a `\u` escape without four digits stands in it. |
| JsonText.StrayIsTaken | contrib/cjson/cJSON.c:620-654 | "\uZZZZ" is taken for a zero byte. |
| JsonText.StringFits | contrib/cjson/cJSON.c:791-860 | After every turn of the unescaping loop what was written is smaller than what was allocated, whether or not a later escape is malformed. |
| JsonText.ParseStringLoop | contrib/cjson/cJSON.c:777-904 | The measuring and unescaping loops compute the model's result, which JsonText.SpelledParses and JsonText.ParsedIsSpelled pin down. |
| JsonText.UnescapeLoop | contrib/cjson/cJSON.c:823-890 | The unescaping loop, which at no turn has written more than it was given room for. |
| JsonText.PrintString | contrib/cjson/cJSON.c:907-1026 | Escapes into exactly the measured number of bytes. |
| JsonGrammar.EveryTextIsTaken | contrib/cjson/cJSON.c:1098-1144 | Every text of the grammar without numbers, with any blanks and escapes, behind blanks or a byte order mark and with anything after it, is taken for its value if and only if it is nested at most 1000 deep. |
| JsonGrammar.NothingElseIsTaken | contrib/cjson/cJSON.c:1098-1144 | Whatever is taken from a text without stray escapes is the value of a text of the grammar that stands there. |
| JsonGrammar.PrintParse | contrib/cjson/cJSON.c:1317-1830 | Printing a tree, formatted or not, and parsing it gives the tree back if and only if it is nested at most 1000 deep. |
| Json.ParseValueLoop | contrib/cjson/cJSON.c:1317-1369 | Dispatches as the model does. |
| Json.ParseArrayLoop | contrib/cjson/cJSON.c:1478-1518 | The item loop computes the model's list. |
| Json.ParseObjectLoop | contrib/cjson/cJSON.c:1636-1694 | The member loop computes the model's list. |
| Json.SkipBlanks | contrib/cjson/cJSON.c:1043-1066 | Skips blanks and steps back from the end of the input. |

## Left out

- KCP's non-stream fragment mode, logging and allocation failure; stream mode is fixed to 1 in this program.
- KcpEndpoint.Kcp.Recv: has no peek mode, because the program never passes a negative length.
- Fields of a received segment that nothing reads again; the window field is truncated to 16 bits when a header is built instead of when it is encoded.
- KcpModel.UpdateAck: works on unbounded integers, because the signed overflow of the round-trip estimate is undefined in C; KcpPace.EstimateFits says when none occurs.
- KcpEndpoint.Kcp.UpdateAck: as KcpModel.UpdateAck.
- KcpEndpoint.Kcp.AckPush: the acknowledgements are a sequence, so that copying them to a larger block is not a loop.
- KcpProgram.ProgramIsReliable: asks that deliveries are at most 2^31 numbers late, which is sufficient and not necessary; KcpOrder.ProgramKeepsOrder needs less, and KcpStale says exactly what later ones do.
- KcpOrder.ProgramKeepsOrder: does not promise that every accepted byte can still be delivered, because a stale acknowledgement can make the sender forget a segment.
- KcpPace.PaceHolds: asks for a fast-retransmit setting of at most 100, which conf_check enforces.
- Sessions.Session.PacketCb: takes what ikcp_input makes ready as a parameter and the peer's frames as honest; TunnelPair.End.OnPacket supplies both. The extra flush of kcp.flush 2 is left out.
- Sessions.Session.KcpPump: takes what ikcp_update leaves as parameters; TunnelPair.End.OnUpdate supplies them.
- Sessions.Session.KcpSend: has no failure branch, because ikcp_send takes every frame; allocation failure is left out.
- Sessions.Session.KcpClose: has no branch that stops KCP, because sending EOF cannot fail.
- TunnelPair.Play: drops datagrams once either side has accepted 2^31 - 65536 bytes, so that none can be too old; TunnelPair.End.OnPacket asks only that the datagram at hand is not.
- TunnelPair.End.Settle: makes the KCP calls of a callback after it instead of during it; receives and sends touch different halves of the control block.
- HashTable.Table.Find: the hash is any function of key and seed, and keys are compared by content.
- HashTable.Table.Set: asks for a table that has lost no entry; the operations below it go on from any table.
- table_iterate, which only reads the marks.
- libev watchers, sockets, DNS, ciphers, key derivation, random numbers: their results are parameters.
- The keys, addresses and reset messages of session 0, rendezvous, the status server and configuration files.
- Obfs.OpenInPlace: leaves out the bookkeeping of captured sequence numbers and ECN, and IPv6; words are read on a little-endian host.
- Bloom filter sizing in floating point; `bits`, `bytes` and `hashes` are given with bytes * 8 >= bits.
- Json.ParseValueLoop: numbers are not modelled, because they rest on strtod and sprintf; a number counts as a failure.
- JsonGrammar.EveryTextIsTaken: has no numbers, as Json.ParseValueLoop.
- JsonGrammar.PrintParse: printing arrays and objects is modelled as functions, not as loops over the output buffer; strings in C hold no NUL byte.
