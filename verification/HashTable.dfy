/** The hash table of contrib/csnippets/algo/hashtable.c. Bucket heads, items
    and the free list share one array of slots and are linked by slot number.
    The ghost fields name the lists; `Valid` says how they lie in the array, and
    `Contents` is the map the table stands for. */
module HashTable {
  import opened Words

  type Key = seq<byte>

  /** Elements are pointers the table never follows. */
  type Element = int

  const NULL: Element := 0
  const NIL := -1
  const COLLISION_THRESHOLD := 100
  const MAX_CAPACITY := 0xffff_ffff_ffff_fffe
  const PRIMES: seq<int> :=
    [13, 31, 61, 127, 251, 509, 1021, 2039, 4093, 6143, 10223, 16381, 24571, 36857, 55291, 83939, 114679,
     163819, 229373, 311293, 425977, 573437, 770047, 1032191, 1376237, 1835003]

  datatype Item = Item(bucket: int, next: int, valid: bool, hash: int, key: Key, element: Element)

  const BLANK := Item(NIL, NIL, false, 0, [], NULL)

  function Home(capacity: int, hash: int): (b: int)
    requires capacity > 0
    ensures 0 <= b < capacity
  {
    hash % capacity
  }

  // ---------------------------------------------------------------- lists in the array

  ghost predicate Distinct(s: seq<int>) {
    forall i, j :: 0 <= i < j < |s| ==> s[i] != s[j]
  }

  ghost function After(chain: seq<int>, j: nat): int { if j + 1 < |chain| then chain[j + 1] else NIL }

  ghost function Without(s: seq<int>, j: nat): seq<int>
    requires j < |s|
  {
    seq(|s| - 1, k requires 0 <= k < |s| - 1 => if k < j then s[k] else s[k + 1])
  }

  /** Following `next` from `head` visits exactly `chain`. */
  ghost predicate Linked(p: seq<Item>, head: int, chain: seq<int>) {
    && head == (if chain == [] then NIL else chain[0])
    && (forall j :: 0 <= j < |chain| ==> 0 <= chain[j] < |p|)
    && (forall j {:trigger After(chain, j)} :: 0 <= j < |chain| ==> p[chain[j]].next == After(chain, j))
  }

  ghost predicate InBucket(p: seq<Item>, b: int, chain: seq<int>, live: set<int>)
    requires 0 <= b < |p|
  {
    && Linked(p, p[b].bucket, chain) && Distinct(chain)
    && (forall x :: x in chain ==> x in live && 0 <= x < |p| && Home(|p|, p[x].hash) == b)
  }

  /** Every live slot is in the chain of its hash, no chain holds anything else,
      and the free list holds no live slot. */
  ghost predicate Lists(p: seq<Item>, chains: seq<seq<int>>, free: seq<int>, freelist: int, live: set<int>) {
    && |chains| == |p| > 0
    && Linked(p, freelist, free) && Distinct(free) && (forall x :: x in free ==> x !in live)
    && (forall x :: x in live ==> 0 <= x < |p| && x in chains[Home(|p|, p[x].hash)])
    && (forall b :: 0 <= b < |p| ==> InBucket(p, b, chains[b], live))
  }

  lemma LinkedFrame(p: seq<Item>, p': seq<Item>, head: int, chain: seq<int>)
    requires Linked(p, head, chain) && |p| == |p'|
    requires forall x :: x in chain && 0 <= x < |p| ==> p'[x].next == p[x].next
    ensures Linked(p', head, chain)
  {
  }

  lemma LinkedCons(p: seq<Item>, x: int, chain: seq<int>)
    requires 0 <= x < |p| && Linked(p, p[x].next, chain)
    ensures Linked(p, x, [x] + chain)
  {
    var c := [x] + chain;
    forall j | 0 <= j < |c|
      ensures p[c[j]].next == After(c, j)
    {
      if j > 0 {
        assert c[j] == chain[j - 1] && After(c, j) == After(chain, j - 1);
      }
    }
  }

  /** Cutting the element at `j` out of a chain by redirecting its predecessor. */
  lemma LinkedCut(p: seq<Item>, p': seq<Item>, head: int, head': int, chain: seq<int>, j: nat)
    requires Linked(p, head, chain) && Distinct(chain) && j < |chain| && |p| == |p'|
    requires head' == if j == 0 then p[chain[0]].next else head
    requires forall k :: 0 <= k < |chain| && k != j ==>
                         p'[chain[k]].next == if k + 1 == j then p[chain[j]].next else p[chain[k]].next
    ensures Linked(p', head', Without(chain, j))
  {
    var c := Without(chain, j);
    assert forall k :: 0 <= k < |c| ==> c[k] == chain[if k < j then k else k + 1];
    forall k | 0 <= k < |c|
      ensures p'[c[k]].next == After(c, k)
    {
      var o := if k < j then k else k + 1;
      assert After(c, k) == After(chain, if k + 1 == j then j else o);
    }
    assert p[chain[0]].next == After(chain, 0);
  }

  lemma DistinctCut(s: seq<int>, j: nat)
    requires Distinct(s) && j < |s|
    ensures Distinct(Without(s, j))
    ensures forall x :: x in Without(s, j) <==> x in s && x != s[j]
  {
    var c := Without(s, j);
    forall x | x in s && x != s[j]
      ensures x in c
    {
      var k :| 0 <= k < |s| && s[k] == x;
      assert c[if k < j then k else k - 1] == x;
    }
  }

  lemma LinkFront(p: seq<Item>, chains: seq<seq<int>>, free: seq<int>, freelist: int, live: set<int>,
                  i: int, it: Item, b: int, p': seq<Item>)
    requires Lists(p, chains, free, freelist, live)
    requires 0 <= i < |p| && i !in live && i !in free
    requires b == Home(|p|, it.hash) && it.next == p[b].bucket && it.bucket == p[i].bucket
    requires var q := p[i := it]; p' == q[b := q[b].(bucket := i)]
    ensures Lists(p', chains[b := [i] + chains[b]], free, freelist, live + {i})
  {
    var chains', live' := chains[b := [i] + chains[b]], live + {i};
    LinkedFrame(p, p', freelist, free);
    forall b2 | 0 <= b2 < |p|
      ensures InBucket(p', b2, chains'[b2], live')
    {
      assert InBucket(p, b2, chains[b2], live);
      LinkedFrame(p, p', p[b2].bucket, chains[b2]);
      if b2 == b {
        LinkedCons(p', i, chains[b]);
      }
    }
  }

  /** The link that led to slot `i` leads past it, and `i` is ahead of the free list. */
  ghost predicate Relinked(p: seq<Item>, p': seq<Item>, b: int, prev: int, i: int, freelist: int)
    requires 0 <= b < |p| && 0 <= i < |p| && prev < |p|
  {
    && |p'| == |p| && p'[i].next == freelist && !p'[i].valid
    && (forall x :: 0 <= x < |p| ==>
          p'[x].hash == p[x].hash && p'[x].key == p[x].key && p'[x].element == p[x].element)
    && (forall x :: 0 <= x < |p| && x != i ==> p'[x].valid == p[x].valid)
    && (forall x :: 0 <= x < |p| && x != i ==> p'[x].next == if x == prev then p[i].next else p[x].next)
    && (forall x :: 0 <= x < |p| ==> p'[x].bucket == if x == b && prev < 0 then p[i].next else p[x].bucket)
  }

  method CutSlot(p: seq<Item>, b: int, prev: int, i: int, freelist: int) returns (q: seq<Item>)
    requires 0 <= b < |p| && 0 <= i < |p| && prev < |p|
    ensures Relinked(p, q, b, prev, i, freelist)
  {
    q := p;
    if prev < 0 {
      q := q[b := q[b].(bucket := q[i].next)];
    } else {
      q := q[prev := q[prev].(next := q[i].next)];
    }
    q := q[i := q[i].(valid := false, next := freelist)];
  }

  lemma UnlinkHere(p: seq<Item>, p': seq<Item>, chain: seq<int>, live: set<int>,
                   b: int, j: nat, prev: int, i: int, freelist: int)
    requires 0 <= b < |p| && InBucket(p, b, chain, live) && j < |chain| && i == chain[j]
    requires prev == if j == 0 then NIL else chain[j - 1]
    requires Relinked(p, p', b, prev, i, freelist)
    ensures InBucket(p', b, Without(chain, j), live - {i})
  {
    DistinctCut(chain, j);
    LinkedCut(p, p', p[b].bucket, p'[b].bucket, chain, j);
  }

  lemma UnlinkElsewhere(p: seq<Item>, p': seq<Item>, chain: seq<int>, live: set<int>,
                        b: int, b2: int, prev: int, i: int, freelist: int)
    requires 0 <= b < |p| && 0 <= b2 < |p| && b2 != b && InBucket(p, b2, chain, live)
    requires 0 <= i < |p| && prev < |p|
    requires Home(|p|, p[i].hash) == b && (prev >= 0 ==> Home(|p|, p[prev].hash) == b)
    requires Relinked(p, p', b, prev, i, freelist)
    ensures InBucket(p', b2, chain, live - {i})
  {
    LinkedFrame(p, p', p[b2].bucket, chain);
  }

  lemma Unlink(p: seq<Item>, p': seq<Item>, chains: seq<seq<int>>, free: seq<int>, freelist: int, live: set<int>,
               b: int, j: nat, prev: int, i: int)
    requires Lists(p, chains, free, freelist, live)
    requires 0 <= b < |p| && j < |chains[b]| && i == chains[b][j] && 0 <= i < |p| && i in live
    requires prev == (if j == 0 then NIL else chains[b][j - 1]) && prev < |p| && (prev >= 0 ==> prev in live)
    requires Home(|p|, p[i].hash) == b && (prev >= 0 ==> Home(|p|, p[prev].hash) == b)
    requires Relinked(p, p', b, prev, i, freelist)
    ensures Lists(p', chains[b := Without(chains[b], j)], [i] + free, i, live - {i})
  {
    var c' := Without(chains[b], j);
    LinkedFrame(p, p', freelist, free);
    LinkedCons(p', i, free);
    var chains' := chains[b := c'];
    forall b2 | 0 <= b2 < |p|
      ensures InBucket(p', b2, chains'[b2], live - {i})
    {
      if b2 == b {
        UnlinkHere(p, p', chains[b], live, b, j, prev, i, freelist);
      } else {
        UnlinkElsewhere(p, p', chains[b2], live, b, b2, prev, i, freelist);
      }
    }
    CutKeeps(p, chains, live, b, j);
  }

  lemma CutKeeps(p: seq<Item>, chains: seq<seq<int>>, live: set<int>, b: int, j: nat)
    requires |chains| == |p| && 0 <= b < |p| && j < |chains[b]| && Distinct(chains[b])
    requires forall x :: x in live ==> 0 <= x < |p| && x in chains[Home(|p|, p[x].hash)]
    ensures forall x :: x in live && x != chains[b][j] ==>
                        x in chains[b := Without(chains[b], j)][Home(|p|, p[x].hash)]
  {
    DistinctCut(chains[b], j);
  }

  // ---------------------------------------------------------------- keys

  /** Live slots and keys correspond one to one. */
  ghost predicate Keyed(p: seq<Item>, live: set<int>, slots: map<Key, int>) {
    && (forall x :: x in live ==> 0 <= x < |p| && p[x].key in slots && slots[p[x].key] == x)
    && (forall k :: k in slots ==> slots[k] in live && p[slots[k]].key == k)
  }

  ghost predicate Hashed(p: seq<Item>, live: set<int>, hashOf: (Key, int) -> int, seed: int) {
    forall x :: x in live ==> 0 <= x < |p| && p[x].hash == hashOf(p[x].key, seed)
  }

  /** The slots used so far are the live ones and the free ones. */
  ghost predicate Used(size: int, live: set<int>, free: seq<int>, capacity: int) {
    && 0 <= size && size + |free| <= capacity && |live| == size
    && (forall x :: x in live ==> 0 <= x < size + |free|)
    && (forall x :: x in free ==> 0 <= x < size + |free|)
    && (forall x :: 0 <= x < size + |free| ==> x in live || x in free)
  }

  /** The lists that lie in the array: the chain of each bucket, the free list,
      the live slots, and the slot of each key. */
  datatype Layout = Layout(chains: seq<seq<int>>, free: seq<int>, live: set<int>, slots: map<Key, int>)

  /** What keeps every access inside the array, whatever the entries are. */
  ghost predicate Shape(p: seq<Item>, g: Layout, freelist: int, size: int, hashOf: (Key, int) -> int, seed: int) {
    && Lists(p, g.chains, g.free, freelist, g.live) && Used(size, g.live, g.free, |p|) && Hashed(p, g.live, hashOf, seed)
  }

  ghost predicate Good(p: seq<Item>, g: Layout, freelist: int, size: int, hashOf: (Key, int) -> int, seed: int) {
    Shape(p, g, freelist, size, hashOf, seed) && Keyed(p, g.live, g.slots) && |g.slots| == size
  }

  /** The layout without the slot at position `j` of bucket `b`. */
  ghost function Less(g: Layout, b: int, j: nat, key: Key): Layout
    requires 0 <= b < |g.chains| && j < |g.chains[b]|
  {
    var i := g.chains[b][j];
    Layout(g.chains[b := Without(g.chains[b], j)], [i] + g.free, g.live - {i}, g.slots - {key})
  }

  /** Position `j` of bucket `b` holds slot `i`, and `prev` is the slot before it. */
  ghost predicate At(p: seq<Item>, g: Layout, b: int, j: nat, prev: int, i: int) {
    && 0 <= b < |p| == |g.chains| && j < |g.chains[b]| && i == g.chains[b][j]
    && prev == (if j == 0 then NIL else g.chains[b][j - 1])
    && 0 <= i < |p| && prev < |p| && i in g.live && (prev >= 0 ==> prev in g.live)
    && Home(|p|, p[i].hash) == b && (prev >= 0 ==> Home(|p|, p[prev].hash) == b)
  }

  ghost function Stored(p: seq<Item>, slots: map<Key, int>): map<Key, Element>
    requires forall k :: k in slots ==> 0 <= slots[k] < |p|
  {
    map k | k in slots :: p[slots[k]].element
  }

  // ---------------------------------------------------------------- compaction

  /** The slots marked valid among the first `n`, in order. */
  ghost function Marked(p: seq<Item>, n: nat): seq<int>
    requires n <= |p|
  {
    if n == 0 then [] else if p[n - 1].valid then Marked(p, n - 1) + [n - 1] else Marked(p, n - 1)
  }

  ghost function FirstHole(p: seq<Item>, n: nat): (h: nat)
    requires n <= |p|
    ensures h <= n && (h < n ==> !p[h].valid)
    ensures forall i :: 0 <= i < h ==> p[i].valid
  {
    if n == 0 then 0
    else if FirstHole(p, n - 1) < n - 1 then FirstHole(p, n - 1)
    else if p[n - 1].valid then n else n - 1
  }

  lemma {:induction false} MarkedInRange(p: seq<Item>, n: nat)
    requires n <= |p|
    ensures |Marked(p, n)| <= n
    ensures forall x :: x in Marked(p, n) <==> 0 <= x < n && p[x].valid
    ensures Distinct(Marked(p, n))
  {
    if n > 0 {
      MarkedInRange(p, n - 1);
    }
  }

  lemma MarkedAt(p: seq<Item>, i: nat)
    requires i < |Marked(p, |p|)|
    ensures 0 <= Marked(p, |p|)[i] < |p| && p[Marked(p, |p|)[i]].valid
  {
    MarkedInRange(p, |p|);
    assert Marked(p, |p|)[i] in Marked(p, |p|);
  }

  lemma {:induction false} MarkedFull(p: seq<Item>, n: nat)
    requires n <= |p|
    ensures |Marked(p, n)| <= n
    ensures |Marked(p, n)| == n <==> FirstHole(p, n) == n
  {
    if n > 0 {
      MarkedFull(p, n - 1);
    }
  }

  lemma {:induction false} FirstHoleStays(p: seq<Item>, n: nat, n': nat)
    requires n <= n' <= |p|
    ensures FirstHole(p, n) == n || FirstHole(p, n') == FirstHole(p, n)
    ensures FirstHole(p, n) == n ==> FirstHole(p, n') >= n
  {
    if n < n' {
      FirstHoleStays(p, n, n' - 1);
    }
  }

  /** The slot whose entry is in slot `i` once the first `r` slots are compacted. */
  ghost function Origin(p: seq<Item>, i: nat, r: nat): (x: nat)
    requires i < |p| && r <= |p|
    ensures x < |p|
  {
    MarkedInRange(p, r);
    var m := Marked(p, r);
    if i < |m| then (assert m[i] in m; m[i]) else i
  }

  /** Slot `i` once the first `r` slots are compacted: entries of marked slots
      have moved down in order, and exactly the slots before the first hole stay
      marked. */
  ghost function CompactItem(p: seq<Item>, i: nat, r: nat): Item
    requires i < |p| && r <= |p|
  {
    var from := p[Origin(p, i, r)];
    Item(if i < r then NIL else p[i].bucket, p[i].next,
         if i < r then i < FirstHole(p, |p|) else p[i].valid, from.hash, from.key, from.element)
  }

  ghost predicate Compacting(p: seq<Item>, q: seq<Item>, r: nat) {
    |q| == |p| && r <= |p| && (forall i :: 0 <= i < |p| ==> q[i] == CompactItem(p, i, r))
  }

  /** One turn of the loop of table_compact. */
  function CompactStep(q: seq<Item>, r: nat, w: nat): seq<Item>
    requires w <= r < |q|
  {
    var q1 := q[r := q[r].(bucket := NIL)];
    if q1[r].valid && r > w
    then q1[w := q1[w].(hash := q1[r].hash, key := q1[r].key, element := q1[r].element)][r := q1[r].(valid := false)]
    else q1
  }

  lemma CompactStepIs(p: seq<Item>, q: seq<Item>, r: nat, w: nat)
    requires r < |p| && Compacting(p, q, r) && w == |Marked(p, r)|
    ensures w <= r < |q| && Compacting(p, CompactStep(q, r, w), r + 1)
    ensures |Marked(p, r + 1)| == if q[r].valid then w + 1 else w
  {
    MarkedFull(p, r);
    MarkedInRange(p, r);
    FirstHoleStays(p, r, |p|);
    FirstHoleStays(p, r + 1, |p|);
    assert q[r] == CompactItem(p, r, r);
    var q' := CompactStep(q, r, w);
    forall i | 0 <= i < |p|
      ensures q'[i] == CompactItem(p, i, r + 1)
    {
      assert q[i] == CompactItem(p, i, r);
    }
  }

  ghost function Below(n: nat): (s: set<int>)
    ensures |s| == n && (forall x :: x in s <==> 0 <= x < n)
  {
    if n == 0 then {} else Below(n - 1) + {n - 1}
  }

  /** No free slot lies below a live one. */
  ghost predicate NoHoles(size: int, free: seq<int>) {
    forall x :: x in free ==> x >= size
  }

  ghost predicate Marks(p: seq<Item>, live: set<int>) {
    forall x :: 0 <= x < |p| ==> (p[x].valid <==> x in live)
  }

  lemma {:induction false} AsSet(s: seq<int>)
    requires Distinct(s)
    ensures |set x | x in s| == |s|
  {
    if s != [] {
      var t := s[..|s| - 1];
      AsSet(t);
      assert (set x | x in s) == (set x | x in t) + {s[|s| - 1]};
    }
  }

  /** The marked slots. */
  ghost function Flags(p: seq<Item>): set<int> { set x | 0 <= x < |p| && p[x].valid }

  /** Only live slots are marked. */
  ghost predicate Safe(p: seq<Item>, live: set<int>) {
    forall x :: 0 <= x < |p| && p[x].valid ==> x in live
  }

  /** Every live slot without a mark lies behind the first `m` and among the first `n`. */
  ghost predicate Intact(p: seq<Item>, live: set<int>, m: int, n: int) {
    forall x :: x in live && 0 <= x < |p| && !p[x].valid ==> m <= x < n
  }

  lemma Member(a: set<int>) returns (x: int)
    requires a != {}
    ensures x in a
  {
    if forall y :: y !in a {
      assert false;
    }
    x :| x in a;
  }

  lemma Preimage(from: map<int, int>, v: int) returns (x: int)
    requires v in from.Values
    ensures x in from && from[x] == v
  {
    if forall y :: y in from ==> from[y] != v {
      assert false;
    }
    x :| x in from && from[x] == v;
  }

  lemma {:induction false} SubsetCard(a: set<int>, b: set<int>)
    requires a <= b
    ensures |a| <= |b| && (|a| == |b| ==> a == b)
  {
    if a != {} {
      var x := Member(a);
      SubsetCard(a - {x}, b - {x});
      assert |b - {x}| == |b| - 1 && |a - {x}| == |a| - 1;
      assert a == (a - {x}) + {x} && b == (b - {x}) + {x};
    }
  }

  lemma FlagsAre(p: seq<Item>)
    ensures |Marked(p, |p|)| == |Flags(p)| && (forall x :: x in Marked(p, |p|) <==> x in Flags(p))
  {
    var m := Marked(p, |p|);
    MarkedInRange(p, |p|);
    AsSet(m);
    assert (set x | x in m) == Flags(p);
  }

  /** The marks before the first hole are marks of live slots. */
  lemma FlagsFit(p: seq<Item>, live: set<int>)
    requires Safe(p, live)
    ensures FirstHole(p, |p|) <= |Flags(p)| <= |live|
    ensures Marks(p, live) && (forall x :: x in live ==> 0 <= x < |p|) ==> Flags(p) == live
  {
    SubsetCard(Flags(p), live);
    SubsetCard(Below(FirstHole(p, |p|)), Flags(p));
  }

  /** Where the entries in the first `size` slots come from after a compaction. */
  ghost function Gathering(p: seq<Item>, size: int): (from: map<int, int>)
    requires 0 <= size <= |p|
  {
    map x | 0 <= x < size :: Origin(p, x, |p|)
  }

  /** A compaction keeps the entry of a live slot exactly when the slot is marked or
      lies behind the marked entries and among the first `size`. */
  lemma GatheringSlot(p: seq<Item>, live: set<int>, size: int, x: int)
    requires 0 <= size <= |p| && Safe(p, live) && |live| == size && x in live && 0 <= x < |p|
    ensures x in Gathering(p, size).Values <==> p[x].valid || |Flags(p)| <= x < size
  {
    var from, m := Gathering(p, size), Marked(p, |p|);
    FlagsAre(p);
    FlagsFit(p, live);
    forall i | 0 <= i < |m| ensures 0 <= m[i] < |p| && p[m[i]].valid {
      MarkedAt(p, i);
    }
    if p[x].valid {
      assert x in Flags(p);
      var i :| 0 <= i < |m| && m[i] == x;
      assert from[i] == x;
    } else {
      if |m| <= x < size {
        assert from[x] == x;
      }
      if x in from.Values {
        var i := Preimage(from, x);
      }
    }
  }

  /** The entries that end up in the first `size` slots are those of the live slots,
      exactly when no unmarked live slot is in the way. */
  lemma GatheringExact(p: seq<Item>, live: set<int>, size: int)
    requires 0 <= size <= |p| && Safe(p, live) && |live| == size && (forall x :: x in live ==> 0 <= x < |p|)
    ensures live <= Gathering(p, size).Values <==> Intact(p, live, |Flags(p)|, size)
    ensures live <= Gathering(p, size).Values ==> Gathering(p, size).Values == live
  {
    var from := Gathering(p, size);
    forall x | x in live
      ensures x in from.Values <==> p[x].valid || |Flags(p)| <= x < size
    {
      GatheringSlot(p, live, size, x);
    }
    if live <= from.Values {
      ValuesAtMost(from);
      assert from.Keys == Below(size);
      SubsetCard(live, from.Values);
    }
  }

  lemma {:induction false} ValuesAtMost(from: map<int, int>)
    ensures |from.Values| <= |from.Keys|
    decreases |from|
  {
    if from.Keys != {} {
      var x := Member(from.Keys);
      var rest := from - {x};
      assert rest.Keys == from.Keys - {x};
      ValuesAtMost(rest);
      forall v | v in from.Values ensures v in rest.Values + {from[x]} {
        var y := Preimage(from, v);
        assert y != x ==> rest[y] == v;
      }
      SubsetCard(from.Values, rest.Values + {from[x]});
    }
  }

  /** A map onto as many values as it has keys is one to one. */
  lemma OneToOne(from: map<int, int>, x: int, y: int)
    requires |from.Values| == |from.Keys| && x in from && y in from && from[x] == from[y]
    ensures x == y
  {
    if x != y {
      var rest := from - {x};
      assert rest.Keys == from.Keys - {x};
      forall v | v in from.Values ensures v in rest.Values {
        var z := Preimage(from, v);
        assert rest[if z == x then y else z] == v;
      }
      SubsetCard(from.Values, rest.Values);
      ValuesAtMost(rest);
    }
  }

  // ---------------------------------------------------------------- entries that move

  /** Slot `x` of `q` holds the entry that slot `from[x]` of `p` held. */
  ghost predicate Carries(p: seq<Item>, q: seq<Item>, from: map<int, int>) {
    forall x :: x in from ==>
                  && 0 <= x < |q| && 0 <= from[x] < |p|
                  && q[x].key == p[from[x]].key && q[x].element == p[from[x]].element
  }

  /** The slot that holds what slot `y` held. */
  ghost function Back(from: map<int, int>, y: int): (x: int)
    ensures y in from.Values ==> x in from && from[x] == y
  {
    if exists x :: x in from && from[x] == y then var x :| x in from && from[x] == y; x else NIL
  }

  ghost function Rerouted(slots: map<Key, int>, from: map<int, int>): map<Key, int> {
    map k | k in slots :: Back(from, slots[k])
  }

  /** If every live entry was carried over, the table stands for the same map. */
  lemma Carried(p: seq<Item>, live: set<int>, slots: map<Key, int>, q: seq<Item>, from: map<int, int>)
    requires Keyed(p, live, slots) && Carries(p, q, from) && from.Values == live && |from.Keys| == |live|
    ensures var slots' := Rerouted(slots, from);
            Keyed(q, from.Keys, slots') && |slots'| == |slots| && Stored(q, slots') == Stored(p, slots)
  {
    hide Back;
    var slots' := Rerouted(slots, from);
    assert slots'.Keys == slots.Keys;
    forall k | k in slots
      ensures slots'[k] in from && from[slots'[k]] == slots[k] && q[slots'[k]].key == k
      ensures q[slots'[k]].element == p[slots[k]].element
    {
      assert slots[k] in live;
    }
    forall x | x in from
      ensures 0 <= x < |q| && q[x].key in slots' && slots'[q[x].key] == x
    {
      CarriedSlot(p, live, slots, q, from, x);
    }
    assert |slots'.Keys| == |slots.Keys|;
  }

  lemma CarriedSlot(p: seq<Item>, live: set<int>, slots: map<Key, int>, q: seq<Item>, from: map<int, int>, x: int)
    requires Keyed(p, live, slots) && Carries(p, q, from) && from.Values == live && |from.Keys| == |live| && x in from
    ensures 0 <= x < |q| && q[x].key in slots && Rerouted(slots, from)[q[x].key] == x
  {
    hide Back;
    assert from[x] in from.Values;
    OneToOne(from, x, Rerouted(slots, from)[q[x].key]);
  }

  /** If nothing was lost on the way from `p` to `q`, the same map is there. */
  ghost predicate Follows(p: seq<Item>, g: Layout, q: seq<Item>, g': Layout, from: map<int, int>) {
    g.live <= from.Values && Keyed(p, g.live, g.slots) ==>
      Keyed(q, g'.live, g'.slots) && |g'.slots| == |g.slots| && Stored(q, g'.slots) == Stored(p, g.slots)
  }

  /** The first `n` slots of `q` are what compacting `p` leaves there, and exactly
      those before the first hole of `p` are marked. */
  ghost predicate Regathered(p: seq<Item>, n: int, q: seq<Item>) {
    && 0 <= n <= |p| && n <= |q|
    && (forall x :: 0 <= x < n ==>
          q[x].key == p[Origin(p, x, |p|)].key && q[x].element == p[Origin(p, x, |p|)].element)
    && (forall x :: 0 <= x < |q| ==> (q[x].valid <==> x < FirstHole(p, |p|)))
  }

  /** The first `n` entries and their marks are the same, and no other slot is marked. */
  ghost predicate SameStart(p: seq<Item>, q: seq<Item>, n: int) {
    && 0 <= n <= |p| && n <= |q|
    && (forall x :: 0 <= x < n ==> q[x].key == p[x].key && q[x].element == p[x].element && q[x].valid == p[x].valid)
    && (forall x :: n <= x < |q| ==> !q[x].valid)
  }

  lemma RegatheredOn(p: seq<Item>, n: int, q: seq<Item>, q': seq<Item>)
    requires Regathered(p, n, q) && SameStart(q, q', n) && FirstHole(p, |p|) <= n
    ensures Regathered(p, n, q')
  {
    hide FirstHole, Origin;
  }

  lemma RegatheredCarries(p: seq<Item>, n: int, q: seq<Item>)
    requires Regathered(p, n, q)
    ensures Carries(p, q, Gathering(p, n)) && Gathering(p, n).Keys == Below(n)
  {
    hide FirstHole;
  }

  /** Compacting right marks leaves right marks exactly when no hole was met. */
  lemma RegatheredMarks(p: seq<Item>, g: Layout, size: int, q: seq<Item>)
    requires Regathered(p, size, q) && Marks(p, g.live) && Used(size, g.live, g.free, |p|)
    requires forall x :: x in g.free ==> x !in g.live
    ensures Marks(q, Below(size)) <==> NoHoles(size, g.free)
  {
    var h := FirstHole(p, |p|);
    NoHolesMeansPrefix(p, size, g.live, g.free);
    PrefixMarks(q, h, size);
  }

  lemma PrefixMarks(q: seq<Item>, h: nat, size: nat)
    requires h <= size <= |q| && (forall x :: 0 <= x < |q| ==> (q[x].valid <==> x < h))
    ensures Marks(q, Below(size)) <==> h == size
  {
    assert h < size ==> !q[h].valid && h in Below(size);
  }

  lemma NoHolesMeansPrefix(p: seq<Item>, size: int, live: set<int>, free: seq<int>)
    requires Used(size, live, free, |p|) && Marks(p, live)
    requires forall x :: x in free ==> x !in live
    ensures FirstHole(p, |p|) <= size
    ensures FirstHole(p, |p|) == size <==> NoHoles(size, free)
  {
    var h := FirstHole(p, |p|);
    FlagsFit(p, live);
    assert h < size ==> h in free;
    if h == size {
      SubsetCard(Below(h), live);
    }
  }

  // ---------------------------------------------------------------- capacities

  /** The first of `ps` from `idx` on that is at least `x`. */
  function FirstFrom(ps: seq<int>, x: int, idx: nat): (c: int)
    requires idx < |ps| && x <= ps[|ps| - 1]
    ensures c in ps && c >= x
    decreases |ps| - idx
  {
    if x > ps[idx] then FirstFrom(ps, x, idx + 1) else ps[idx]
  }

  /** In an increasing list it is the least. */
  lemma {:induction false} FirstIsLeast(ps: seq<int>, x: int, idx: nat)
    requires idx < |ps| && x <= ps[|ps| - 1] && (forall i, j :: 0 <= i < j < |ps| ==> ps[i] < ps[j])
    ensures forall k :: idx <= k < |ps| && x <= ps[k] ==> FirstFrom(ps, x, idx) <= ps[k]
    decreases |ps| - idx
  {
    if x > ps[idx] {
      FirstIsLeast(ps, x, idx + 1);
    }
  }

  function Fitting(x: int): int {
    if x <= PRIMES[|PRIMES| - 1] then FirstFrom(PRIMES, x, 0)
    else Min(if x % 2 == 0 then x + 1 else x, MAX_CAPACITY)
  }

  /** The smallest listed prime that is at least `x`, where there is one. */
  lemma FittingIsLeast(x: int)
    requires x <= PRIMES[|PRIMES| - 1]
    ensures Fitting(x) in PRIMES && x <= Fitting(x) && (forall c :: c in PRIMES && x <= c ==> Fitting(x) <= c)
  {
    PrimesGoUp();
    FirstIsLeast(PRIMES, x, 0);
  }

  lemma PrimesGoUp()
    ensures forall i, j :: 0 <= i < j < |PRIMES| ==> PRIMES[i] < PRIMES[j]
  {
    GoesUp(PRIMES);
  }

  lemma {:induction false} GoesUp(ps: seq<int>)
    requires forall i :: 0 < i < |ps| ==> ps[i - 1] < ps[i]
    ensures forall i, j :: 0 <= i < j < |ps| ==> ps[i] < ps[j]
  {
    if ps != [] {
      var n := |ps| - 1;
      GoesUp(ps[..n]);
      forall i | 0 <= i < n ensures ps[i] < ps[n] {
        assert i < n - 1 ==> ps[..n][i] < ps[..n][n - 1];
      }
      assert forall i, j :: 0 <= i < j < n ==> ps[..n][i] < ps[..n][j];
    }
  }

  lemma FittingFits(x: int)
    ensures Max(1, Min(x, MAX_CAPACITY)) <= Fitting(x) <= MAX_CAPACITY
  {
    assert forall c :: c in PRIMES ==> 1 <= c <= MAX_CAPACITY;
    if x <= PRIMES[|PRIMES| - 1] {
      FittingIsLeast(x);
    }
  }

  method CeilCapacity(x: int) returns (c: int)
    ensures c == Fitting(x)
    ensures x <= PRIMES[|PRIMES| - 1] ==> c in PRIMES && x <= c && (forall q :: q in PRIMES && x <= q ==> c <= q)
    ensures x > PRIMES[|PRIMES| - 1] ==> c == MAX_CAPACITY || (c % 2 == 1 && x <= c <= x + 1)
  {
    if x <= PRIMES[|PRIMES| - 1] {
      FittingIsLeast(x);
    }
    if x > PRIMES[|PRIMES| - 1] {
      return Min(if x % 2 == 0 then x + 1 else x, MAX_CAPACITY);
    }
    var idx := 0;
    while x > PRIMES[idx]
      invariant 0 <= idx < |PRIMES| && FirstFrom(PRIMES, x, idx) == Fitting(x)
      decreases |PRIMES| - idx
    {
      idx := idx + 1;
    }
    c := PRIMES[idx];
  }

  function MaxLoad(fast: bool, capacity: int): int { if fast then capacity / 4 * 3 else capacity }

  /** `n` and a third more, as far as a table can go. */
  function Plus(n: int, part: int): int {
    var want := part / 3 + 1;
    if n < MAX_CAPACITY - want then n + want else MAX_CAPACITY
  }

  /** The capacity table_reserve aims for. */
  function Target(fast: bool, size: int, newSize: int): int {
    var n := Max(newSize, size);
    Fitting(if fast then Plus(n, newSize) else n)
  }

  // ---------------------------------------------------------------- the table

  class Table {
    const hashOf: (Key, int) -> int
    const fast: bool
    var size: int
    var maxLoad: int
    var freelist: int
    var seed: int
    var p: seq<Item>
    ghost var g: Layout

    ghost predicate Sized()
      reads this
    {
      0 < |p| <= MAX_CAPACITY && maxLoad == MaxLoad(fast, |p|)
    }

    ghost predicate Valid()
      reads this
    {
      Sized() && Good(p, g, freelist, size, hashOf, seed)
    }

    /** Everything but the entries is as it should be, and only live slots are
        marked: what holds for good, even of a table that has lost an entry. */
    ghost predicate Shaped()
      reads this
    {
      Sized() && Shape(p, g, freelist, size, hashOf, seed) && Safe(p, g.live)
    }

    /** The marks that table_compact and table_iterate go by are right. */
    ghost predicate Flagged()
      reads this
    {
      Marks(p, g.live)
    }

    ghost function Contents(): map<Key, Element>
      requires Valid()
      reads this
    {
      Stored(p, g.slots)
    }

    /** How many other items a search passes. */
    ghost function Collisions(key: Key): nat
      requires Valid()
      reads this
    {
      Place(g.chains[Home(|p|, hashOf(key, seed))], if key in g.slots then g.slots[key] else NIL)
    }

    constructor (hashOf: (Key, int) -> int, fast: bool, seed: int)
      ensures Valid() && Shaped() && Flagged() && Contents() == map[]
      ensures |p| == PRIMES[0] && g.live == {} && g.free == [] && this.fast == fast
    {
      this.hashOf, this.fast, this.seed := hashOf, fast, seed;
      size, freelist, maxLoad := 0, NIL, MaxLoad(fast, PRIMES[0]);
      p := seq(PRIMES[0], _ => BLANK);
      g := Layout(seq(PRIMES[0], _ => []), [], {}, map[]);
    }

    /** The walk down a chain that set, find and del begin with. */
    method Locate(key: Key, h: int, b: int) returns (i: int, prev: int, n: nat)
      requires Valid() && h == hashOf(key, seed) && b == Home(|p|, h)
      ensures n == Collisions(key)
      ensures i != NIL <==> key in g.slots
      ensures i != NIL ==> i == g.slots[key] && At(p, g, b, n, prev, i)
    {
      hide Good;
      ChainHead(p, g, freelist, size, hashOf, seed, b);
      ghost var c := g.chains[b];
      i, prev, n := p[b].bucket, NIL, 0;
      while i != NIL
        invariant n <= |c| && i == Nth(c, n) && prev == Nth(c, n - 1)
        invariant key in g.slots ==> g.slots[key] !in c[..n]
        decreases |c| - n
      {
        ChainNext(p, g, freelist, size, hashOf, seed, b, n);
        if p[i].hash == h && p[i].key == key {
          Located(p, g, freelist, size, hashOf, seed, b, n);
          return;
        }
        assert c[..n + 1] == c[..n] + [i];
        SlotOf(p, g, freelist, size, hashOf, seed, key);
        prev, i, n := i, p[i].next, n + 1;
      }
      assert c[..n] == c;
      NotLocated(p, g, freelist, size, hashOf, seed, b, key);
    }

    method Find(key: Key) returns (found: bool, element: Element)
      requires Valid()
      ensures found == (key in Contents())
      ensures element == if found then Contents()[key] else NULL
    {
      var h := hashOf(key, seed);
      var i, prev, n := Locate(key, h, Home(|p|, h));
      found := i != NIL;
      element := if found then p[i].element else NULL;
    }

    // -------------------------------------------------------------- removing

    /** Takes the slot at position `j` of bucket `b` out of its chain. */
    method RemoveAt(b: int, prev: int, i: int, ghost j: nat)
      requires Valid() && At(p, g, b, j, prev, i)
      modifies this`p, this`size, this`freelist, this`g
      ensures Valid() && (old(Flagged()) ==> Flagged()) && (old(Shaped()) ==> Shaped())
      ensures old(p)[i].key in old(g).slots && g == Less(old(g), b, j, old(p)[i].key)
      ensures Relinked(old(p), p, b, prev, i, old(freelist))
    {
      hide Good, Shape, Safe, Marks, Relinked, At;
      AtInRange(p, g, b, j, prev, i);
      var q := CutSlot(p, b, prev, i, freelist);
      Removed(p, q, g, freelist, size, hashOf, seed, b, j, prev, i);
      GoodIsShape(q, Less(g, b, j, p[i].key), i, size - 1, hashOf, seed);
      g := Less(g, b, j, p[i].key);
      p, freelist, size := q, i, size - 1;
    }

    method Del(key: Key) returns (element: Element)
      requires Valid()
      modifies this`p, this`size, this`freelist, this`g
      ensures Valid() && (old(Flagged()) ==> Flagged()) && (old(Shaped()) ==> Shaped())
      ensures Contents() == old(Contents()) - {key}
      ensures element == if key in old(Contents()) then old(Contents())[key] else NULL
      ensures key in old(g).slots ==> var i := old(g).slots[key];
                && g.live == old(g).live - {i} && g.free == [i] + old(g).free && g.slots == old(g).slots - {key}
                && SameButMark(old(p), p, i)
    {
      hide Good;
      var h := hashOf(key, seed);
      var b := Home(|p|, h);
      SlotsInRange(p, g, freelist, size, hashOf, seed);
      var i, prev, n := Locate(key, h, b);
      if i == NIL {
        return NULL;
      }
      element := p[i].element;
      RemoveAt(b, prev, i, n);
      StoredMinus(old(p), p, old(g).slots, key);
    }

    /** The pass of table_filter over one bucket. */
    method FilterBucket(keep: (Key, Element) -> bool, b: int)
      requires Valid() && 0 <= b < |p|
      modifies this`p, this`size, this`freelist, this`g
      ensures Valid() && (old(Flagged()) ==> Flagged()) && (old(Shaped()) ==> Shaped())
      ensures Narrowed(old(p), old(g), p, g, keep) && Passed(p, g, keep, b, |g.chains[b]|)
      ensures SameElsewhere(old(g), g, b)
    {
      hide Good, Less, Relinked, Narrowed, SameElsewhere;
      ChainHead(p, g, freelist, size, hashOf, seed, b);
      SlotsInRange(p, g, freelist, size, hashOf, seed);
      Unfiltered(p, g, keep, b);
      ghost var p1, g1 := p, g;
      var i, prev := p[b].bucket, NIL;
      ghost var n := 0;
      while i != NIL
        invariant Valid() && (old(Flagged()) ==> Flagged()) && (old(Shaped()) ==> Shaped())
        invariant Narrowed(p1, g1, p, g, keep) && Passed(p, g, keep, b, n)
        invariant SameElsewhere(g1, g, b)
        invariant 0 <= n && i == Nth(g.chains[b], n) && prev == Nth(g.chains[b], n - 1)
        decreases |g.chains[b]| - n
      {
        ChainNext(p, g, freelist, size, hashOf, seed, b, n);
        if keep(p[i].key, p[i].element) {
          prev, i, n := i, p[i].next, n + 1;
        } else {
          ghost var p0, g0, f0 := p, g, freelist;
          Located(p, g, freelist, size, hashOf, seed, b, n);
          RemoveAt(b, prev, i, n);
          FilteredOut(p1, g1, p0, g0, p, g, f0, keep, b, n, prev, i);
          ChainHead(p, g, freelist, size, hashOf, seed, b);
          if n > 0 {
            ChainNext(p, g, freelist, size, hashOf, seed, b, n - 1);
          }
          i := if prev < 0 then p[b].bucket else p[prev].next;
        }
      }
      ChainHead(p, g, freelist, size, hashOf, seed, b);
    }

    method Filter(keep: (Key, Element) -> bool)
      requires Valid()
      modifies this`p, this`size, this`freelist, this`g
      ensures Valid() && (old(Flagged()) ==> Flagged()) && (old(Shaped()) ==> Shaped())
      ensures Contents() == Kept(old(Contents()), keep)
    {
      hide Good, Narrowed, AllPassed, SameElsewhere;
      SlotsInRange(p, g, freelist, size, hashOf, seed);
      ghost var p1, g1 := p, g;
      ChainHead(p, g, freelist, size, hashOf, seed, 0);
      Unfiltered(p, g, keep, 0);
      NonePassed(p, g, keep);
      var b := 0;
      while b < |p|
        invariant 0 <= b <= |p| == |p1| && Valid() && (old(Flagged()) ==> Flagged()) && (old(Shaped()) ==> Shaped())
        invariant Narrowed(p1, g1, p, g, keep) && AllPassed(p, g, keep, b)
      {
        ghost var p0, g0 := p, g;
        FilterBucket(keep, b);
        Filtered(p1, g1, p0, g0, p, g, keep, b);
        b := b + 1;
      }
      SlotsInRange(p, g, freelist, size, hashOf, seed);
      FilterContents(p1, g1, p, g, freelist, size, hashOf, seed, keep);
    }

    // -------------------------------------------------------------- moving entries

    /** No bucket holds anything and no slot past the entries is marked. */
    ghost predicate Flattened()
      reads this
    {
      Sized() && freelist == NIL && Loose(p, size)
    }

    /** table_compact goes by the marks alone. */
    method Compact()
      requires Sized() && Used(size, g.live, g.free, |p|) && Safe(p, g.live)
      modifies this`p, this`freelist
      ensures Flattened() && |p| == |old(p)| && Regathered(old(p), size, p)
    {
      hide Used, Safe, Compacting, Loose, Regathered;
      var q := MoveDown(p);
      CompactDone(p, q, g, size);
      p, freelist := q, NIL;
    }

    /** `ok` is whether realloc succeeds. */
    method Realloc(newCapacity: int, ok: bool)
      requires Flattened() && size <= newCapacity && 0 < newCapacity <= MAX_CAPACITY
      modifies this`p, this`maxLoad
      ensures Flattened() && |p| == (if ok then newCapacity else |old(p)|) && SameStart(old(p), p, size)
    {
      hide Loose, SameStart;
      StartsSame(p, size);
      if |p| == newCapacity || !ok {
        return;
      }
      Resized(p, size, newCapacity);
      if newCapacity > |p| {
        p := p + seq(newCapacity - |p|, _ => BLANK);
      } else {
        p := p[..newCapacity];
      }
      maxLoad := MaxLoad(fast, newCapacity);
    }

    /** Chains the gathered entries again, by the current seed. */
    method Rehash()
      requires Flattened()
      modifies this`p, this`g
      ensures Shaped() && g.free == [] && g.live == Below(size) && |p| == |old(p)| && SameStart(old(p), p, size)
    {
      hide Shape, Safe, Loose, SameStart, Chained;
      var q, chains := ChainUp(p, size, hashOf, seed);
      g := Layout(chains, [], Below(size), map[]);
      ChainedAll(p, q, chains, size, hashOf, seed);
      p := q;
    }

    /** table_reserve. When it moves entries, `from` says where each one was. They
        are all there exactly when no live slot without a mark was in the way, and
        then the table stands for the same map. */
    method Reserve(newSize: int, ok: bool) returns (ghost from: map<int, int>)
      requires Shaped() && 0 <= newSize
      modifies this`p, this`g, this`freelist, this`maxLoad
      ensures Shaped() && |p| == if ok then Target(fast, size, newSize) else |old(p)|
      ensures from.Keys == g.live && Carries(old(p), p, from) && Follows(old(p), old(g), p, g, from)
      ensures if Target(fast, size, newSize) == |old(p)| then p == old(p) && g == old(g) && from == Same(g.live)
              else g.free == [] && g.live == Below(size) && Moved(old(p), size, p, from)
      ensures old(g).live <= from.Values <==>
              Target(fast, size, newSize) == |old(p)| || Intact(old(p), old(g).live, |Flags(old(p))|, size)
      ensures old(g).live <= from.Values && old(Valid()) ==> Valid() && Contents() == old(Contents())
      ensures old(Flagged()) ==>
                (Flagged() <==> Target(fast, size, newSize) == |old(p)| || NoHoles(size, old(g).free))
    {
      hide Shape, Safe, Loose, Regathered, SameStart, Marks, NoHoles, Fitting, Intact, Flags, Carries, Follows, Good,
        Moved;
      ShapeSize(p, g, freelist, size, hashOf, seed);
      var newCapacity := newSize;
      if newCapacity < size {
        newCapacity := size;
      }
      if fast {
        newCapacity := Plus(newCapacity, newSize);
      }
      TargetFits(fast, size, newSize);
      newCapacity := CeilCapacity(newCapacity);
      ghost var p0, g0, f0 := p, g, freelist;
      if |p| == newCapacity {
        Unmoved(p, g, freelist, size, hashOf, seed);
        return Same(g.live);
      }
      Compact();
      ghost var p1 := p;
      Realloc(newCapacity, ok);
      ghost var p2 := p;
      Rehash();
      GatheredAgain(p0, g0, size, p1, p2, p);
      from := Gathering(p0, size);
      Resettled(p0, g0, f0, seed, p, g, freelist, seed, size, hashOf);
      g := g.(slots := Rerouted(g0.slots, from));
    }

    method Grow(ok: bool) returns (ghost from: map<int, int>)
      requires Shaped()
      modifies this`p, this`g, this`freelist, this`maxLoad
      ensures Shaped() && |p| == if ok then Target(fast, size, Plus(size, size)) else |old(p)|
      ensures from.Keys == g.live && Carries(old(p), p, from) && Follows(old(p), old(g), p, g, from)
      ensures if Target(fast, size, Plus(size, size)) == |old(p)| then p == old(p) && g == old(g) && from == Same(g.live)
              else g.free == [] && g.live == Below(size) && Moved(old(p), size, p, from)
      ensures old(g).live <= from.Values <==>
              Target(fast, size, Plus(size, size)) == |old(p)| || Intact(old(p), old(g).live, |Flags(old(p))|, size)
      ensures old(Flagged()) ==>
                (Flagged() <==> Target(fast, size, Plus(size, size)) == |old(p)| || NoHoles(size, old(g).free))
    {
      hide Shape, Safe, Marks, NoHoles, Fitting, Intact, Flags, Carries, Follows, Good, Moved;
      ShapeSize(p, g, freelist, size, hashOf, seed);
      var estimated := Plus(size, size);
      from := Reserve(estimated, ok);
    }

    /** table_reseed; `newSeed` is the random number drawn. */
    method Reseed(newSeed: int) returns (ghost from: map<int, int>)
      requires Shaped()
      modifies this`p, this`g, this`freelist, this`seed
      ensures Shaped() && |p| == |old(p)| && g.free == [] && g.live == Below(size) && Moved(old(p), size, p, from)
      ensures from.Keys == g.live && Carries(old(p), p, from) && Follows(old(p), old(g), p, g, from)
      ensures old(g).live <= from.Values <==> Intact(old(p), old(g).live, |Flags(old(p))|, size)
      ensures old(g).live <= from.Values && old(Valid()) ==> Valid() && Contents() == old(Contents())
      ensures old(Flagged()) ==> (Flagged() <==> NoHoles(size, old(g).free))
    {
      hide Shape, Safe, Loose, Regathered, SameStart, Marks, NoHoles, Intact, Flags, Carries, Follows, Good, Moved;
      ghost var p0, g0, f0, s0 := p, g, freelist, seed;
      ShapeSize(p, g, freelist, size, hashOf, seed);
      seed := newSeed;
      Compact();
      ghost var p1 := p;
      Rehash();
      StartsSame(p1, size);
      GatheredAgain(p0, g0, size, p1, p1, p);
      from := Gathering(p0, size);
      Resettled(p0, g0, f0, s0, p, g, freelist, seed, size, hashOf);
      g := g.(slots := Rerouted(g0.slots, from));
    }

    // -------------------------------------------------------------- setting

    /** Slot `index` is claimed but not filled. */
    ghost predicate Open(index: int)
      reads this
    {
      Sized() && Claimed(p, g, freelist, size, hashOf, seed, index) && Safe(p, g.live)
    }

    /** A new entry makes the table move its entries to another capacity. */
    ghost predicate Grows()
      reads this
    {
      g.free == [] && size >= maxLoad && Target(fast, size, Plus(size, size)) != |p|
    }

    /** There is no room for a new entry; `ok` is whether realloc succeeds. */
    ghost predicate Full(ok: bool)
      reads this
    {
      g.free == [] && size == |p| && (!ok || |p| == MAX_CAPACITY)
    }

    /** Claims the first slot of the free list. */
    method TakeFree() returns (index: int)
      requires Shaped() && g.free != []
      modifies this`g, this`freelist, this`size
      ensures Open(index) && 0 <= index == old(g).free[0] && size == old(size) + 1 && g == old(g).(free := old(g).free[1..])
    {
      hide Shape, Safe, Claimed;
      ClaimFree(p, g, freelist, size, hashOf, seed);
      index := freelist;
      freelist, size := p[index].next, size + 1;
      g := g.(free := g.free[1..]);
    }

    /** Claims the slot behind the used part, growing the table if it is full; NIL
        if that fails. */
    method TakeNext(ok: bool) returns (index: int, ghost from: map<int, int>)
      requires Shaped() && g.free == []
      modifies this`p, this`g, this`freelist, this`maxLoad, this`size
      ensures index == NIL <==> old(Full(ok))
      ensures if index == NIL then Shaped() && size == old(size)
              else Open(index) && size == old(size) + 1 && index == old(size)
      ensures from.Keys == g.live && Carries(old(p), p, from) && Follows(old(p), old(g), p, g, from)
      ensures if old(Grows()) then g.free == [] && g.live == Below(old(size)) && Moved(old(p), old(size), p, from)
              else p == old(p) && g == old(g) && from == Same(g.live)
      ensures old(g).live <= from.Values <==>
              !old(Grows()) || Intact(old(p), old(g).live, |Flags(old(p))|, old(size))
      ensures old(Flagged()) ==> Flagged()
    {
      hide Shape, Safe, Claimed, Marks, NoHoles, Fitting, Plus, Intact, Flags, Carries, Follows, Moved, Good, Stored;
      ShapeSize(p, g, freelist, size, hashOf, seed);
      NoneFree(size);
      if size >= maxLoad {
        GrownFits(fast, size);
        from := Grow(ok);
        ShapeSize(p, g, freelist, size, hashOf, seed);
        if size == |p| {
          return NIL, from;
        }
      } else {
        Unmoved(p, g, freelist, size, hashOf, seed);
        from := Same(g.live);
      }
      ClaimNext(p, g, freelist, size, hashOf, seed);
      index := size;
      size := size + 1;
    }

    /** Claims a slot for a new entry, from the free list or behind the used part. */
    method TakeSlot(ok: bool) returns (index: int, ghost from: map<int, int>)
      requires Shaped()
      modifies this`p, this`g, this`freelist, this`maxLoad, this`size
      ensures index == NIL <==> old(Full(ok))
      ensures if index == NIL then Shaped() && size == old(size)
              else && Open(index) && size == old(size) + 1
                   && index == if old(g).free == [] then old(size) else old(g).free[0]
      ensures from.Keys == g.live && Carries(old(p), p, from) && Follows(old(p), old(g), p, g, from)
      ensures if old(Grows()) then g.free == [] && g.live == Below(old(size)) && Moved(old(p), old(size), p, from)
              else && p == old(p) && from == Same(g.live)
                   && g == old(g).(free := if old(g).free == [] then [] else old(g).free[1..])
      ensures old(g).live <= from.Values <==>
              !old(Grows()) || Intact(old(p), old(g).live, |Flags(old(p))|, old(size))
      ensures old(Flagged()) ==> Flagged()
    {
      hide Shape, Safe, Claimed, Marks, Intact, Flags, Carries, Follows, Moved, Target;
      FreeHead(p, g, freelist, size, hashOf, seed);
      if freelist != NIL {
        ghost var g0 := g;
        Unmoved(p, g, freelist, size, hashOf, seed);
        from := Same(g.live);
        index := TakeFree();
        FollowsAlso(p, g0, g, from);
      } else {
        index, from := TakeNext(ok);
      }
    }

    /** Fills a claimed slot and puts it at the head of its bucket. */
    method InsertAt(index: int, b: int, h: int, key: Key, element: Element)
      requires Open(index) && h == hashOf(key, seed) && b == Home(|p|, h)
      modifies this`p, this`g
      ensures Shaped() && g.free == old(g).free && g.live == old(g).live + {index} && index !in old(g).live
      ensures Entered(old(p), p, index, key, element)
      ensures Keyed(old(p), old(g).live, old(g).slots) && |old(g).slots| == size - 1 && key !in old(g).slots ==>
                Valid() && Contents() == Stored(old(p), old(g).slots)[key := element]
      ensures old(Flagged()) ==> Flagged()
    {
      hide Good, Shape, Safe, Claimed, Marks, Stored, Keyed;
      ClaimedInRange(p, g, freelist, size, hashOf, seed, index);
      var it := p[index].(valid := true, hash := h, key := key, element := element, next := p[b].bucket);
      var q := p[index := it];
      q := q[b := q[b].(bucket := index)];
      Filled(p, g, freelist, size, hashOf, seed, index, it, b, q);
      g := Layout(LinkedIn(g.chains, index, b), g.free, g.live + {index}, g.slots[key := index]);
      p := q;
    }

    /** A new entry leaves every other in the table. */
    ghost predicate AddKeeps(long: bool, ok: bool)
      reads this
    {
      if Grows() then
        Intact(p, g.live, |Flags(p)|, size) && (!long || Full(ok) || Flags(p) == g.live)
      else !long || Full(ok) || Intact(p, g.live, |Flags(p)| + 1, size + 1)
    }

    /** table_set leaves every other entry in the table. With right marks it does. */
    ghost predicate SetKeeps(key: Key, ok: bool)
      requires Valid()
      reads this
    {
      var long := Collisions(key) > COLLISION_THRESHOLD;
      if key in g.slots then !long || Intact(p, g.live, |Flags(p)|, size) else AddKeeps(long, ok)
    }

    /** What the free list holds after a set, and whether that leaves a hole. */
    ghost predicate HolesAfterSet(key: Key)
      requires Valid()
      reads this
    {
      if key in g.slots then !NoHoles(size, g.free)
      else g.free != [] && !NoHoles(size + 1, g.free[1..])
    }

    /** table_set; `out` is what it leaves in *element. `from` says where each entry
        was, NIL for a new one. Marks that are right stay right unless a long chain
        makes it reseed while a free slot lies below a live one. */
    method Set(key: Key, element: Element, newSeed: int, ok: bool) returns (out: Element, ghost from: map<int, int>)
      requires Valid() && Safe(p, g.live)
      modifies this
      ensures Shaped() && from.Keys == g.live
      ensures Held(Updated(old(p), old(g).slots, key, element), p, from, key, element)
      ensures out == if key in old(Contents()) then old(Contents())[key] else if old(Full(ok)) then element else NULL
      ensures old(g).live <= from.Values <==> old(SetKeeps(key, ok))
      ensures old(SetKeeps(key, ok)) ==>
                && Valid()
                && Contents() == if key !in old(Contents()) && old(Full(ok)) then old(Contents())
                                 else old(Contents())[key := element]
      ensures old(Flagged()) ==> (Flagged() <==> !(old(Collisions(key)) > COLLISION_THRESHOLD && old(HolesAfterSet(key))))
      ensures old(key !in g.slots && !Grows() && !Full(ok) && Collisions(key) <= COLLISION_THRESHOLD) ==>
                Appended(old(p), old(g), old(size), p, g, from, key, element)
    {
      hide Good, Shape, Safe, Marks, NoHoles, Stored, Intact, Flags, Held, Appended;
      GoodIsShape(p, g, freelist, size, hashOf, seed);
      StoredKeys(p, g.slots);
      var h := hashOf(key, seed);
      var i, prev, collision := Locate(key, h, Home(|p|, h));
      if i != NIL {
        out, from := Overwrite(i, key, element, collision > COLLISION_THRESHOLD, newSeed);
      } else {
        out, from := Add(h, key, element, collision > COLLISION_THRESHOLD, newSeed, ok);
      }
    }

    method Overwrite(i: int, key: Key, element: Element, long: bool, newSeed: int)
      returns (out: Element, ghost from: map<int, int>)
      requires Valid() && Shaped() && key in g.slots && g.slots[key] == i && 0 <= i < |p| && p[i].key == key
      modifies this
      ensures Shaped() && from.Keys == g.live && Held(Updated(old(p), old(g).slots, key, element), p, from, key, element)
      ensures out == old(Contents())[key]
      ensures var keeps := !long || Intact(old(p), old(g).live, |Flags(old(p))|, old(size));
              && (old(g).live <= from.Values <==> keeps)
              && (keeps ==> Valid() && Contents() == old(Contents())[key := element])
      ensures old(Flagged()) ==> (Flagged() <==> !(long && !NoHoles(old(size), old(g).free)))
    {
      hide Good, Shape, Safe, Marks, NoHoles, Intact, Flags, Held, Carries, Follows, Moved;
      out := p[i].element;
      Replaced(p, g, freelist, size, hashOf, seed, i, element);
      p := p[i := p[i].(key := key, element := element)];
      Unmoved(p, g, freelist, size, hashOf, seed);
      from := Same(g.live);
      ghost var p1 := p;
      if long {
        from := Reseed(newSeed);
      }
      CarriedIsHeld(p1, p, from, key, element);
    }

    /** Puts a new entry in a slot of its own, if there is one. */
    method Enter(h: int, key: Key, element: Element, ok: bool) returns (index: int, ghost from: map<int, int>)
      requires Valid() && Shaped() && key !in g.slots && h == hashOf(key, seed)
      modifies this`p, this`g, this`freelist, this`maxLoad, this`size
      ensures Shaped() && (index == NIL <==> old(Full(ok)))
      ensures from.Keys == g.live && Held(old(p), p, from, key, element)
      ensures old(g).live <= from.Values <==>
              !old(Grows()) || Intact(old(p), old(g).live, |Flags(old(p))|, old(size))
      ensures old(g).live <= from.Values ==>
                && Valid()
                && Contents() == if index == NIL then old(Contents()) else old(Contents())[key := element]
      ensures old(Flagged()) ==> Flagged()
      ensures index != NIL ==>
                && size == old(size) + 1 && g.free == (if old(g).free == [] then [] else old(g).free[1..])
                && if old(Grows()) then Spread(old(p), old(g), old(size), p, g, from)
                   else Appended(old(p), old(g), old(size), p, g, from, key, element)
    {
      hide Good, Shape, Safe, Claimed, Marks, NoHoles, Stored, Keyed, Intact, Flags, Held, Carries, Follows, Moved,
        Appended, Entered, Spread, Target;
      ghost var p0, g0, n0 := p, g, size;
      GoodIsShape(p, g, freelist, size, hashOf, seed);
      ShapeSize(p, g, freelist, size, hashOf, seed);
      index, from := TakeSlot(ok);
      FollowsKeys(p0, g0, p, g, from);
      if index == NIL {
        CarriedIsHeld(p0, p, from, key, element);
        if g0.live <= from.Values {
          Refused(p0, g0, p, g, freelist, size, hashOf, seed, from);
        }
        return;
      }
      ghost var p1, g1, from1 := p, g, from;
      InsertAt(index, Home(|p|, h), h, key, element);
      from := from1[index := NIL];
      EnteredOnce(p0, g0, p1, g1, from1, p, index, key, element);
      Landed(p0, g0, n0, p1, g1, from1, p, g, index, key, element);
    }

    /** The reseed of table_set after a new entry was put in its slot; `p0`, `g0` and
        `n0` are the table before that. */
    method ReseedNew(newSeed: int, key: Key, element: Element,
                     ghost p0: seq<Item>, ghost g0: Layout, ghost f0: int, ghost n0: int, ghost from1: map<int, int>,
                     ghost spread: bool) returns (ghost from: map<int, int>)
      requires Shaped() && size == n0 + 1 && Held(p0, p, from1, key, element)
      requires Shape(p0, g0, f0, n0, hashOf, seed) && Safe(p0, g0.live)
      requires if spread then Spread(p0, g0, n0, p, g, from1) else Appended(p0, g0, n0, p, g, from1, key, element)
      modifies this`p, this`g, this`freelist, this`seed
      ensures Shaped() && from.Keys == g.live && Held(p0, p, from, key, element)
      ensures var keeps := if spread then Flags(p0) == g0.live else Intact(p0, g0.live, |Flags(p0)| + 1, n0 + 1);
              && (g0.live <= from.Values <==> keeps)
              && (keeps && old(Valid()) ==> Valid() && Contents() == old(Contents()))
              && (spread && keeps ==> Intact(p0, g0.live, |Flags(p0)|, n0))
      ensures old(Flagged()) ==> (Flagged() <==> NoHoles(size, old(g).free))
    {
      hide Good, Shape, Safe, Marks, NoHoles, Stored, Intact, Flags, Held, Carries, Follows, Moved, Appended, Spread,
        Through, Grown;
      ghost var p2, g2 := p, g;
      BothUsed(p0, g0, f0, n0, p, g, freelist, hashOf, seed);
      ghost var from2 := Reseed(newSeed);
      MovedFrom(p2, n0 + 1, p, from2);
      from := Through(from1, from2);
      if spread {
        ReseededSpread(p0, g0, n0, p2, g2, from1, p, from2, key, element);
      } else {
        ReseededNext(p0, g0, n0, p2, g2, from1, p, from2, key, element);
      }
    }

    method Add(h: int, key: Key, element: Element, long: bool, newSeed: int, ok: bool)
      returns (out: Element, ghost from: map<int, int>)
      requires Valid() && Shaped() && key !in g.slots && h == hashOf(key, seed)
      modifies this
      ensures Shaped() && from.Keys == g.live && Held(old(p), p, from, key, element)
      ensures out == if old(Full(ok)) then element else NULL
      ensures old(g).live <= from.Values <==> old(AddKeeps(long, ok))
      ensures old(AddKeeps(long, ok)) ==>
                && Valid()
                && Contents() == if old(Full(ok)) then old(Contents()) else old(Contents())[key := element]
      ensures old(Flagged()) ==>
                (Flagged() <==> !(long && old(g).free != [] && !NoHoles(old(size) + 1, old(g).free[1..])))
      ensures old(!Grows() && !Full(ok)) && !long ==> Appended(old(p), old(g), old(size), p, g, from, key, element)
    {
      hide Good, Shape, Safe, Marks, NoHoles, Stored, Intact, Flags, Held, Appended, Spread, Target;
      ghost var p0, g0, f0, n0, spread := p, g, freelist, size, Grows();
      GoodIsShape(p, g, freelist, size, hashOf, seed);
      NoneFree(size + 1);
      var index;
      index, from := Enter(h, key, element, ok);
      if index == NIL {
        return element, from;
      }
      if long {
        from := ReseedNew(newSeed, key, element, p0, g0, f0, n0, from, spread);
      }
      out := NULL;
    }
  }

  /** The loop of table_rehash. */
  method ChainUp(p: seq<Item>, size: int, hashOf: (Key, int) -> int, seed: int)
    returns (q: seq<Item>, ghost chains: seq<seq<int>>)
    requires p != [] && Loose(p, size)
    ensures 0 <= size <= |p| && Chained(p, q, chains, size, hashOf, seed)
  {
    hide Loose, Chained, LinkedIn;
    chains := seq(|p|, _ => []);
    ChainedNone(p, size, hashOf, seed, chains);
    q := p;
    var i := 0;
    while i < size
      invariant 0 <= i <= size && |q| == |p| && Chained(p, q, chains, i, hashOf, seed)
    {
      var h := hashOf(q[i].key, seed);
      var b := Home(|q|, h);
      ChainedMore(p, q, chains, i, hashOf, seed, size);
      chains := LinkedIn(chains, i, b);
      q := q[i := q[i].(hash := h, next := q[b].bucket)];
      q := q[b := q[b].(bucket := i)];
      i := i + 1;
    }
  }

  /** The loop of table_compact. */
  method MoveDown(p: seq<Item>) returns (q: seq<Item>)
    ensures |q| == |p| && Compacting(p, q, |p|)
  {
    hide Compacting;
    CompactBegins(p);
    q := p;
    var r, w := 0, 0;
    while r < |q|
      invariant 0 <= r <= |q| == |p| && Compacting(p, q, r) && w == |Marked(p, r)|
    {
      CompactStepIs(p, q, r, w);
      q := q[r := q[r].(bucket := NIL)];
      if q[r].valid {
        if r > w {
          q := q[w := q[w].(hash := q[r].hash, key := q[r].key, element := q[r].element)];
          q := q[r := q[r].(valid := false)];
        }
        w := w + 1;
      }
      r := r + 1;
    }
  }

  /** The element at position `n`, or the end mark. */
  ghost function Nth(chain: seq<int>, n: int): int { if 0 <= n < |chain| then chain[n] else NIL }

  lemma ChainHead(p: seq<Item>, g: Layout, freelist: int, size: int, hashOf: (Key, int) -> int, seed: int, b: int)
    requires Good(p, g, freelist, size, hashOf, seed) && 0 <= b < |p|
    ensures |g.chains| == |p| && p[b].bucket == Nth(g.chains[b], 0)
    ensures forall k :: 0 <= k < |g.chains[b]| ==> 0 <= g.chains[b][k]
  {
    assert InBucket(p, b, g.chains[b], g.live);
  }

  lemma ChainNext(p: seq<Item>, g: Layout, freelist: int, size: int, hashOf: (Key, int) -> int, seed: int, b: int, j: nat)
    requires Good(p, g, freelist, size, hashOf, seed) && 0 <= b < |p| == |g.chains| && j < |g.chains[b]|
    ensures At(p, g, b, j, Nth(g.chains[b], j - 1), g.chains[b][j])
    ensures p[g.chains[b][j]].next == Nth(g.chains[b], j + 1)
  {
    var chain := g.chains[b];
    assert InBucket(p, b, chain, g.live);
    assert chain[j] in chain && (j > 0 ==> chain[j - 1] in chain);
    assert p[chain[j]].next == After(chain, j);
  }

  lemma SlotOf(p: seq<Item>, g: Layout, freelist: int, size: int, hashOf: (Key, int) -> int, seed: int, key: Key)
    requires Good(p, g, freelist, size, hashOf, seed)
    ensures key in g.slots ==> 0 <= g.slots[key] < |p| && p[g.slots[key]].key == key
    ensures key in g.slots ==> p[g.slots[key]].hash == hashOf(key, seed)
  {
  }

  lemma SlotsInRange(p: seq<Item>, g: Layout, freelist: int, size: int, hashOf: (Key, int) -> int, seed: int)
    requires Good(p, g, freelist, size, hashOf, seed)
    ensures forall k :: k in g.slots ==> 0 <= g.slots[k] < |p| && p[g.slots[k]].key == k
  {
  }

  lemma Located(p: seq<Item>, g: Layout, freelist: int, size: int, hashOf: (Key, int) -> int, seed: int, b: int, n: nat)
    requires Good(p, g, freelist, size, hashOf, seed) && 0 <= b < |p| == |g.chains| && n < |g.chains[b]|
    requires At(p, g, b, n, Nth(g.chains[b], n - 1), g.chains[b][n])
    ensures var i := g.chains[b][n];
            p[i].key in g.slots && g.slots[p[i].key] == i && Place(g.chains[b], i) == n
  {
    assert InBucket(p, b, g.chains[b], g.live);
    PlaceIs(g.chains[b], n);
  }

  lemma NotLocated(p: seq<Item>, g: Layout, freelist: int, size: int, hashOf: (Key, int) -> int, seed: int, b: int,
                   key: Key)
    requires Good(p, g, freelist, size, hashOf, seed) && 0 <= b < |p| == |g.chains| && b == Home(|p|, hashOf(key, seed))
    requires key in g.slots ==> g.slots[key] !in g.chains[b]
    ensures key !in g.slots && Place(g.chains[b], NIL) == |g.chains[b]|
  {
    assert InBucket(p, b, g.chains[b], g.live);
    PlaceMissing(g.chains[b]);
    SlotOf(p, g, freelist, size, hashOf, seed, key);
  }

  /** No bucket holds anything and no slot past the first `size` is marked. */
  ghost predicate Loose(p: seq<Item>, size: int) {
    && 0 <= size <= |p| && (forall x :: 0 <= x < |p| ==> p[x].bucket == NIL)
    && (forall x :: size <= x < |p| ==> !p[x].valid)
  }

  lemma StartsSame(p: seq<Item>, size: int)
    requires Loose(p, size)
    ensures SameStart(p, p, size)
  {
  }

  lemma Resized(p: seq<Item>, size: int, n: nat)
    requires Loose(p, size) && size <= n
    ensures var q := if n > |p| then p + seq(n - |p|, _ => BLANK) else p[..n]; Loose(q, size) && SameStart(p, q, size)
  {
    var q := if n > |p| then p + seq(n - |p|, _ => BLANK) else p[..n];
    forall x | 0 <= x < |q|
      ensures q[x] == if x < |p| then p[x] else BLANK
    {
    }
  }

  lemma ShapeSize(p: seq<Item>, g: Layout, freelist: int, size: int, hashOf: (Key, int) -> int, seed: int)
    requires Shape(p, g, freelist, size, hashOf, seed)
    ensures 0 <= size <= |p| && |g.live| == size && (forall x :: x in g.live ==> 0 <= x < |p|)
    ensures Used(size, g.live, g.free, |p|)
  {
  }

  lemma GoodIsShape(p: seq<Item>, g: Layout, freelist: int, size: int, hashOf: (Key, int) -> int, seed: int)
    requires Good(p, g, freelist, size, hashOf, seed)
    ensures Shape(p, g, freelist, size, hashOf, seed) && Keyed(p, g.live, g.slots) && |g.slots| == size
    ensures forall k :: k in g.slots ==> 0 <= g.slots[k] < |p|
  {
  }

  ghost function Same(live: set<int>): map<int, int> { map x | x in live :: x }

  lemma SameIs(live: set<int>)
    ensures Same(live).Keys == live && Same(live).Values == live
  {
    forall x | x in live ensures x in Same(live).Values {
      assert Same(live)[x] == x;
    }
  }

  lemma Unmoved(p: seq<Item>, g: Layout, freelist: int, size: int, hashOf: (Key, int) -> int, seed: int)
    requires Shape(p, g, freelist, size, hashOf, seed)
    ensures Same(g.live).Keys == g.live && Same(g.live).Values == g.live
    ensures Carries(p, p, Same(g.live)) && Follows(p, g, p, g, Same(g.live))
  {
    hide Shape;
    ShapeSize(p, g, freelist, size, hashOf, seed);
    SameIs(g.live);
  }

  lemma FollowsAlso(p: seq<Item>, g: Layout, g': Layout, from: map<int, int>)
    requires Follows(p, g, p, g, from) && g'.live == g.live && g'.slots == g.slots
    ensures Follows(p, g, p, g', from)
  {
  }

  ghost predicate Moved(p: seq<Item>, size: int, q: seq<Item>, from: map<int, int>) {
    Regathered(p, size, q) && from == Gathering(p, size)
  }

  lemma GatheredAgain(p: seq<Item>, g: Layout, size: int, p1: seq<Item>, p2: seq<Item>, p3: seq<Item>)
    requires Used(size, g.live, g.free, |p|) && Safe(p, g.live)
    requires Regathered(p, size, p1) && SameStart(p1, p2, size) && SameStart(p2, p3, size)
    ensures Regathered(p, size, p3)
  {
    hide Regathered, SameStart, Safe;
    FlagsFit(p, g.live);
    RegatheredOn(p, size, p1, p2);
    RegatheredOn(p, size, p2, p3);
  }

  /** The table after its entries were gathered from layout `g` and chained again. */
  lemma Resettled(p: seq<Item>, g: Layout, freelist: int, seed: int,
                  q: seq<Item>, g': Layout, freelist': int, seed': int, size: int, hashOf: (Key, int) -> int)
    requires Shape(p, g, freelist, size, hashOf, seed) && Safe(p, g.live) && Regathered(p, size, q)
    requires Shape(q, g', freelist', size, hashOf, seed') && g'.live == Below(size)
    ensures 0 <= size <= |p|
    ensures var from := Gathering(p, size);
            var g2 := g'.(slots := Rerouted(g.slots, from));
            && Shape(q, g2, freelist', size, hashOf, seed') && Moved(p, size, q, from)
            && from.Keys == Below(size) && Carries(p, q, from) && Follows(p, g, q, g2, from)
            && (g.live <= from.Values <==> Intact(p, g.live, |Flags(p)|, size))
            && (g.live <= from.Values && Good(p, g, freelist, size, hashOf, seed) ==>
                  && Good(q, g2, freelist', size, hashOf, seed')
                  && Stored(q, g2.slots) == Stored(p, g.slots))
            && (Marks(p, g.live) ==> (Marks(q, Below(size)) <==> NoHoles(size, g.free)))
  {
    hide Regathered, Safe, Lists, Hashed, Used, Below, Carries, Intact, Flags, Marks, NoHoles, Stored, Keyed, Gathering,
         Rerouted, Follows, Good;
    FreeIsNotLive(p, g, freelist, size, hashOf, seed);
    GatheringExact(p, g.live, size);
    RegatheredCarries(p, size, q);
    SameMap(p, g, freelist, seed, q, g', freelist', seed', size, hashOf, Gathering(p, size));
    if Marks(p, g.live) {
      RegatheredMarks(p, g, size, q);
    }
  }

  /** Entries carried from every live slot make up the same map. */
  lemma SameMap(p: seq<Item>, g: Layout, freelist: int, seed: int,
                q: seq<Item>, g': Layout, freelist': int, seed': int, size: int, hashOf: (Key, int) -> int,
                from: map<int, int>)
    requires |g.live| == size && Shape(q, g', freelist', size, hashOf, seed') && g'.live == from.Keys && |from.Keys| == size
    requires Carries(p, q, from) && (g.live <= from.Values ==> from.Values == g.live)
    ensures var g2 := g'.(slots := Rerouted(g.slots, from));
            && Follows(p, g, q, g2, from)
            && (g.live <= from.Values && Good(p, g, freelist, size, hashOf, seed) ==>
                  && Good(q, g2, freelist', size, hashOf, seed')
                  && Stored(q, g2.slots) == Stored(p, g.slots))
  {
    hide Lists, Hashed, Used, Carries, Stored, Keyed, Rerouted;
    if g.live <= from.Values && Keyed(p, g.live, g.slots) {
      Carried(p, g.live, g.slots, q, from);
      KeyedInRange(p, g.live, g.slots);
      KeyedInRange(q, g'.live, Rerouted(g.slots, from));
    }
  }

  lemma KeyedInRange(p: seq<Item>, live: set<int>, slots: map<Key, int>)
    requires Keyed(p, live, slots)
    ensures forall k :: k in slots ==> 0 <= slots[k] < |p|
  {
  }

  lemma FreeIsNotLive(p: seq<Item>, g: Layout, freelist: int, size: int, hashOf: (Key, int) -> int, seed: int)
    requires Shape(p, g, freelist, size, hashOf, seed)
    ensures 0 <= size <= |p| && |g.live| == size && Used(size, g.live, g.free, |p|)
    ensures (forall x :: x in g.live ==> 0 <= x < |p|) && (forall x :: x in g.free ==> x !in g.live)
  {
  }

  /** Every entry of `q` is an entry of `p` or the new one. */
  ghost predicate Held(p: seq<Item>, q: seq<Item>, from: map<int, int>, key: Key, element: Element) {
    forall x :: x in from ==>
                  && 0 <= x < |q|
                  && if from[x] == NIL then q[x].key == key && q[x].element == element
                     else 0 <= from[x] < |p| && q[x].key == p[from[x]].key && q[x].element == p[from[x]].element
  }

  ghost function Updated(p: seq<Item>, slots: map<Key, int>, key: Key, element: Element): seq<Item> {
    if key in slots && 0 <= slots[key] < |p| then p[slots[key] := p[slots[key]].(element := element)] else p
  }

  /** The new entry took the next slot and nothing else changed. */
  ghost predicate Appended(p: seq<Item>, g: Layout, size: int, q: seq<Item>, g': Layout, from: map<int, int>,
                           key: Key, element: Element) {
    var i := if g.free == [] then size else g.free[0];
    && Entered(p, q, i, key, element) && i !in g.live && g'.live == g.live + {i} && from == Same(g.live)[i := NIL]
    && g'.free == if g.free == [] then [] else g.free[1..]
  }

  /** The entries were gathered and the new one came behind them. */
  ghost predicate Spread(p: seq<Item>, g: Layout, size: int, q: seq<Item>, g': Layout, from: map<int, int>) {
    && 0 <= size <= |p| && size < |q| && from == Gathering(p, size)[size := NIL]
    && g.free == [] && g'.free == [] && g'.live == Below(size + 1)
    && (forall x :: 0 <= x < |q| ==> (q[x].valid <==> x < FirstHole(p, |p|) || x == size))
  }

  ghost predicate SameButMark(p: seq<Item>, q: seq<Item>, i: int) {
    && |q| == |p| && 0 <= i < |p|
    && (forall x :: 0 <= x < |p| ==>
          && q[x].key == p[x].key && q[x].element == p[x].element && (q[x].valid <==> p[x].valid && x != i))
  }

  lemma CarriedIsHeld(p: seq<Item>, q: seq<Item>, from: map<int, int>, key: Key, element: Element)
    requires Carries(p, q, from)
    ensures Held(p, q, from, key, element)
  {
  }

  lemma FollowsKeys(p: seq<Item>, g: Layout, q: seq<Item>, g': Layout, from: map<int, int>)
    requires Follows(p, g, q, g', from) && Keyed(p, g.live, g.slots)
    ensures forall k :: k in g.slots ==> 0 <= g.slots[k] < |p|
    ensures g.live <= from.Values ==>
              && Keyed(q, g'.live, g'.slots) && |g'.slots| == |g.slots| && g'.slots.Keys == g.slots.Keys
              && (forall k :: k in g'.slots ==> 0 <= g'.slots[k] < |q|) && Stored(q, g'.slots) == Stored(p, g.slots)
  {
    if g.live <= from.Values {
      assert Stored(q, g'.slots).Keys == g'.slots.Keys && Stored(p, g.slots).Keys == g.slots.Keys;
    }
  }

  /** An entry put in a slot of its own displaces none of those carried there. */
  lemma EnteredOnce(p0: seq<Item>, g0: Layout, p1: seq<Item>, g1: Layout, from: map<int, int>, p2: seq<Item>,
                    i: int, key: Key, element: Element)
    requires Carries(p0, p1, from) && from.Keys == g1.live && i !in g1.live && Entered(p1, p2, i, key, element)
    requires forall y :: y in g0.live ==> 0 <= y
    ensures from[i := NIL].Keys == g1.live + {i} && Held(p0, p2, from[i := NIL], key, element)
    ensures g0.live <= from[i := NIL].Values <==> g0.live <= from.Values
  {
    var from' := from[i := NIL];
    forall y | y in g0.live
      ensures y in from'.Values <==> y in from.Values
    {
      if y in from.Values {
        var x := Preimage(from, y);
        assert from'[x] == y;
      }
      if y in from'.Values {
        var x := Preimage(from', y);
        assert from[x] == y;
      }
    }
  }

  /** Where a new entry lands. */
  lemma Landed(p: seq<Item>, g: Layout, size: int, p1: seq<Item>, g1: Layout, from: map<int, int>,
               q: seq<Item>, g': Layout, i: int, key: Key, element: Element)
    requires Entered(p1, q, i, key, element) && i !in g1.live && i == if g.free == [] then size else g.free[0]
    requires g'.live == g1.live + {i} && g'.free == g1.free
    ensures p1 == p && from == Same(g1.live) && g1 == g.(free := if g.free == [] then [] else g.free[1..]) ==>
              Appended(p, g, size, q, g', from[i := NIL], key, element)
    ensures g.free == [] && g1.free == [] && g1.live == Below(size) && Moved(p, size, p1, from) ==>
              Spread(p, g, size, q, g', from[i := NIL])
  {
    hide FirstHole;
    assert g.free == [] && size >= 0 ==> Below(size + 1) == Below(size) + {size};
  }

  lemma Refused(p: seq<Item>, g: Layout, q: seq<Item>, g': Layout, freelist: int, size: int,
                hashOf: (Key, int) -> int, seed: int, from: map<int, int>)
    requires Shape(q, g', freelist, size, hashOf, seed) && |g.slots| == size && Keyed(p, g.live, g.slots)
    requires Follows(p, g, q, g', from) && g.live <= from.Values
    ensures Good(q, g', freelist, size, hashOf, seed)
  {
  }

  ghost function Through(from1: map<int, int>, from2: map<int, int>): map<int, int> {
    map x | x in from2 :: if from2[x] in from1 then from1[from2[x]] else from2[x]
  }

  lemma MovedFrom(p: seq<Item>, size: int, q: seq<Item>, from: map<int, int>)
    requires Moved(p, size, q, from)
    ensures 0 <= size <= |p| && from == Gathering(p, size)
  {
  }

  lemma BothUsed(p: seq<Item>, g: Layout, freelist: int, n: int, q: seq<Item>, g': Layout, freelist': int,
                 hashOf: (Key, int) -> int, seed: int)
    requires Shape(p, g, freelist, n, hashOf, seed) && Safe(p, g.live)
    requires Shape(q, g', freelist', n + 1, hashOf, seed) && Safe(q, g'.live)
    ensures Grown(p, g, q, g', n)
  {
  }

  lemma ThroughHeld(p0: seq<Item>, p2: seq<Item>, p3: seq<Item>, from1: map<int, int>, from2: map<int, int>,
                    key: Key, element: Element)
    requires Held(p0, p2, from1, key, element) && Carries(p2, p3, from2)
    requires forall x :: x in from2 && from2[x] !in from1 ==>
                           && 0 <= from2[x] < |p0| && 0 <= from2[x] < |p2|
                           && p2[from2[x]].key == p0[from2[x]].key && p2[from2[x]].element == p0[from2[x]].element
    ensures Through(from1, from2).Keys == from2.Keys && Held(p0, p3, Through(from1, from2), key, element)
  {
  }

  lemma FlagsMore(p: seq<Item>, q: seq<Item>, live: set<int>, i: int, key: Key, element: Element)
    requires Safe(p, live) && i !in live && Entered(p, q, i, key, element)
    ensures Flags(q) == Flags(p) + {i} && |Flags(q)| == |Flags(p)| + 1
  {
  }

  /** The marks and numbers of two tables of which the second has one more entry. */
  ghost predicate Grown(p: seq<Item>, g: Layout, q: seq<Item>, g': Layout, n: int) {
    && Safe(p, g.live) && Used(n, g.live, g.free, |p|) && Safe(q, g'.live) && Used(n + 1, g'.live, g'.free, |q|)
  }

  lemma CarriesRange(p: seq<Item>, q: seq<Item>, from: map<int, int>)
    requires Carries(p, q, from)
    ensures forall x :: x in from ==> 0 <= from[x] < |p|
  {
  }

  lemma UsedRange(size: int, live: set<int>, free: seq<int>, capacity: int)
    requires Used(size, live, free, capacity)
    ensures 0 <= size <= capacity && |live| == size && (forall x :: x in live ==> 0 <= x < capacity)
    ensures free == [] ==> live == Below(size)
  {
  }

  /** A reseed after the new entry took the next slot. */
  lemma ReseededNext(p: seq<Item>, g: Layout, n: int, q: seq<Item>, g': Layout, from1: map<int, int>, q': seq<Item>,
                     from2: map<int, int>, key: Key, element: Element)
    requires Grown(p, g, q, g', n) && Appended(p, g, n, q, g', from1, key, element)
    requires Held(p, q, from1, key, element) && from2 == Gathering(q, n + 1) && Carries(q, q', from2)
    ensures var from := Through(from1, from2);
            && from.Keys == from2.Keys && Held(p, q', from, key, element)
            && (g.live <= from.Values <==> Intact(p, g.live, |Flags(p)| + 1, n + 1))
    ensures Intact(q, g'.live, |Flags(q)|, n + 1) <==> Intact(p, g.live, |Flags(p)| + 1, n + 1)
  {
    hide Flags, Gathering, Held, Carries, Used, Safe, Through, Same, Entered, Intact;
    UsedRange(n, g.live, g.free, |p|);
    UsedRange(n + 1, g'.live, g'.free, |q|);
    var i := if g.free == [] then n else g.free[0];
    FlagsMore(p, q, g.live, i, key, element);
    NextHeld(p, g, q, i, from1, q', from2, key, element);
    NextCovers(p, g, n, q, g', i, from2, key, element);
    NextIntact(p, g, q, g', i, key, element, |Flags(q)|, n + 1);
  }

  lemma NextHeld(p: seq<Item>, g: Layout, q: seq<Item>, i: int, from1: map<int, int>, q': seq<Item>,
                 from2: map<int, int>, key: Key, element: Element)
    requires Entered(p, q, i, key, element) && from1 == Same(g.live)[i := NIL]
    requires Held(p, q, from1, key, element) && Carries(q, q', from2)
    ensures Through(from1, from2).Keys == from2.Keys && Held(p, q', Through(from1, from2), key, element)
  {
    hide Held, Carries, Through;
    CarriesRange(q, q', from2);
    ThroughHeld(p, q, q', from1, from2, key, element);
  }

  lemma NextCovers(p: seq<Item>, g: Layout, n: int, q: seq<Item>, g': Layout, i: int, from2: map<int, int>,
                   key: Key, element: Element)
    requires Entered(p, q, i, key, element) && Safe(q, g'.live) && |g'.live| == n + 1 <= |q|
    requires i !in g.live && g'.live == g.live + {i} && from2 == Gathering(q, n + 1) && 0 <= n
    requires forall x :: x in g.live ==> 0 <= x < |p|
    ensures g.live <= Through(Same(g.live)[i := NIL], from2).Values <==> Intact(p, g.live, |Flags(q)|, n + 1)
  {
    hide Flags, Gathering, Through, Same, Safe;
    var from := Through(Same(g.live)[i := NIL], from2);
    forall y | y in g.live
      ensures y in from.Values <==> p[y].valid || |Flags(q)| <= y < n + 1
    {
      GatheringSlot(q, g'.live, n + 1, y);
      ThroughSame(g.live, i, from2, y);
    }
    if g.live <= from.Values {
      forall x | x in g.live && !p[x].valid ensures |Flags(q)| <= x < n + 1 {
        assert x in from.Values;
      }
    }
    if Intact(p, g.live, |Flags(q)|, n + 1) {
      forall x | x in g.live ensures x in from.Values {
        assert p[x].valid || |Flags(q)| <= x < n + 1;
      }
    }
  }

  lemma NextIntact(p: seq<Item>, g: Layout, q: seq<Item>, g': Layout, i: int, key: Key, element: Element, m: int, n: int)
    requires Entered(p, q, i, key, element) && i !in g.live && g'.live == g.live + {i}
    ensures Intact(q, g'.live, m, n) <==> Intact(p, g.live, m, n)
  {
  }

  lemma ThroughSame(live: set<int>, i: int, from2: map<int, int>, y: int)
    requires i !in live && y in live && 0 <= y
    ensures y in Through(Same(live)[i := NIL], from2).Values <==> y in from2.Values
  {
    var from1 := Same(live)[i := NIL];
    var from := Through(from1, from2);
    if y in from2.Values {
      var x := Preimage(from2, y);
      assert from[x] == y;
    }
    if y in from.Values {
      var x := Preimage(from, y);
      assert from2[x] == y;
    }
  }

  /** A reseed after the table was gathered and the new entry came behind. */
  lemma ReseededSpread(p: seq<Item>, g: Layout, n: int, q: seq<Item>, g': Layout, from1: map<int, int>, q': seq<Item>,
                       from2: map<int, int>, key: Key, element: Element)
    requires Grown(p, g, q, g', n) && Spread(p, g, n, q, g', from1)
    requires Held(p, q, from1, key, element) && from2 == Gathering(q, n + 1) && Carries(q, q', from2)
    ensures var from := Through(from1, from2);
            && from.Keys == from2.Keys && Held(p, q', from, key, element)
            && (g.live <= from.Values <==> Flags(p) == g.live)
    ensures Flags(p) == g.live ==> Intact(p, g.live, |Flags(p)|, n) && Intact(q, g'.live, |Flags(q)|, n + 1)
  {
    hide Held, Carries, Gathering, Through, Safe, Used, Flags, Intact, FirstHole, Below;
    var h := FirstHole(p, |p|);
    SpreadHole(p, g, n);
    UsedRange(n + 1, g'.live, g'.free, |q|);
    SpreadThrough(p, n, q, from1, from2);
    ThroughHeld(p, q, q', from1, from2, key, element);
    if Flags(p) == g.live {
      SpreadCovers(p, n, q, from1, from2);
      AllMarked(p, g.live, n);
      SpreadMarked(q, n);
    } else {
      SpreadLoses(p, n, q, h, from1, from2);
    }
  }

  lemma AllMarked(p: seq<Item>, live: set<int>, n: int)
    requires Flags(p) == live
    ensures Intact(p, live, |Flags(p)|, n)
  {
  }

  lemma SpreadMarked(q: seq<Item>, n: int)
    requires 0 <= n < |q| && (forall x :: 0 <= x < |q| ==> (q[x].valid <==> x < n || x == n))
    ensures Intact(q, Below(n + 1), |Flags(q)|, n + 1)
  {
    hide Below;
  }

  /** The entry in a slot after a compaction is that of a live slot or was there. */
  lemma GatheringFrom(q: seq<Item>, live: set<int>, size: int)
    requires 0 <= size <= |q| && Safe(q, live)
    ensures Gathering(q, size).Keys == Below(size)
    ensures forall x :: x in Gathering(q, size) ==> Gathering(q, size)[x] in live || Gathering(q, size)[x] == x
  {
    hide Marked;
    var m := Marked(q, |q|);
    forall x | x in Gathering(q, size)
      ensures Gathering(q, size)[x] in live || Gathering(q, size)[x] == x
    {
      if x < |m| {
        MarkedAt(q, x);
      }
      assert Gathering(q, size)[x] == Origin(q, x, |q|) == if x < |m| then m[x] else x;
    }
  }

  /** A reseed finds only entries of live slots there. */
  lemma SpreadThrough(p: seq<Item>, n: int, q: seq<Item>, from1: map<int, int>, from2: map<int, int>)
    requires 0 <= n <= |p| && n < |q| && Safe(q, Below(n + 1))
    requires from1 == Gathering(p, n)[n := NIL] && from2 == Gathering(q, n + 1) && Gathering(p, n).Keys == Below(n)
    ensures from1.Keys == from2.Keys == Below(n + 1)
    ensures forall x :: x in from2 ==> from2[x] in from1
  {
    hide Gathering, Safe, Below;
    GatheringFrom(q, Below(n + 1), n + 1);
    assert Below(n + 1) == Below(n) + {n};
  }

  lemma ThroughAt(from1: map<int, int>, from2: map<int, int>, x: int)
    requires x in from2 && from2[x] in from1
    ensures from1[from2[x]] in Through(from1, from2).Values
  {
    assert Through(from1, from2)[x] == from1[from2[x]];
  }

  lemma ThroughFrom(from1: map<int, int>, from2: map<int, int>, y: int) returns (x: int)
    requires y in Through(from1, from2).Values && (forall x :: x in from2 ==> from2[x] in from1)
    ensures x in from2 && from2[x] in from1 && from1[from2[x]] == y
  {
    x := Preimage(Through(from1, from2), y);
  }

  lemma SpreadCovers(p: seq<Item>, n: int, q: seq<Item>, from1: map<int, int>, from2: map<int, int>)
    requires 0 <= n <= |p| && n < |q| && Safe(p, Below(n)) && Safe(q, Below(n + 1)) && Flags(p) == Below(n)
    requires from1 == Gathering(p, n)[n := NIL] && from2 == Gathering(q, n + 1) && Gathering(p, n).Keys == Below(n)
    requires forall x :: 0 <= x < |q| ==> (q[x].valid <==> x < n || x == n)
    requires forall x :: x in from2 ==> from2[x] in from1
    ensures Below(n) <= Through(from1, from2).Values
  {
    hide Gathering, Safe, Below, Through, Flags, Intact;
    AllMarked(p, Below(n), n);
    GatheringExact(p, Below(n), n);
    forall z | z in Below(n + 1)
      ensures z in from2.Values
    {
      GatheringSlot(q, Below(n + 1), n + 1, z);
    }
    Covered(Gathering(p, n), from1, from2, n);
  }

  /** What is taken from every slot is all there. */
  lemma Covered(first: map<int, int>, from1: map<int, int>, from2: map<int, int>, n: nat)
    requires first.Keys == Below(n) && from1 == first[n := NIL] && Below(n) <= first.Values
    requires forall z :: z in Below(n + 1) ==> z in from2.Values
    ensures Below(n) <= Through(from1, from2).Values
  {
    hide Below, Through;
    forall y | y in Below(n)
      ensures y in Through(from1, from2).Values
    {
      var z := Preimage(first, y);
      var x := Preimage(from2, z);
      ThroughAt(from1, from2, x);
    }
  }

  lemma SpreadHole(p: seq<Item>, g: Layout, n: int)
    requires Safe(p, g.live) && Used(n, g.live, g.free, |p|) && g.free == []
    ensures 0 <= n <= |p| && g.live == Below(n) && FirstHole(p, |p|) <= n && Gathering(p, n).Keys == Below(n)
    ensures FirstHole(p, |p|) == n <==> Flags(p) == g.live
  {
    hide Gathering, Safe;
    var h := FirstHole(p, |p|);
    UsedRange(n, g.live, g.free, |p|);
    GatheringFrom(p, g.live, n);
    FlagsFit(p, g.live);
    HoleFlags(p, g.live, h, n);
  }

  lemma HoleFlags(p: seq<Item>, live: set<int>, h: nat, n: nat)
    requires h == FirstHole(p, |p|) && Safe(p, live) && live == Below(n) && h <= n <= |p|
    ensures h == n <==> Flags(p) == live
  {
    if h < n {
      assert h in live && h !in Flags(p);
    } else {
      assert Flags(p) == live;
    }
  }

  lemma SpreadLoses(p: seq<Item>, n: int, q: seq<Item>, h: nat, from1: map<int, int>, from2: map<int, int>)
    requires 0 <= n <= |p| && n < |q| && Safe(p, Below(n)) && Safe(q, Below(n + 1)) && h < n
    requires from1 == Gathering(p, n)[n := NIL] && from2 == Gathering(q, n + 1) && Gathering(p, n).Keys == Below(n)
    requires forall x :: 0 <= x < |q| ==> (q[x].valid <==> x < h || x == n)
    requires forall x :: x in from2 ==> from2[x] in from1
    ensures !(Below(n) <= Through(from1, from2).Values)
  {
    hide Gathering, Safe, Below, Through, Intact;
    assert Flags(q) == Below(h) + {n};
    GatheringSlot(q, Below(n + 1), n + 1, h);
    GatheringExact(p, Below(n), n);
    if Below(n) <= Through(from1, from2).Values {
      NotCovered(Gathering(p, n), from1, from2, n, h);
    }
  }

  /** What slot `h` holds is lost if nothing is taken from it. */
  lemma NotCovered(first: map<int, int>, from1: map<int, int>, from2: map<int, int>, n: nat, h: nat)
    requires first.Keys == Below(n) && from1 == first[n := NIL] && h < n && h !in from2.Values
    requires forall x :: x in from2 ==> from2[x] in from1
    requires Below(n) <= first.Values ==> first.Values == Below(n)
    ensures !(Below(n) <= Through(from1, from2).Values)
  {
    hide Below, Through;
    if Below(n) <= Through(from1, from2).Values {
      forall y | y in Below(n) ensures y in first.Values {
        var x := ThroughFrom(from1, from2, y);
        assert first[from2[x]] == y;
      }
      assert first[h] in first.Values;
      var x := ThroughFrom(from1, from2, first[h]);
      OneToOne(first, from2[x], h);
      assert false;
    }
  }

  ghost function LinkedIn(chains: seq<seq<int>>, i: int, b: int): seq<seq<int>>
    requires 0 <= b < |chains|
  {
    chains[b := [i] + chains[b]]
  }

  /** The first `n` entries of `p` are chained in `q`. */
  ghost predicate Chained(p: seq<Item>, q: seq<Item>, chains: seq<seq<int>>, n: nat, hashOf: (Key, int) -> int, seed: int) {
    && |q| == |p| == |chains| && n <= |p|
    && Lists(q, chains, [], NIL, Below(n)) && Hashed(q, Below(n), hashOf, seed)
    && (forall x :: 0 <= x < |p| ==> q[x].key == p[x].key && q[x].element == p[x].element && q[x].valid == p[x].valid)
  }

  lemma ChainedNone(p: seq<Item>, size: int, hashOf: (Key, int) -> int, seed: int, chains: seq<seq<int>>)
    requires Loose(p, size) && 0 < |p| == |chains| && (forall b :: 0 <= b < |p| ==> chains[b] == [])
    ensures 0 <= size <= |p| && Chained(p, p, chains, 0, hashOf, seed)
  {
  }

  lemma ChainedMore(p: seq<Item>, q: seq<Item>, chains: seq<seq<int>>, i: nat, hashOf: (Key, int) -> int, seed: int,
                    size: int)
    requires Chained(p, q, chains, i, hashOf, seed) && i < size <= |p|
    ensures |q| == |p| == |chains|
    ensures var h := hashOf(q[i].key, seed);
            var b := Home(|q|, h);
            var q1 := q[i := q[i].(hash := h, next := q[b].bucket)];
            Chained(p, q1[b := q1[b].(bucket := i)], LinkedIn(chains, i, b), i + 1, hashOf, seed)
  {
    hide Lists;
    var h := hashOf(q[i].key, seed);
    var b := Home(|q|, h);
    var it := q[i].(hash := h, next := q[b].bucket);
    var q1 := q[i := it];
    var q2 := q1[b := q1[b].(bucket := i)];
    LinkFront(q, chains, [], NIL, Below(i), i, it, b, q2);
    assert Below(i) + {i} == Below(i + 1);
    EnteredAt(q, i, it, b, q2);
    HashedAlso(q, q2, Below(i), i, hashOf, seed);
  }

  lemma EnteredAt(p: seq<Item>, i: int, it: Item, b: int, p': seq<Item>)
    requires 0 <= i < |p| && 0 <= b < |p|
    requires var q := p[i := it]; p' == q[b := q[b].(bucket := i)]
    ensures |p'| == |p|
    ensures p'[i].key == it.key && p'[i].element == it.element && p'[i].valid == it.valid && p'[i].hash == it.hash
    ensures forall x :: 0 <= x < |p| && x != i ==>
                        && p'[x].key == p[x].key && p'[x].element == p[x].element
                        && p'[x].valid == p[x].valid && p'[x].hash == p[x].hash
  {
  }

  lemma ChainedAll(p: seq<Item>, q: seq<Item>, chains: seq<seq<int>>, size: int, hashOf: (Key, int) -> int, seed: int)
    requires Loose(p, size) && Chained(p, q, chains, size, hashOf, seed)
    ensures |q| == |p| && Shape(q, Layout(chains, [], Below(size), map[]), NIL, size, hashOf, seed)
    ensures Safe(q, Below(size)) && SameStart(p, q, size)
  {
    hide Lists, Hashed;
  }

  lemma TargetFits(fast: bool, size: int, newSize: int)
    requires 0 <= size <= MAX_CAPACITY && 0 <= newSize
    ensures Target(fast, size, newSize) >= size && 0 < Target(fast, size, newSize) <= MAX_CAPACITY
    ensures newSize > size && size < MAX_CAPACITY ==> Target(fast, size, newSize) > size
  {
    var n := Max(newSize, size);
    FittingFits(if fast then Plus(n, newSize) else n);
  }

  /** As `Shape`, with slot `index` taken from the free list or the unused part
      but not yet live. */
  ghost predicate Claimed(p: seq<Item>, g: Layout, freelist: int, size: int, hashOf: (Key, int) -> int, seed: int,
                          index: int)
  {
    && 0 <= index < |p| && index !in g.live && index !in g.free
    && Lists(p, g.chains, g.free, freelist, g.live) && Hashed(p, g.live, hashOf, seed)
    && Used(size, g.live + {index}, g.free, |p|)
  }

  lemma Replaced(p: seq<Item>, g: Layout, freelist: int, size: int, hashOf: (Key, int) -> int, seed: int,
                 i: int, element: Element)
    requires Good(p, g, freelist, size, hashOf, seed) && 0 <= i < |p| && p[i].key in g.slots && g.slots[p[i].key] == i
    ensures var q := p[i := p[i].(element := element)];
            && Good(q, g, freelist, size, hashOf, seed) && Shape(q, g, freelist, size, hashOf, seed)
            && (forall k :: k in g.slots ==> 0 <= g.slots[k] < |p|)
            && Stored(q, g.slots) == Stored(p, g.slots)[p[i].key := element] && Flags(q) == Flags(p)
            && (Marks(p, g.live) <==> Marks(q, g.live)) && (Safe(p, g.live) ==> Safe(q, g.live))
            && (forall m, n :: Intact(p, g.live, m, n) <==> Intact(q, g.live, m, n))
  {
    hide Lists, Used, Intact;
    var q := p[i := p[i].(element := element)];
    ListsFrame(p, q, g.chains, g.free, freelist, g.live);
    forall m, n ensures Intact(p, g.live, m, n) <==> Intact(q, g.live, m, n) {
      SameIntact(p, q, g.live, m, n);
    }
  }

  lemma SameIntact(p: seq<Item>, q: seq<Item>, live: set<int>, m: int, n: int)
    requires |p| == |q| && (forall x :: 0 <= x < |p| ==> q[x].valid == p[x].valid)
    ensures Intact(p, live, m, n) <==> Intact(q, live, m, n)
  {
  }

  lemma ListsFrame(p: seq<Item>, q: seq<Item>, chains: seq<seq<int>>, free: seq<int>, freelist: int, live: set<int>)
    requires Lists(p, chains, free, freelist, live) && |q| == |p|
    requires forall x :: 0 <= x < |p| ==> q[x].bucket == p[x].bucket && q[x].next == p[x].next && q[x].hash == p[x].hash
    ensures Lists(q, chains, free, freelist, live)
  {
    forall b | 0 <= b < |p|
      ensures InBucket(q, b, chains[b], live)
    {
      assert InBucket(p, b, chains[b], live);
    }
  }

  lemma StoredKeys(p: seq<Item>, slots: map<Key, int>)
    requires forall k :: k in slots ==> 0 <= slots[k] < |p|
    ensures forall k :: k in Stored(p, slots) <==> k in slots
  {
  }

  lemma FreeHead(p: seq<Item>, g: Layout, freelist: int, size: int, hashOf: (Key, int) -> int, seed: int)
    requires Shape(p, g, freelist, size, hashOf, seed)
    ensures freelist == NIL <==> g.free == []
    ensures freelist != NIL ==> 0 <= freelist < |p|
  {
  }

  lemma ClaimFree(p: seq<Item>, g: Layout, freelist: int, size: int, hashOf: (Key, int) -> int, seed: int)
    requires Shape(p, g, freelist, size, hashOf, seed) && g.free != []
    ensures 0 <= freelist < |p| && freelist == g.free[0]
    ensures Claimed(p, g.(free := g.free[1..]), p[freelist].next, size + 1, hashOf, seed, freelist)
  {
    hide Lists, Hashed, Used;
    ListsPop(p, g.chains, g.free, freelist, g.live);
    UsedPop(size, g.live, g.free, |p|);
  }

  lemma ListsPop(p: seq<Item>, chains: seq<seq<int>>, free: seq<int>, freelist: int, live: set<int>)
    requires Lists(p, chains, free, freelist, live) && free != []
    ensures freelist == free[0] && 0 <= freelist < |p| && freelist !in live && freelist !in free[1..]
    ensures Lists(p, chains, free[1..], p[freelist].next, live)
  {
    hide InBucket;
    var rest := free[1..];
    assert p[free[0]].next == After(free, 0);
    assert forall j :: 0 <= j < |rest| ==> rest[j] == free[j + 1];
    assert forall j {:trigger After(rest, j)} :: 0 <= j < |rest| ==> After(rest, j) == After(free, j + 1);
  }

  lemma UsedPop(size: int, live: set<int>, free: seq<int>, capacity: int)
    requires Used(size, live, free, capacity) && free != [] && free[0] !in live
    ensures Used(size + 1, live + {free[0]}, free[1..], capacity)
  {
    assert free[0] in free;
    assert forall x :: x in free <==> x == free[0] || x in free[1..];
  }

  lemma ClaimNext(p: seq<Item>, g: Layout, freelist: int, size: int, hashOf: (Key, int) -> int, seed: int)
    requires Shape(p, g, freelist, size, hashOf, seed) && g.free == [] && size < |p|
    ensures Claimed(p, g, freelist, size + 1, hashOf, seed, size)
  {
    hide Lists, Hashed;
  }

  lemma NoneFree(size: int)
    ensures NoHoles(size, [])
  {
  }

  lemma GrownFits(fast: bool, size: int)
    requires 0 <= size <= MAX_CAPACITY
    ensures Target(fast, size, Plus(size, size)) >= size
    ensures Target(fast, size, Plus(size, size)) == size <==> size == MAX_CAPACITY
  {
    TargetFits(fast, size, Plus(size, size));
  }

  lemma ClaimedInRange(p: seq<Item>, g: Layout, freelist: int, size: int, hashOf: (Key, int) -> int, seed: int, index: int)
    requires Claimed(p, g, freelist, size, hashOf, seed, index)
    ensures 0 <= index < |p| == |g.chains|
  {
  }

  /** Slot `i` of `p` was filled with a marked entry. */
  ghost predicate Entered(p: seq<Item>, q: seq<Item>, i: int, key: Key, element: Element) {
    && 0 <= i < |p| == |q| && q[i].valid && q[i].key == key && q[i].element == element
    && (forall x :: 0 <= x < |p| && x != i ==>
          q[x].key == p[x].key && q[x].element == p[x].element && q[x].valid == p[x].valid)
  }

  lemma Filled(p: seq<Item>, g: Layout, freelist: int, size: int, hashOf: (Key, int) -> int, seed: int,
               index: int, it: Item, b: int, q: seq<Item>)
    requires Claimed(p, g, freelist, size, hashOf, seed, index) && |g.chains| == |p| && Safe(p, g.live)
    requires it.hash == hashOf(it.key, seed) && it.valid && it.bucket == p[index].bucket
    requires b == Home(|p|, it.hash) && it.next == p[b].bucket
    requires var q1 := p[index := it]; q == q1[b := q1[b].(bucket := index)]
    ensures index !in g.live && Entered(p, q, index, it.key, it.element)
    ensures var g' := Layout(LinkedIn(g.chains, index, b), g.free, g.live + {index}, g.slots[it.key := index]);
            && Shape(q, g', freelist, size, hashOf, seed) && Safe(q, g'.live)
            && (Keyed(p, g.live, g.slots) && |g.slots| == size - 1 && it.key !in g.slots ==>
                  && Good(q, g', freelist, size, hashOf, seed)
                  && (forall k :: k in g.slots ==> 0 <= g.slots[k] < |p|)
                  && Stored(q, g'.slots) == Stored(p, g.slots)[it.key := it.element])
            && (Marks(p, g.live) ==> Marks(q, g'.live))
  {
    hide Lists, Keyed, Hashed, Used, Stored, Marks, Safe;
    LinkFront(p, g.chains, g.free, freelist, g.live, index, it, b, q);
    EnteredAt(p, index, it, b, q);
    MarksMore(p, q, g.live, index);
    HashedAlso(p, q, g.live, index, hashOf, seed);
    if Keyed(p, g.live, g.slots) && |g.slots| == size - 1 && it.key !in g.slots {
      KeyedInRange(p, g.live, g.slots);
      KeyedMore(p, q, g.live, g.slots, index);
      StoredMore(p, q, g.live, g.slots, index);
    }
  }

  lemma KeyedMore(p: seq<Item>, q: seq<Item>, live: set<int>, slots: map<Key, int>, i: int)
    requires Keyed(p, live, slots) && 0 <= i < |p| == |q| && i !in live && q[i].key !in slots
    requires forall x :: 0 <= x < |p| && x != i ==> q[x].key == p[x].key
    ensures Keyed(q, live + {i}, slots[q[i].key := i]) && |slots[q[i].key := i]| == |slots| + 1
  {
    var slots' := slots[q[i].key := i];
    assert slots'.Keys == slots.Keys + {q[i].key};
    forall x | x in live + {i}
      ensures 0 <= x < |q| && q[x].key in slots' && slots'[q[x].key] == x
    {
      assert x in live ==> 0 <= x < |p| && p[x].key in slots;
    }
  }

  lemma MarksMore(p: seq<Item>, q: seq<Item>, live: set<int>, i: int)
    requires 0 <= i < |p| == |q| && q[i].valid && (forall x :: 0 <= x < |p| && x != i ==> q[x].valid == p[x].valid)
    ensures Marks(p, live) ==> Marks(q, live + {i})
    ensures Safe(p, live) ==> Safe(q, live + {i})
  {
  }

  lemma StoredMore(p: seq<Item>, q: seq<Item>, live: set<int>, slots: map<Key, int>, i: int)
    requires Keyed(p, live, slots) && 0 <= i < |p| == |q| && i !in live
    requires forall x :: 0 <= x < |p| && x != i ==> q[x].element == p[x].element
    ensures Stored(q, slots[q[i].key := i]) == Stored(p, slots)[q[i].key := q[i].element]
  {
  }

  lemma HashedAlso(p: seq<Item>, q: seq<Item>, live: set<int>, i: int, hashOf: (Key, int) -> int, seed: int)
    requires Hashed(p, live, hashOf, seed) && 0 <= i < |p| == |q| && q[i].hash == hashOf(q[i].key, seed)
    requires forall x :: 0 <= x < |p| && x != i ==> q[x].key == p[x].key && q[x].hash == p[x].hash
    ensures Hashed(q, live + {i}, hashOf, seed)
  {
  }

  lemma CompactBegins(p: seq<Item>)
    ensures Compacting(p, p, 0)
  {
  }

  lemma CompactDone(p: seq<Item>, q: seq<Item>, g: Layout, size: int)
    requires Used(size, g.live, g.free, |p|) && Safe(p, g.live) && Compacting(p, q, |p|)
    ensures Loose(q, size) && Regathered(p, size, q)
  {
    FlagsFit(p, g.live);
    forall x | 0 <= x < |p|
      ensures q[x].bucket == NIL && (q[x].valid <==> x < FirstHole(p, |p|))
      ensures q[x].key == p[Origin(p, x, |p|)].key && q[x].element == p[Origin(p, x, |p|)].element
    {
      assert q[x] == CompactItem(p, x, |p|);
    }
  }

  /** The first `n` items of bucket `b` satisfy the callback. */
  ghost predicate Passed(p: seq<Item>, g: Layout, keep: (Key, Element) -> bool, b: int, n: nat) {
    && 0 <= b < |g.chains| == |p| && n <= |g.chains[b]|
    && (forall k :: 0 <= k < n ==> 0 <= g.chains[b][k] < |p|)
    && (forall k :: 0 <= k < n ==> keep(p[g.chains[b][k]].key, p[g.chains[b][k]].element))
  }

  /** From the first state to the second only entries that fail the callback are gone. */
  ghost predicate Narrowed(p: seq<Item>, g: Layout, q: seq<Item>, g': Layout, keep: (Key, Element) -> bool) {
    && |q| == |p| == |g.chains| == |g'.chains|
    && (forall x :: 0 <= x < |p| ==> q[x].key == p[x].key && q[x].element == p[x].element)
    && (forall k :: k in g.slots ==> 0 <= g.slots[k] < |p|)
    && (forall k :: k in g'.slots ==> k in g.slots && g'.slots[k] == g.slots[k])
    && (forall k :: k in g.slots && k !in g'.slots ==> !keep(k, p[g.slots[k]].element))
  }

  ghost predicate SameElsewhere(g: Layout, g': Layout, b: int) {
    |g'.chains| == |g.chains| && (forall x :: 0 <= x < |g.chains| && x != b ==> g'.chains[x] == g.chains[x])
  }

  lemma FilteredOut(p1: seq<Item>, g1: Layout, p: seq<Item>, g: Layout, q: seq<Item>, g': Layout, freelist: int,
                    keep: (Key, Element) -> bool, b: int, n: nat, prev: int, i: int)
    requires At(p, g, b, n, prev, i) && Relinked(p, q, b, prev, i, freelist)
    requires g' == Less(g, b, n, p[i].key) && !keep(p[i].key, p[i].element)
    requires Passed(p, g, keep, b, n)
    requires p[i].key in g.slots && g.slots[p[i].key] == i && Narrowed(p1, g1, p, g, keep)
    ensures Narrowed(p1, g1, q, g', keep) && Passed(q, g', keep, b, n)
    ensures |g'.chains[b]| == |g.chains[b]| - 1 && Nth(g'.chains[b], n - 1) == prev
    ensures SameElsewhere(g1, g, b) ==> SameElsewhere(g1, g', b)
  {
    hide Passed, Narrowed;
    NarrowedMore(p1, g1, p, g, q, g', keep, i);
    PassedStill(p, g, q, g', keep, b, n);
  }

  lemma NarrowedMore(p1: seq<Item>, g1: Layout, p: seq<Item>, g: Layout, q: seq<Item>, g': Layout,
                     keep: (Key, Element) -> bool, i: int)
    requires Narrowed(p1, g1, p, g, keep) && 0 <= i < |p| && p[i].key in g.slots && g.slots[p[i].key] == i
    requires |q| == |p| && (forall x :: 0 <= x < |p| ==> q[x].key == p[x].key && q[x].element == p[x].element)
    requires |g'.chains| == |g.chains| && g'.slots == g.slots - {p[i].key} && !keep(p[i].key, p[i].element)
    ensures Narrowed(p1, g1, q, g', keep)
  {
  }

  lemma PassedStill(p: seq<Item>, g: Layout, q: seq<Item>, g': Layout, keep: (Key, Element) -> bool, b: int, n: nat)
    requires Passed(p, g, keep, b, n) && n < |g.chains[b]|
    requires |q| == |p| && (forall x :: 0 <= x < |p| ==> q[x].key == p[x].key && q[x].element == p[x].element)
    requires |g'.chains| == |g.chains| && g'.chains[b] == Without(g.chains[b], n)
    ensures Passed(q, g', keep, b, n)
  {
    assert forall k :: 0 <= k < n ==> g'.chains[b][k] == g.chains[b][k];
  }

  ghost function Kept(m: map<Key, Element>, keep: (Key, Element) -> bool): map<Key, Element> {
    map k | k in m && keep(k, m[k]) :: m[k]
  }

  ghost predicate AllPassed(p: seq<Item>, g: Layout, keep: (Key, Element) -> bool, b: nat) {
    b <= |p| && (forall x :: 0 <= x < b ==> x < |g.chains| && Passed(p, g, keep, x, |g.chains[x]|))
  }

  lemma NonePassed(p: seq<Item>, g: Layout, keep: (Key, Element) -> bool)
    ensures AllPassed(p, g, keep, 0)
  {
  }

  lemma Filtered(p1: seq<Item>, g1: Layout, p: seq<Item>, g: Layout, q: seq<Item>, g': Layout,
                 keep: (Key, Element) -> bool, b: nat)
    requires Narrowed(p1, g1, p, g, keep) && Narrowed(p, g, q, g', keep) && SameElsewhere(g, g', b)
    requires b < |p| && AllPassed(p, g, keep, b) && Passed(q, g', keep, b, |g'.chains[b]|)
    ensures Narrowed(p1, g1, q, g', keep) && AllPassed(q, g', keep, b + 1)
  {
    forall x | 0 <= x < b + 1
      ensures x < |g'.chains| && Passed(q, g', keep, x, |g'.chains[x]|)
    {
      assert x < b ==> Passed(p, g, keep, x, |g.chains[x]|);
    }
  }

  lemma FilterContents(p1: seq<Item>, g1: Layout, p: seq<Item>, g: Layout,
                       freelist: int, size: int, hashOf: (Key, int) -> int, seed: int, keep: (Key, Element) -> bool)
    requires Narrowed(p1, g1, p, g, keep) && AllPassed(p, g, keep, |p|)
    requires Good(p, g, freelist, size, hashOf, seed)
    ensures Stored(p, g.slots) == Kept(Stored(p1, g1.slots), keep)
  {
    hide Good, AllPassed;
    SlotsInRange(p, g, freelist, size, hashOf, seed);
    forall k | k in g.slots
      ensures keep(k, p[g.slots[k]].element)
    {
      KeptKey(p, g, freelist, size, hashOf, seed, keep, k);
    }
  }

  lemma KeptKey(p: seq<Item>, g: Layout, freelist: int, size: int, hashOf: (Key, int) -> int, seed: int,
                keep: (Key, Element) -> bool, key: Key)
    requires Good(p, g, freelist, size, hashOf, seed) && AllPassed(p, g, keep, |p|) && key in g.slots
    ensures 0 <= g.slots[key] < |p| && keep(key, p[g.slots[key]].element)
  {
    var x := g.slots[key];
    var b := Home(|p|, p[x].hash);
    assert x in g.chains[b] && Passed(p, g, keep, b, |g.chains[b]|);
  }

  lemma Unfiltered(p: seq<Item>, g: Layout, keep: (Key, Element) -> bool, b: int)
    requires |g.chains| == |p| && 0 <= b < |p| && (forall k :: k in g.slots ==> 0 <= g.slots[k] < |p|)
    ensures Narrowed(p, g, p, g, keep) && SameElsewhere(g, g, b)
  {
  }

  lemma AtInRange(p: seq<Item>, g: Layout, b: int, j: nat, prev: int, i: int)
    requires At(p, g, b, j, prev, i)
    ensures 0 <= b < |p| == |g.chains| && j < |g.chains[b]| && i == g.chains[b][j] && 0 <= i < |p| && prev < |p|
  {
  }

  lemma Removed(p: seq<Item>, q: seq<Item>, g: Layout, freelist: int, size: int, hashOf: (Key, int) -> int, seed: int,
                b: int, j: nat, prev: int, i: int)
    requires Good(p, g, freelist, size, hashOf, seed) && At(p, g, b, j, prev, i)
    requires Relinked(p, q, b, prev, i, freelist)
    ensures Good(q, Less(g, b, j, p[i].key), i, size - 1, hashOf, seed)
    ensures p[i].key in g.slots && (Marks(p, g.live) ==> Marks(q, g.live - {i}))
    ensures Safe(p, g.live) ==> Safe(q, g.live - {i})
  {
    Unlink(p, q, g.chains, g.free, freelist, g.live, b, j, prev, i);
    RemoveIndex(p, q, g.live, g.free, g.slots, size, i, hashOf, seed);
  }

  lemma RemoveIndex(p: seq<Item>, q: seq<Item>, live: set<int>, free: seq<int>, slots: map<Key, int>, size: int, i: int,
                    hashOf: (Key, int) -> int, seed: int)
    requires Keyed(p, live, slots) && Hashed(p, live, hashOf, seed) && Used(size, live, free, |p|)
    requires |slots| == size && i in live && 0 <= i < |p| == |q| && !q[i].valid
    requires forall x :: 0 <= x < |p| ==> q[x].key == p[x].key && q[x].hash == p[x].hash
    requires forall x :: 0 <= x < |p| && x != i ==> q[x].valid == p[x].valid
    ensures var slots' := slots - {p[i].key};
            Keyed(q, live - {i}, slots') && |slots'| == size - 1
    ensures Hashed(q, live - {i}, hashOf, seed) && Used(size - 1, live - {i}, [i] + free, |p|)
    ensures Marks(p, live) ==> Marks(q, live - {i})
    ensures Safe(p, live) ==> Safe(q, live - {i})
  {
    var slots' := slots - {p[i].key};
    assert slots'.Keys == slots.Keys - {p[i].key};
  }

  lemma StoredMinus(p: seq<Item>, q: seq<Item>, slots: map<Key, int>, key: Key)
    requires |p| == |q| && (forall k :: k in slots ==> 0 <= slots[k] < |p|)
    requires forall x :: 0 <= x < |p| ==> q[x].element == p[x].element
    ensures Stored(q, slots - {key}) == Stored(p, slots) - {key}
  {
  }

  /** The position of `x` in a chain, or its length. */
  ghost function Place(chain: seq<int>, x: int): (n: nat)
    ensures n <= |chain|
  {
    if chain == [] || chain[0] == x then 0 else 1 + Place(chain[1..], x)
  }

  lemma {:induction false} PlaceIs(chain: seq<int>, n: nat)
    requires Distinct(chain) && n < |chain|
    ensures Place(chain, chain[n]) == n
  {
    if n > 0 {
      assert chain[1..][n - 1] == chain[n];
      PlaceIs(chain[1..], n - 1);
    }
  }

  lemma {:induction false} PlaceMissing(chain: seq<int>)
    requires NIL !in chain
    ensures Place(chain, NIL) == |chain|
  {
    if chain != [] {
      PlaceMissing(chain[1..]);
    }
  }

  // ---------------------------------------------------------------- marks, right and wrong

  /** As long as the marks are right, no set loses an entry. */
  lemma RightMarksKeep(t: Table, key: Key, ok: bool)
    requires t.Valid() && t.Flagged()
    ensures t.Shaped() && t.SetKeeps(key, ok)
  {
    assert Safe(t.p, t.g.live);
    FlagsFit(t.p, t.g.live);
    GoodIsShape(t.p, t.g, t.freelist, t.size, t.hashOf, t.seed);
  }

  /** A search passes no more items than there are. */
  lemma FewCollisions(t: Table, key: Key)
    requires t.Valid()
    ensures t.Collisions(key) <= t.size
  {
    var b := Home(|t.p|, t.hashOf(key, t.seed));
    var chain := t.g.chains[b];
    assert InBucket(t.p, b, chain, t.g.live);
    AsSet(chain);
    SubsetCard((set x | x in chain), t.g.live);
  }

  /** A set into a small table without free slots takes the next slot. */
  method SetNew(t: Table, key: Key, element: Element)
    requires t.Valid() && t.Shaped() && t.g.free == [] && t.size < 5 && 13 <= |t.p| && key !in t.g.slots
    modifies t
    ensures t.Valid() && t.Shaped() && t.g.free == [] && t.size == old(t.size) + 1
    ensures t.Contents() == old(t.Contents())[key := element] && (old(t.Flagged()) ==> t.Flagged())
    ensures t.g.live == old(t.g).live + {old(t.size)} && Entered(old(t.p), t.p, old(t.size), key, element)
  {
    hide Good, Shape, Safe, Marks, NoHoles, Stored, Intact, Flags, Held, Target, Entered;
    FewCollisions(t, key);
    GoodIsShape(t.p, t.g, t.freelist, t.size, t.hashOf, t.seed);
    StoredKeys(t.p, t.g.slots);
    ShapeSize(t.p, t.g, t.freelist, t.size, t.hashOf, t.seed);
    ghost var live0, n0 := t.g.live, t.size;
    var out;
    ghost var from;
    out, from := t.Set(key, element, 0, true);
    ShapeSize(t.p, t.g, t.freelist, t.size, t.hashOf, t.seed);
    GrewByOne(live0, t.g.live, n0, t.size);
  }

  lemma GrewByOne(live: set<int>, live': set<int>, n: int, n': int)
    requires |live| == n && |live'| == n' && live' == live + {n} && n !in live
    ensures n' == n + 1
  {
  }

  /** A compaction by the one mark on slot 1. */
  lemma OneMarked(p: seq<Item>, q: seq<Item>, n: int)
    requires Flags(p) == {1} && Regathered(p, n, q) && n <= 2
    ensures Flags(q) == {} && (forall x :: 0 <= x < n ==> q[x].key == p[1].key)
  {
    hide Marked;
    FlagsAre(p);
    assert |{1}| == 1;
    assert Marked(p, |p|)[0] in Marked(p, |p|);
    assert 0 !in Flags(p) && !p[0].valid;
    forall x | 0 <= x < n ensures q[x].key == p[1].key {
      assert Origin(p, x, |p|) == 1;
    }
  }

  /** The one entry is in slot 0, and slot 0 is not marked. */
  ghost predicate MarkLost(t: Table, b: Key, element: Element)
    reads t
  {
    && t.Valid() && t.Shaped() && t.Contents() == map[b := element] && !t.Flagged()
    && t.size == 1 && |t.p| == 31 && t.g.live == {0} && t.g.free == [] && Flags(t.p) == {} && t.p[0].key == b
  }

  /** Two entries in slots 0 and 1 of a new table. */
  method SetTwo(hashOf: (Key, int) -> int, fast: bool, seed: int, a: Key, b: Key) returns (t: Table)
    requires a != b
    ensures fresh(t) && t.Valid() && t.Shaped() && t.Flagged() && t.size == 2 && |t.p| == 13 && t.g.free == []
    ensures t.Contents() == map[a := 1, b := 2] && t.g.live == {0, 1} && t.p[0].key == a && t.p[1].key == b
  {
    hide Good, Shape, Safe, Marks, Stored;
    t := new Table(hashOf, fast, seed);
    GoodIsShape(t.p, t.g, t.freelist, t.size, t.hashOf, t.seed);
    ShapeSize(t.p, t.g, t.freelist, t.size, t.hashOf, t.seed);
    StoredKeys(t.p, t.g.slots);
    SetNew(t, a, 1);
    GoodIsShape(t.p, t.g, t.freelist, t.size, t.hashOf, t.seed);
    StoredKeys(t.p, t.g.slots);
    SetNew(t, b, 2);
  }

  /** Two sets, a delete and a reserve: the entry left was moved down over the hole,
      and its mark did not move with it. */
  method LoseMark(hashOf: (Key, int) -> int, fast: bool, seed: int, a: Key, b: Key) returns (t: Table)
    requires a != b
    ensures fresh(t) && MarkLost(t, b, 2)
  {
    hide Good, Shape, Safe, Marks, Stored, Regathered, Gathering, Carries, Follows, Intact, Target, Flags;
    t := SetTwo(hashOf, fast, seed, a, b);
    SlotIs(t, a, 0);
    ghost var p0 := t.p;
    var out := t.Del(a);
    ghost var p1 := t.p;
    OnlyOne(p0, p1);
    GoodIsShape(t.p, t.g, t.freelist, t.size, t.hashOf, t.seed);
    ShapeSize(t.p, t.g, t.freelist, t.size, t.hashOf, t.seed);
    assert t.g.live == {1};
    AllMarked(p1, t.g.live, t.size);
    SmallTargets(t.fast);
    ghost var from := t.Reserve(14, true);
    OneMarked(p1, t.p, 1);
    Unmarked(t.p, {0});
  }

  /** One more set and reserve: the entry without a mark is overwritten. The table has
      two entries, both with the key that came last, and no longer finds the other. */
  method LoseEntry(t: Table, b: Key, c: Key)
    requires MarkLost(t, b, 2) && b != c
    modifies t
    ensures t.Shaped() && t.size == 2 && t.g.live == {0, 1} && t.p[0].key == c && t.p[1].key == c
  {
    hide Good, Shape, Safe, Marks, Stored, Regathered, Gathering, Carries, Follows, Intact, Target, Flags;
    GoodIsShape(t.p, t.g, t.freelist, t.size, t.hashOf, t.seed);
    StoredKeys(t.p, t.g.slots);
    ghost var p0 := t.p;
    SetNew(t, c, 3);
    assert t.Contents() == map[b := 2, c := 3];
    ghost var p1 := t.p;
    FlagsMore(p0, p1, {0}, 1, c, 3);
    SmallTargets(t.fast);
    ghost var from := t.Reserve(32, true);
    OneMarked(p1, t.p, 2);
  }

  lemma {:induction false} FirstIs(ps: seq<int>, x: int, idx: nat, k: nat)
    requires idx <= k < |ps| && x <= ps[|ps| - 1] && x <= ps[k] && (forall i :: idx <= i < k ==> ps[i] < x)
    ensures FirstFrom(ps, x, idx) == ps[k]
    decreases k - idx
  {
    if idx < k {
      FirstIs(ps, x, idx + 1, k);
    }
  }

  lemma SmallPrimes(x: int, k: nat)
    requires k < 3 && PRIMES[k] >= x && (forall i :: 0 <= i < k ==> PRIMES[i] < x)
    ensures Fitting(x) == PRIMES[k]
  {
    hide FirstFrom;
    FirstIs(PRIMES, x, 0, k);
  }

  lemma SmallTargets(fast: bool)
    ensures Target(fast, 1, 14) == 31 && Target(fast, 2, 32) == 61
  {
    hide FirstFrom, Fitting;
    SmallPrimes(if fast then 19 else 14, 1);
    SmallPrimes(if fast then 43 else 32, 2);
  }

  lemma Unmarked(p: seq<Item>, live: set<int>)
    requires Flags(p) == {} && live != {} && (forall x :: x in live ==> 0 <= x < |p|)
    ensures !Marks(p, live)
  {
    var x := Member(live);
    assert x !in Flags(p);
  }

  lemma OnlyOne(p: seq<Item>, q: seq<Item>)
    requires SameButMark(p, q, 0) && Marks(p, {0, 1}) && |p| > 1
    ensures Flags(q) == {1}
  {
    assert 0 in {0, 1} && 1 in {0, 1};
  }

  lemma SlotIs(t: Table, key: Key, i: int)
    requires t.Valid() && i in t.g.live && 0 <= i < |t.p| && t.p[i].key == key
    ensures key in t.g.slots && t.g.slots[key] == i
  {
  }
}
