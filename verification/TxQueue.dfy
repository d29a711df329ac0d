/**
 The transmit queue of the vmxnet3 driver, and the device on the other side of its rings.

 The driver writes descriptors into the command ring and hands them over by their generation bit;
 the device answers each packet with an entry in the completion ring. Ghost fields count positions
 from the start: `log` and `done` are everything ever written to the two rings, `packets` all
 accepted chains, of which the driver has seen the completion of the first `seen`.
 */
module TxQueueModule {
  import opened Arith
  import opened Bits
  import opened Ring

  const MIN_TX_NDESC: nat := 32
  const MAX_TX_NDESC: nat := 4096
  const MAXSEGS: nat := 32
  const INIT_GEN := 1
  const LEN_LIMIT: nat := 16384      // the length field has 14 bits

  datatype Segment = Segment(addr: nat, len: nat)

  datatype Chain = Chain(segments: seq<Segment>, flags: nat)

  type Bit = x: int | 0 <= x <= 1

  datatype Desc = Desc(segment: Segment, gen: Bit, eop: bool, compreq: Bit)

  datatype Comp = Comp(gen: Bit, eopIdx: nat)

  datatype Option<+T> = None | Some(value: T)

  datatype Outcome = Accepted | Rejected | Panicked

  const noDesc := Desc(Segment(0, 0), 0, false, 0)
  const noComp := Comp(0, 0)

  // ----- packets on the ring

  /** A segment as a descriptor can hold it. */
  function Stored(s: Segment): Segment {
    s.(len := s.len % LEN_LIMIT)
  }

  /** What the device sends for a chain. */
  function Sent(c: Chain): (segments: seq<Segment>)
    ensures |segments| == |c.segments|
    ensures forall k :: 0 <= k < |segments| ==> segments[k] == Stored(c.segments[k])
  {
    seq(|c.segments|, k requires 0 <= k < |c.segments| => Stored(c.segments[k]))
  }

  /** A chain is sent as it was enqueued exactly if every length fits the field. */
  lemma SentWhole(c: Chain)
    ensures Sent(c) == c.segments <==> forall k :: 0 <= k < |c.segments| ==> c.segments[k].len < LEN_LIMIT
  {
    forall k | 0 <= k < |c.segments|
      ensures Sent(c)[k] == c.segments[k] <==> c.segments[k].len < LEN_LIMIT
    {
      if c.segments[k].len < LEN_LIMIT {
        DivUnique(LEN_LIMIT, 0, c.segments[k].len);
      }
    }
  }

  /** The descriptor of segment `k` of a chain that starts at position `start`. */
  function DescOf(c: Chain, k: nat, start: nat, n: nat): Desc
    requires n > 0 && k < |c.segments|
  {
    var last := k == |c.segments| - 1;
    Desc(Stored(c.segments[k]), Gen(start + k, n), last, if last then c.flags % 2 else 0)
  }

  function DescsOf(c: Chain, start: nat, n: nat): (ds: seq<Desc>)
    requires n > 0
    ensures |ds| == |c.segments|
    ensures forall k :: 0 <= k < |ds| ==> ds[k] == DescOf(c, k, start, n)
  {
    seq(|c.segments|, k requires 0 <= k < |c.segments| => DescOf(c, k, start, n))
  }

  /** Where packet `k` starts. */
  ghost function Start(packets: seq<Chain>, k: nat): nat
    requires k <= |packets|
  {
    if k == 0 then 0 else Start(packets, k - 1) + |packets[k - 1].segments|
  }

  /** The descriptors of the packets, one packet after the other. */
  ghost predicate Tiled(log: seq<Desc>, packets: seq<Chain>, n: nat)
    requires n > 0
  {
    && |log| == Start(packets, |packets|)
    && (forall k :: 0 <= k < |packets| ==> PacketAt(log, packets, k, n))
  }

  ghost predicate PacketAt(log: seq<Desc>, packets: seq<Chain>, k: nat, n: nat)
    requires n > 0 && k < |packets|
  {
    && packets[k].segments != [] && Start(packets, k + 1) <= |log|
    && log[Start(packets, k)..Start(packets, k + 1)] == DescsOf(packets[k], Start(packets, k), n)
  }

  /** The completion of packet `k`. */
  ghost predicate CompAt(done: seq<Comp>, packets: seq<Chain>, k: nat, n: nat)
    requires n > 0 && k < |packets| && k < |done|
  {
    Start(packets, k + 1) > 0 && done[k] == Comp(Gen(k, n), Slot(Start(packets, k + 1) - 1, n))
  }

  ghost predicate Completed(done: seq<Comp>, packets: seq<Chain>, n: nat)
    requires n > 0
  {
    |done| <= |packets| && forall k :: 0 <= k < |done| ==> CompAt(done, packets, k, n)
  }

  lemma {:induction false} StartExtend(packets: seq<Chain>, c: Chain, k: nat)
    requires k <= |packets|
    ensures Start(packets + [c], k) == Start(packets, k)
    decreases k
  {
    if k > 0 {
      StartExtend(packets, c, k - 1);
    }
  }

  lemma {:induction false} StartMonotone(packets: seq<Chain>, j: nat, k: nat)
    requires j <= k <= |packets|
    requires forall i :: 0 <= i < |packets| ==> packets[i].segments != []
    ensures Start(packets, j) + (k - j) <= Start(packets, k)
    decreases k
  {
    if j < k {
      StartMonotone(packets, j, k - 1);
    }
  }

  /** Accepting a packet. */
  lemma TileExtend(log: seq<Desc>, packets: seq<Chain>, c: Chain, n: nat)
    requires n > 0 && Tiled(log, packets, n) && c.segments != []
    ensures Tiled(log + DescsOf(c, |log|, n), packets + [c], n)
  {
    var log', packets' := log + DescsOf(c, |log|, n), packets + [c];
    StartExtend(packets, c, |packets|);
    forall k | 0 <= k < |packets'| ensures PacketAt(log', packets', k, n) {
      StartExtend(packets, c, k);
      if k < |packets| {
        StartExtend(packets, c, k + 1);
        assert PacketAt(log, packets, k, n);
        assert log'[Start(packets, k)..Start(packets, k + 1)] == log[Start(packets, k)..Start(packets, k + 1)];
      }
    }
  }

  lemma CompletedExtend(done: seq<Comp>, packets: seq<Chain>, c: Chain, n: nat)
    requires n > 0 && Completed(done, packets, n)
    ensures Completed(done, packets + [c], n)
  {
    forall k | 0 <= k < |done| ensures CompAt(done, packets + [c], k, n) {
      assert CompAt(done, packets, k, n);
      StartExtend(packets, c, k + 1);
    }
  }

  /** A descriptor of the log has the generation of its position. */
  lemma LogGen(log: seq<Desc>, packets: seq<Chain>, n: nat, k: nat, p: nat)
    requires n > 0 && Tiled(log, packets, n) && k < |packets| && Start(packets, k) <= p < Start(packets, k + 1)
    ensures p < |log| && log[p] == DescOf(packets[k], p - Start(packets, k), Start(packets, k), n)
    ensures log[p].gen == Gen(p, n)
  {
    assert PacketAt(log, packets, k, n);
    var s := Start(packets, k);
    assert log[p] == log[s..Start(packets, k + 1)][p - s];
  }

  lemma {:induction false} PacketOf(packets: seq<Chain>, p: nat, k: nat) returns (j: nat)
    requires k <= |packets| && p < Start(packets, k)
    ensures j < k && Start(packets, j) <= p < Start(packets, j + 1)
    decreases k
  {
    if p >= Start(packets, k - 1) {
      j := k - 1;
    } else {
      j := PacketOf(packets, p, k - 1);
    }
  }

  /** What the device sees at a position less than a round ahead: whether it has been written. */
  lemma Visible(ring: seq<Desc>, log: seq<Desc>, packets: seq<Chain>, p: nat)
    requires |ring| > 0 && Holds(ring, log, noDesc) && Tiled(log, packets, |ring|)
    requires |log| <= p + |ring| && p < |log| + |ring|
    ensures ring[Slot(p, |ring|)].gen == Gen(p, |ring|) <==> p < |log|
    ensures p < |log| ==> ring[Slot(p, |ring|)] == log[p]
  {
    var n := |ring|;
    if p < |log| {
      var k := PacketOf(packets, p, |packets|);
      LogGen(log, packets, n, k, p);
    } else if p < n {
      FirstRound(p, n);
    } else {
      Around(p - n, n);
      var k := PacketOf(packets, p - n, |packets|);
      LogGen(log, packets, n, k, p - n);
    }
  }

  /**
   From position `from` on the ring shows exactly the descriptors of the log: a device that stands
   at any of these positions finds the descriptor of its generation as long as there is one, and
   none behind the log.
   */
  ghost predicate Shows(ring: seq<Desc>, log: seq<Desc>, from: nat) {
    && |ring| > 0 && from <= |log| < from + |ring|
    && forall p :: from <= p <= |log| ==> ShowsAt(ring, log, p)
  }

  ghost predicate ShowsAt(ring: seq<Desc>, log: seq<Desc>, p: nat)
    requires |ring| > 0
  {
    && (ring[Slot(p, |ring|)].gen == Gen(p, |ring|) <==> p < |log|)
    && (p < |log| ==> ring[Slot(p, |ring|)] == log[p])
  }

  lemma AllVisible(ring: seq<Desc>, log: seq<Desc>, packets: seq<Chain>, from: nat)
    requires |ring| > 0 && Holds(ring, log, noDesc) && Tiled(log, packets, |ring|)
    requires from <= |log| < from + |ring|
    ensures Shows(ring, log, from)
  {
    hide Slot, Gen, Holds, Tiled;
    forall p | from <= p <= |log| ensures ShowsAt(ring, log, p) {
      Visible(ring, log, packets, p);
    }
  }

  /** A write behind the log shows nothing, unless it gives the next position its generation. */
  lemma WriteUnseen(ring: seq<Desc>, log: seq<Desc>, from: nat, k: nat, d: Desc)
    requires Shows(ring, log, from) && |log| + k < from + |ring|
    requires k == 0 ==> d.gen != Gen(|log|, |ring|)
    ensures Shows(ring[Slot(|log| + k, |ring|) := d], log, from)
  {
    var n := |ring|;
    var ring' := ring[Slot(|log| + k, n) := d];
    forall p | from <= p <= |log| ensures ShowsAt(ring', log, p) {
      assert ShowsAt(ring, log, p);
      if p < |log| + k {
        SlotsApart(p, |log| + k, n);
      }
    }
  }

  // ----- the rings that memory goes through

  /** One descriptor differs. */
  ghost predicate OneWrite(a: seq<Desc>, b: seq<Desc>) {
    |a| == |b| && exists j :: 0 <= j < |a| && b == a[j := b[j]]
  }

  ghost function Latest(first: seq<Desc>, rings: seq<seq<Desc>>): seq<Desc> {
    if rings == [] then first else rings[|rings| - 1]
  }

  /** Every ring since `first`, each by one write from the one before. */
  ghost predicate Trace(first: seq<Desc>, rings: seq<seq<Desc>>) {
    forall i :: 0 <= i < |rings| ==> OneWrite(Latest(first, rings[..i]), rings[i])
  }

  ghost predicate AllShow(rings: seq<seq<Desc>>, log: seq<Desc>, from: nat) {
    forall i :: 0 <= i < |rings| ==> Shows(rings[i], log, from)
  }

  lemma TraceExtend(first: seq<Desc>, rings: seq<seq<Desc>>, ring: seq<Desc>)
    requires Trace(first, rings) && OneWrite(Latest(first, rings), ring)
    ensures Trace(first, rings + [ring]) && Latest(first, rings + [ring]) == ring
  {
    var rings' := rings + [ring];
    forall i | 0 <= i < |rings'| ensures OneWrite(Latest(first, rings'[..i]), rings'[i]) {
      assert i < |rings| ==> rings'[..i] == rings[..i];
      assert i == |rings| ==> rings'[..i] == rings;
    }
  }

  /** One write to the ring. */
  method Put(txd: array<Desc>, at: nat, d: Desc, ghost first: seq<Desc>, ghost rings: seq<seq<Desc>>)
    returns (ghost rings': seq<seq<Desc>>)
    requires at < txd.Length && Trace(first, rings) && Latest(first, rings) == txd[..]
    modifies txd
    ensures txd[..] == old(txd[..])[at := d]
    ensures rings' == rings + [txd[..]] && Trace(first, rings') && Latest(first, rings') == txd[..]
  {
    txd[at] := d;
    rings' := rings + [txd[..]];
    assert OneWrite(old(txd[..]), txd[..]);
    TraceExtend(first, rings, txd[..]);
  }

  /** The same for the completion ring. */
  lemma VisibleComp(ring: seq<Comp>, done: seq<Comp>, packets: seq<Chain>, k: nat)
    requires |ring| > 0 && Holds(ring, done, noComp) && Completed(done, packets, |ring|)
    requires |done| <= k + |ring| && k < |done| + |ring|
    ensures ring[Slot(k, |ring|)].gen == Gen(k, |ring|) <==> k < |done|
    ensures k < |done| ==> ring[Slot(k, |ring|)] == done[k]
  {
    var n := |ring|;
    if k < |done| {
      assert CompAt(done, packets, k, n);
    } else if k < n {
      FirstRound(k, n);
    } else {
      Around(k - n, n);
      assert CompAt(done, packets, k - n, n);
    }
  }

  // ----- the queue

  /** Both rings hold what was written, and at most all but one of the descriptors are in use. */
  ghost predicate Rings(ring: seq<Desc>, comp: seq<Comp>, log: seq<Desc>, done: seq<Comp>, packets: seq<Chain>,
                        seen: nat)
  {
    && |ring| == |comp| > 0
    && Holds(ring, log, noDesc) && Tiled(log, packets, |ring|)
    && Holds(comp, done, noComp) && Completed(done, packets, |ring|)
    && seen <= |done|
    && |log| - Start(packets, seen) < |ring|
  }

  /** The holding area names the chains whose completion is outstanding, with the slots they end at. */
  ghost predicate Held(inflight: seq<(nat, Chain)>, packets: seq<Chain>, seen: nat, n: nat)
    requires n > 0
  {
    && seen + |inflight| == |packets|
    && forall i :: 0 <= i < |inflight| ==> HeldAt(inflight, packets, seen, n, i)
  }

  ghost predicate HeldAt(inflight: seq<(nat, Chain)>, packets: seq<Chain>, seen: nat, n: nat, i: nat)
    requires n > 0 && seen + |inflight| == |packets| && i < |inflight|
  {
    Start(packets, seen + i + 1) > 0 && inflight[i] == (Slot(Start(packets, seen + i + 1) - 1, n), packets[seen + i])
  }

  lemma HeldExtend(inflight: seq<(nat, Chain)>, packets: seq<Chain>, seen: nat, n: nat, c: Chain)
    requires n > 0 && Held(inflight, packets, seen, n) && c.segments != []
    ensures Start(packets + [c], |packets| + 1) > 0
    ensures Held(inflight + [(Slot(Start(packets + [c], |packets| + 1) - 1, n), c)], packets + [c], seen, n)
  {
    hide Slot;
    var inflight', packets' := inflight + [(Slot(Start(packets + [c], |packets| + 1) - 1, n), c)], packets + [c];
    forall i | 0 <= i < |inflight'| ensures HeldAt(inflight', packets', seen, n, i) {
      if i < |inflight| {
        assert HeldAt(inflight, packets, seen, n, i);
        StartExtend(packets, c, seen + i + 1);
      }
    }
  }

  lemma HeldPop(inflight: seq<(nat, Chain)>, packets: seq<Chain>, seen: nat, n: nat)
    requires n > 0 && Held(inflight, packets, seen, n) && inflight != []
    ensures Held(inflight[1..], packets, seen + 1, n)
    ensures Start(packets, seen + 1) > 0 && inflight[0] == (Slot(Start(packets, seen + 1) - 1, n), packets[seen])
  {
    hide Slot;
    assert HeldAt(inflight, packets, seen, n, 0);
    var rest, seen' := inflight[1..], seen + 1;
    forall i | 0 <= i < |rest| ensures HeldAt(rest, packets, seen', n, i) {
      assert HeldAt(inflight, packets, seen, n, i + 1);
    }
  }

  /** All packets have segments, so there are no more of them in flight than descriptors in use. */
  lemma InFlight(ring: seq<Desc>, comp: seq<Comp>, log: seq<Desc>, done: seq<Comp>, packets: seq<Chain>, seen: nat)
    requires Rings(ring, comp, log, done, packets, seen)
    ensures Start(packets, seen) <= Start(packets, |done|) <= |log|
    ensures |packets| - seen <= |log| - Start(packets, seen)
  {
    forall i | 0 <= i < |packets| ensures packets[i].segments != [] {
      assert PacketAt(log, packets, i, |ring|);
    }
    StartMonotone(packets, seen, |packets|);
    StartMonotone(packets, seen, |done|);
    StartMonotone(packets, |done|, |packets|);
  }

  /** What the packets put on the wire, in order. */
  ghost function Segments(packets: seq<Chain>): seq<Segment> {
    if packets == [] then [] else Segments(packets[..|packets| - 1]) + Sent(packets[|packets| - 1])
  }

  /** The device has sent the first `k` packets and stands at the next one. */
  ghost predicate DeviceAt(next: nat, gen: Bit, comp: nat, compGen: Bit, wire: seq<Segment>, packets: seq<Chain>,
                           k: nat, n: nat)
    requires n > 0
  {
    && k <= |packets|
    && next == Slot(Start(packets, k), n) && gen == Gen(Start(packets, k), n)
    && comp == Slot(k, n) && compGen == Gen(k, n)
    && wire == Segments(packets[..k])
  }

  lemma DeviceExtend(next: nat, gen: Bit, comp: nat, compGen: Bit, wire: seq<Segment>, packets: seq<Chain>, k: nat,
                     n: nat, c: Chain)
    requires n > 0 && DeviceAt(next, gen, comp, compGen, wire, packets, k, n)
    ensures DeviceAt(next, gen, comp, compGen, wire, packets + [c], k, n)
  {
    hide Slot, Gen, Segments;
    StartExtend(packets, c, k);
    assert (packets + [c])[..k] == packets[..k];
  }

  /** From ring `a` to ring `b` by single writes, all but the last unseen from where the driver has seen completions. */
  ghost predicate Handed(a: seq<Desc>, b: seq<Desc>, rings: seq<seq<Desc>>, log: seq<Desc>, packets: seq<Chain>,
                         seen: nat)
  {
    && rings != [] && Trace(a, rings) && Latest(a, rings) == b
    && seen <= |packets| && AllShow(rings[..|rings| - 1], log, Start(packets, seen))
  }

  class TxQueue {
    const txd: array<Desc>
    const comp: array<Comp>
    var gen: Bit
    var head: nat
    var tail: nat
    var compNext: nat
    var compGen: Bit
    var inflight: seq<(nat, Chain)>
    var processed: seq<Chain>

    // the device: where it reads and writes next, and what it has sent
    var devNext: nat
    var devGen: Bit
    var devComp: nat
    var devCompGen: Bit
    var wire: seq<Segment>

    ghost var log: seq<Desc>
    ghost var done: seq<Comp>
    ghost var packets: seq<Chain>
    ghost var seen: nat
    ghost var returned: seq<Chain>

    ghost predicate Valid()
      reads this, txd, comp
    {
      var n := txd.Length;
      && MIN_TX_NDESC <= n <= MAX_TX_NDESC && IsPow2(n)
      && Rings(txd[..], comp[..], log, done, packets, seen)
      && head == Slot(|log|, n) && gen == Gen(|log|, n)
      && tail == Slot(Start(packets, seen), n)
      && compNext == Slot(seen, n) && compGen == Gen(seen, n)
      && Held(inflight, packets, seen, n)
      && returned + processed == packets[..seen]
      && DeviceAt(devNext, devGen, devComp, devCompGen, wire, packets, |done|, n)
    }

    /** The descriptors in use: those of the chains whose completion is outstanding. */
    ghost function InUse(): int
      reads this
    {
      if seen <= |packets| then |log| - Start(packets, seen) else 0
    }

    constructor (ndesc: nat)
      requires MIN_TX_NDESC <= ndesc <= MAX_TX_NDESC && IsPow2(ndesc)
      ensures Valid() && fresh(txd) && fresh(comp) && txd.Length == ndesc
      ensures packets == [] && seen == 0 && returned == [] && done == []
    {
      var t := new Desc[ndesc](i => noDesc);
      var c := new Comp[ndesc](i => noComp);
      txd, comp := t, c;
      gen, head, tail := INIT_GEN, 0, 0;
      compNext, compGen := 0, INIT_GEN;
      inflight, processed := [], [];
      devNext, devGen, devComp, devCompGen, wire := 0, INIT_GEN, 0, INIT_GEN, [];
      log, done, packets, seen, returned := [], [], [], 0, [];
      new;
      FirstRound(0, ndesc);
      assert Rings(txd[..], comp[..], log, done, packets, seen);
    }

    /** The number of descriptors in use, computed around the ring. */
    method Len() returns (len: nat)
      requires Valid()
      ensures len == InUse()
    {
      hide Rings, Held, Slot, Gen, Start, DeviceAt, BitAnd, WrappingSub, IsPow2;
      InUseBounds();
      Distance(Start(packets, seen), |log|, txd.Length);
      len := BitAnd(WrappingSub(head, tail), txd.Length - 1);
    }

    lemma InUseBounds()
      requires Valid()
      ensures seen <= |done| <= |packets| && 0 <= InUse() < txd.Length
    {
      InFlight(txd[..], comp[..], log, done, packets, seen);
    }

    method CanEnqueue(segs: nat) returns (b: bool)
      requires Valid()
      ensures b <==> segs <= txd.Length - 1 - InUse()
    {
      var len := Len();
      b := txd.Length - len > segs;
    }

    /**
     Enqueue a chain. `rings` is every ring that memory goes through: until the last write the device
     finds, from wherever it stands, the packets it found before and nothing of this one; then it
     finds all of it. A chain without segments hands over a descriptor that was not written.
     */
    method Enqueue(chain: Chain) returns (r: Outcome, ghost rings: seq<seq<Desc>>)
      requires Valid()
      modifies this`head, this`gen, this`inflight, this`log, this`packets, txd
      ensures r.Panicked? <==> |chain.segments| > MAXSEGS
      ensures r.Accepted? <==> |chain.segments| <= MAXSEGS && |chain.segments| <= txd.Length - 1 - old(InUse())
      ensures !r.Accepted? ==> unchanged(this) && unchanged(txd)
      ensures r.Accepted? && chain.segments != [] ==> Valid() && packets == old(packets) + [chain]
      ensures r.Accepted? ==> Handed(old(txd[..]), txd[..], rings, old(log), old(packets), seen)
      ensures r.Accepted? && chain.segments != [] ==> Shows(txd[..], log, Start(old(packets), seen))
      ensures r.Accepted? && chain.segments == [] ==>
        packets == old(packets) && log == old(log) && Exposed(txd[..], log)
    {
      hide Rings, Held, Slot, Gen, Start, DeviceAt, IsPow2, Holds, Shows, Handed;
      if |chain.segments| > MAXSEGS {
        return Panicked, [];
      }
      var len := Len();
      if txd.Length - 1 - len < |chain.segments| {
        return Rejected, [];
      }
      rings := Insert(chain);
      return Accepted, rings;
    }

    /** Write the chain, hand its first descriptor over, and hold on to it. */
    method Insert(chain: Chain) returns (ghost rings: seq<seq<Desc>>)
      requires Valid() && |chain.segments| <= txd.Length - 1 - InUse()
      modifies this`head, this`gen, this`inflight, this`log, this`packets, txd
      ensures chain.segments != [] ==> Valid() && packets == old(packets) + [chain]
      ensures Handed(old(txd[..]), txd[..], rings, old(log), old(packets), seen)
      ensures chain.segments != [] ==> Shows(txd[..], log, Start(old(packets), seen))
      ensures chain.segments == [] ==> packets == old(packets) && log == old(log) && Exposed(txd[..], log)
    {
      hide Rings, Held, Slot, Gen, Start, DeviceAt, IsPow2, Holds, BitAnd, WrappingSub, Shows, Trace, Latest, AllShow;
      InUseBounds();
      RingsHold(txd[..], comp[..], log, done, packets, seen);
      ghost var before := txd[..];
      var last;
      head, gen, last, rings := PutChain(txd, head, gen, tail, chain, log, Start(packets, seen));
      if chain.segments == [] {
        EmptyExposes(before, comp[..], log, done, packets, seen, txd[..]);
      } else {
        Accept(before, comp[..], log, done, packets, seen, chain, txd[..]);
        HeldExtend(inflight, packets, seen, txd.Length, chain);
        DeviceExtend(devNext, devGen, devComp, devCompGen, wire, packets, |done|, txd.Length, chain);
        PrefixKept(packets, chain, seen);
        log := log + DescsOf(chain, |log|, txd.Length);
        packets := packets + [chain];
        RingsHold(txd[..], comp[..], log, done, packets, seen);
      }
      inflight := inflight + [(last, chain)];
    }

    /** The device sends the next packet, if there is one, and reports it. */
    method Transmit() returns (sent: bool)
      requires Valid()
      modifies this`devNext, this`devGen, this`devComp, this`devCompGen, this`wire, this`done, comp
      ensures Valid()
      ensures sent <==> |old(done)| < |packets|
      ensures sent ==> |done| == |old(done)| + 1 && wire == old(wire) + Sent(packets[|old(done)|])
      ensures !sent ==> unchanged(this) && unchanged(comp)
    {
      hide Rings, Held, Slot, Gen, Start, Segments, IsPow2, Holds, Tiled;
      var n := txd.Length;
      ghost var k := |done|;
      DeviceSees(txd[..], comp[..], log, done, packets, seen);
      if txd[devNext].gen != devGen {
        return false;
      }
      var segments, last;
      segments, last, devNext, devGen := ReadPacket(txd[..], devNext, devGen, log, packets, k);
      Complete(txd[..], comp[..], log, done, packets, seen);
      ghost var before := comp[..];
      comp[devComp] := Comp(devCompGen, last);
      assert comp[..] == before[Slot(k, n) := Comp(Gen(k, n), last)];
      done := done + [Comp(Gen(k, n), last)];
      Advance(k, n);
      devComp := devComp + 1;
      if devComp == n {
        devComp, devCompGen := 0, 1 - devCompGen;
      }
      wire := wire + segments;
      SegmentsNext(packets, k);
      return true;
    }

    /**
     Process one entry of the completion ring, if there is one: it always names the end of the chain
     at the front of the holding area.
     */
    method Reap() returns (reaped: bool)
      requires Valid()
      modifies this`tail, this`compNext, this`compGen, this`inflight, this`processed, this`seen
      ensures Valid()
      ensures reaped <==> old(seen) < |done|
      ensures reaped ==>
        seen == old(seen) + 1 && old(seen) < |packets| && processed == old(processed) + [packets[old(seen)]]
      ensures !reaped ==> unchanged(this)
    {
      hide Rings, Held, Slot, Gen, Start, DeviceAt, IsPow2;
      var n := txd.Length;
      CompletionSeen(txd[..], comp[..], log, done, packets, seen);
      var entry := comp[compNext];
      if entry.gen != compGen {
        return false;
      }
      Advance(seen, n);
      compNext := compNext + 1;
      if compNext == n {
        compNext, compGen := 0, 1 - compGen;
      }
      HeldFront(inflight, packets, seen, n);
      HeldPop(inflight, packets, seen, n);
      var (eopIdx, chain) := inflight[0];
      inflight := inflight[1..];
      assert eopIdx == entry.eopIdx;
      NextSlot(Start(packets, seen + 1) - 1, n);
      tail := (entry.eopIdx + 1) % n;
      PrefixNext(returned, processed, packets, seen);
      processed := processed + [chain];
      seen := seen + 1;
      return true;
    }

    /** Process completions: all there are, or at most one. */
    method CanDequeue(exact: bool) returns (count: nat)
      requires Valid()
      modifies this`tail, this`compNext, this`compGen, this`inflight, this`processed, this`seen
      ensures Valid() && old(seen) <= |done| <= |packets|
      ensures count == if exact || old(seen) == |done| then |done| - old(seen) else 1
      ensures seen == old(seen) + count && processed == old(processed) + packets[old(seen)..seen]
    {
      hide Rings, Held, DeviceAt, IsPow2;
      InUseBounds();
      count := 0;
      assert packets[old(seen)..seen] == [];
      while true
        invariant Valid() && old(seen) + count == seen <= |done| <= |packets|
        invariant processed == old(processed) + packets[old(seen)..seen]
        invariant exact || count == 0
        decreases |done| - seen
      {
        var reaped := Reap();
        if !reaped {
          InUseBounds();
          break;
        }
        assert packets[old(seen)..seen - 1] + [packets[seen - 1]] == packets[old(seen)..seen];
        InUseBounds();
        count := count + 1;
        if !exact {
          break;
        }
      }
    }

    /** The oldest chain that was sent and not yet returned. */
    method Dequeue() returns (r: Option<Chain>)
      requires Valid()
      modifies this`tail, this`compNext, this`compGen, this`inflight, this`processed, this`seen, this`returned
      ensures Valid()
      ensures r.Some? <==> |old(returned)| < |done|
      ensures r.Some? ==> |old(returned)| < |packets| && r.value == packets[|old(returned)|]
      ensures r.Some? ==> returned == old(returned) + [r.value]
      ensures r.None? ==> returned == old(returned)
    {
      hide Rings, Held, DeviceAt, IsPow2, Slot, Gen, Start;
      InUseBounds();
      if processed == [] {
        var count := CanDequeue(false);
      }
      InUseBounds();
      if processed == [] {
        TakeNone(returned, packets, seen);
        return None;
      }
      r := Some(processed[0]);
      TakeFront(returned, processed, packets, seen);
      returned := returned + [processed[0]];
      processed := processed[1..];
    }
  }

  lemma PrefixKept(packets: seq<Chain>, c: Chain, k: nat)
    requires k <= |packets|
    ensures (packets + [c])[..k] == packets[..k]
  {
  }

  lemma PrefixNext(a: seq<Chain>, b: seq<Chain>, packets: seq<Chain>, k: nat)
    requires k < |packets| && a + b == packets[..k]
    ensures a + (b + [packets[k]]) == packets[..k + 1]
  {
    assert a + (b + [packets[k]]) == (a + b) + [packets[k]];
  }

  lemma TakeFront(a: seq<Chain>, b: seq<Chain>, packets: seq<Chain>, k: nat)
    requires k <= |packets| && a + b == packets[..k] && b != []
    ensures (a + [b[0]]) + b[1..] == packets[..k]
    ensures |a| < k && b[0] == packets[|a|]
  {
    assert (a + b)[|a|] == b[0];
  }

  lemma TakeNone(a: seq<Chain>, packets: seq<Chain>, k: nat)
    requires k <= |packets| && a == packets[..k]
    ensures |a| == k
  {
  }

  lemma NextSlot(p: nat, n: nat)
    requires n > 0
    ensures (Slot(p, n) + 1) % n == Slot(p + 1, n)
  {
    Advance(p, n);
    if Slot(p, n) + 1 < n {
      DivUnique(n, 0, Slot(p, n) + 1);
    } else {
      DivUnique(n, 1, 0);
    }
  }

  lemma HeldFront(inflight: seq<(nat, Chain)>, packets: seq<Chain>, seen: nat, n: nat)
    requires n > 0 && Held(inflight, packets, seen, n) && seen < |packets|
    ensures inflight != []
  {
    hide Slot;
  }

  /** The driver finds an entry of its generation exactly when there is a completion it has not seen. */
  lemma CompletionSeen(ring: seq<Desc>, comp: seq<Comp>, log: seq<Desc>, done: seq<Comp>, packets: seq<Chain>,
                       seen: nat)
    requires Rings(ring, comp, log, done, packets, seen)
    ensures |ring| == |comp| && seen <= |done| <= |packets|
    ensures comp[Slot(seen, |comp|)].gen == Gen(seen, |comp|) <==> seen < |done|
    ensures seen < |done| ==>
      Start(packets, seen + 1) > 0 && comp[Slot(seen, |comp|)].eopIdx == Slot(Start(packets, seen + 1) - 1, |comp|)
    ensures seen < |done| ==> Rings(ring, comp, log, done, packets, seen + 1)
  {
    hide Slot, Gen, Holds;
    InFlight(ring, comp, log, done, packets, seen);
    VisibleComp(comp, done, packets, seen);
    if seen < |done| {
      assert CompAt(done, packets, seen, |ring|);
    }
  }

  lemma SegmentsNext(packets: seq<Chain>, k: nat)
    requires k < |packets|
    ensures Segments(packets[..k + 1]) == Segments(packets[..k]) + Sent(packets[k])
  {
    assert packets[..k + 1][..k] == packets[..k];
  }

  /** The device finds a descriptor of its generation exactly when there is a packet it has not sent. */
  lemma DeviceSees(ring: seq<Desc>, comp: seq<Comp>, log: seq<Desc>, done: seq<Comp>, packets: seq<Chain>, seen: nat)
    requires Rings(ring, comp, log, done, packets, seen)
    ensures |ring| == |comp| && |done| <= |packets| && Tiled(log, packets, |ring|)
    ensures Shows(ring, log, Start(packets, |done|))
    ensures ring[Slot(Start(packets, |done|), |ring|)].gen == Gen(Start(packets, |done|), |ring|) <==>
      |done| < |packets|
  {
    hide Slot, Gen, Holds;
    InFlight(ring, comp, log, done, packets, seen);
    AllVisible(ring, log, packets, Start(packets, |done|));
    assert ShowsAt(ring, log, Start(packets, |done|));
    if |done| < |packets| {
      PacketBounds(log, packets, |done|, |ring|);
    }
  }

  /**
   A device that stands at packet `k` finds, in any ring that shows the log, a descriptor of its
   generation exactly if there is a packet `k`; ReadPacket then takes that packet whole.
   */
  lemma DeviceDuring(ring: seq<Desc>, log: seq<Desc>, packets: seq<Chain>, seen: nat, k: nat)
    requires |ring| > 0 && Tiled(log, packets, |ring|) && seen <= k <= |packets| &&
      Shows(ring, log, Start(packets, seen))
    ensures Shows(ring, log, Start(packets, k))
    ensures ring[Slot(Start(packets, k), |ring|)].gen == Gen(Start(packets, k), |ring|) <==> k < |packets|
  {
    hide Slot, Gen;
    forall i | 0 <= i < |packets| ensures packets[i].segments != [] {
      assert PacketAt(log, packets, i, |ring|);
    }
    StartMonotone(packets, seen, k);
    StartMonotone(packets, k, |packets|);
    assert ShowsAt(ring, log, Start(packets, k));
  }

  /** The device takes one packet from any ring that shows it: descriptors of its generation up to its end. */
  method ReadPacket(ring: seq<Desc>, next: nat, gen: Bit, ghost log: seq<Desc>, ghost packets: seq<Chain>, ghost k: nat)
    returns (segments: seq<Segment>, last: nat, next': nat, gen': Bit)
    requires |ring| > 0 && Tiled(log, packets, |ring|) && k < |packets| && Shows(ring, log, Start(packets, k))
    requires next == Slot(Start(packets, k), |ring|) && gen == Gen(Start(packets, k), |ring|)
    ensures segments == Sent(packets[k])
    ensures Start(packets, k + 1) > 0 && last == Slot(Start(packets, k + 1) - 1, |ring|)
    ensures next' == Slot(Start(packets, k + 1), |ring|) && gen' == Gen(Start(packets, k + 1), |ring|)
  {
    hide Slot, Gen, Tiled;
    var n := |ring|;
    ghost var start := Start(packets, k);
    segments, last, next', gen' := [], next, next, gen;
    var eop := false;
    PacketBounds(log, packets, k, n);
    while !eop
      invariant |segments| <= |packets[k].segments| && segments == Sent(packets[k])[..|segments|]
      invariant next' == Slot(start + |segments|, n) && gen' == Gen(start + |segments|, n)
      invariant eop <==> |segments| == |packets[k].segments|
      invariant |segments| > 0 ==> last == Slot(start + |segments| - 1, n)
      decreases |packets[k].segments| - |segments|
    {
      LogGen(log, packets, n, k, start + |segments|);
      assert ShowsAt(ring, log, start + |segments|);
      assert ring[next'].gen == gen';
      Advance(start + |segments|, n);
      segments, eop, last := segments + [ring[next'].segment], ring[next'].eop, next';
      next' := next' + 1;
      if next' == n {
        next', gen' := 0, 1 - gen';
      }
    }
  }

  lemma PacketBounds(log: seq<Desc>, packets: seq<Chain>, k: nat, n: nat)
    requires n > 0 && Tiled(log, packets, n) && k < |packets|
    ensures packets[k].segments != [] && Start(packets, k + 1) <= |log|
  {
    assert PacketAt(log, packets, k, n);
  }

  /** The completion of packet `k` is written. */
  lemma Complete(ring: seq<Desc>, comp: seq<Comp>, log: seq<Desc>, done: seq<Comp>, packets: seq<Chain>, seen: nat)
    requires Rings(ring, comp, log, done, packets, seen) && |done| < |packets|
    ensures Start(packets, |done| + 1) > 0
    ensures var n := |ring|;
      var c := Comp(Gen(|done|, n), Slot(Start(packets, |done| + 1) - 1, n));
      Rings(ring, comp[Slot(|done|, n) := c], log, done + [c], packets, seen)
  {
    hide Slot, Gen, Holds, Tiled, Completed, Start;
    var n := |ring|;
    PacketBounds(log, packets, |done|, n);
    StartNext(packets, |done|);
    var c := Comp(Gen(|done|, n), Slot(Start(packets, |done| + 1) - 1, n));
    Write(comp, done, noComp, c);
    CompletedNext(done, packets, n, c);
  }

  lemma StartNext(packets: seq<Chain>, k: nat)
    requires k < |packets|
    ensures Start(packets, k + 1) == Start(packets, k) + |packets[k].segments|
  {
  }

  lemma CompletedNext(done: seq<Comp>, packets: seq<Chain>, n: nat, c: Comp)
    requires n > 0 && Completed(done, packets, n) && |done| < |packets| && Start(packets, |done| + 1) > 0
    requires c == Comp(Gen(|done|, n), Slot(Start(packets, |done| + 1) - 1, n))
    ensures Completed(done + [c], packets, n)
  {
    hide Slot, Gen;
    var done' := done + [c];
    forall k | 0 <= k < |done'| ensures CompAt(done', packets, k, n) {
      assert k < |done| ==> CompAt(done, packets, k, n);
    }
  }

  /**
   Write the chain and hand its first descriptor over; `last` is the slot of its last one. Every
   ring on the way shows the old log, and only the last one more.
   */
  method PutChain(txd: array<Desc>, head0: nat, gen0: Bit, tail: nat, chain: Chain, ghost log: seq<Desc>,
                  ghost from: nat)
    returns (head: nat, gen: Bit, last: nat, ghost rings: seq<seq<Desc>>)
    requires 0 < txd.Length <= MAX_TX_NDESC && IsPow2(txd.Length)
    requires head0 == Slot(|log|, txd.Length) && gen0 == Gen(|log|, txd.Length) && tail == Slot(from, txd.Length)
    requires Holds(txd[..], log, noDesc) && from <= |log| && |log| + |chain.segments| < from + txd.Length
    requires Shows(txd[..], log, from)
    modifies txd
    ensures head == Slot(|log| + |chain.segments|, txd.Length) && gen == Gen(|log| + |chain.segments|, txd.Length)
    ensures rings != [] && Trace(old(txd[..]), rings) && Latest(old(txd[..]), rings) == txd[..]
    ensures AllShow(rings[..|rings| - 1], log, from)
    ensures chain.segments != [] ==> Holds(txd[..], log + DescsOf(chain, |log|, txd.Length), noDesc)
    ensures chain.segments != [] ==> last == Slot(|log| + |chain.segments| - 1, txd.Length)
    ensures chain.segments == [] ==> txd[..] == Withheld(old(txd[..]), head0)
  {
    hide Slot, Gen, Holds, WrappingSub, IsPow2, Shows, Trace, Latest;
    ghost var shadow;
    head, gen, shadow, rings := WriteChain(txd, head0, gen0, tail, chain, log, from);
    ghost var written, before := txd[..], rings;
    rings := Put(txd, head0, txd[head0].(gen := 1 - txd[head0].gen), old(txd[..]), rings);
    assert rings[..|rings| - 1] == before;
    assert txd[..] == Withheld(written, head0);
    if chain.segments != [] {
      assert txd[..] == shadow;
      Previous(|log| + |chain.segments|, txd.Length);
    }
    last := WrappingSub(head, 1) % txd.Length;
  }

  lemma RingsHold(ring: seq<Desc>, comp: seq<Comp>, log: seq<Desc>, done: seq<Comp>, packets: seq<Chain>, seen: nat)
    requires Rings(ring, comp, log, done, packets, seen)
    ensures Holds(ring, log, noDesc) && seen <= |done| <= |packets| && Start(packets, seen) <= |log|
    ensures Shows(ring, log, Start(packets, seen))
  {
    hide Holds, Slot, Gen;
    InFlight(ring, comp, log, done, packets, seen);
    AllVisible(ring, log, packets, Start(packets, seen));
  }

  /** The next position carries the generation of its round although nothing was written there. */
  ghost predicate Exposed(ring: seq<Desc>, log: seq<Desc>) {
    |ring| > 0 && ring[Slot(|log|, |ring|)].gen == Gen(|log|, |ring|) && !Holds(ring, log, noDesc)
  }

  lemma EmptyExposes(ring: seq<Desc>, comp: seq<Comp>, log: seq<Desc>, done: seq<Comp>, packets: seq<Chain>,
                     seen: nat, ring': seq<Desc>)
    requires Rings(ring, comp, log, done, packets, seen)
    requires ring' == Withheld(ring, Slot(|log|, |ring|))
    ensures Exposed(ring', log)
  {
    var n := |ring|;
    Visible(ring, log, packets, |log|);
    if |log| < n {
      FirstRound(|log|, n);
    } else {
      Around(|log| - n, n);
    }
  }

  lemma Accept(ring: seq<Desc>, comp: seq<Comp>, log: seq<Desc>, done: seq<Comp>, packets: seq<Chain>, seen: nat,
               c: Chain, shadow: seq<Desc>)
    requires Rings(ring, comp, log, done, packets, seen) && c.segments != [] && |shadow| == |ring|
    requires Holds(shadow, log + DescsOf(c, |log|, |ring|), noDesc)
    requires |log| + |c.segments| - Start(packets, seen) < |ring|
    ensures Rings(shadow, comp, log + DescsOf(c, |log|, |ring|), done, packets + [c], seen)
    ensures Start(packets + [c], seen) == Start(packets, seen) && Start(packets + [c], |done|) == Start(packets, |done|)
    ensures Start(packets + [c], |packets| + 1) == |log| + |c.segments|
  {
    hide Holds, Slot, Gen;
    TileExtend(log, packets, c, |ring|);
    CompletedExtend(done, packets, c, |ring|);
    StartExtend(packets, c, seen);
    StartExtend(packets, c, |done|);
    StartExtend(packets, c, |packets|);
  }

  /** The slot before this one, by wrapping subtraction. */
  lemma Previous(p: nat, n: nat)
    requires n <= MAX_TX_NDESC && IsPow2(n) && 0 < n && 0 < p
    ensures WrappingSub(Slot(p, n), 1) % n == Slot(p - 1, n)
  {
    hide BitAnd, Pow2;
    var k: nat :| n == Pow2(k);
    SmallPow2(k);
    Pow2Of64();
    var c := Pow2Divides(64, k);
    var h: int := Slot(p, n);
    WrapShift(h - 1, WrappingSub(h, 1), 0x1_0000_0000_0000_0000, n, c);
    Advance(p - 1, n);
    PreviousSlot(h, n);
  }

  lemma PreviousSlot(h: nat, n: nat)
    requires h < n
    ensures (h - 1) % n == if h == 0 then n - 1 else h - 1
  {
    if h == 0 {
      ModShift(n - 1, -1, n);
    } else {
      DivUnique(n, 0, h - 1);
    }
  }

  /** Since `first` the device has been shown the log and nothing else. */
  ghost predicate Unseen(first: seq<Desc>, rings: seq<seq<Desc>>, now: seq<Desc>, log: seq<Desc>, from: nat) {
    Trace(first, rings) && Latest(first, rings) == now && AllShow(rings, log, from) && Shows(now, log, from)
  }

  lemma NothingYet(ring: seq<Desc>, log: seq<Desc>, from: nat)
    requires Shows(ring, log, from)
    ensures Unseen(ring, [], ring, log, from)
  {
  }

  /** One write behind the log. */
  method PutUnseen(txd: array<Desc>, at: nat, d: Desc,
                   ghost log: seq<Desc>, ghost from: nat, ghost k: nat, ghost first: seq<Desc>,
                   ghost rings: seq<seq<Desc>>)
    returns (ghost rings': seq<seq<Desc>>)
    requires txd.Length > 0 && Unseen(first, rings, txd[..], log, from)
    requires at == Slot(|log| + k, txd.Length) && |log| + k < from + txd.Length
    requires k == 0 ==> d.gen != Gen(|log|, txd.Length)
    modifies txd
    ensures txd[..] == old(txd[..])[at := d] && Unseen(first, rings', txd[..], log, from)
  {
    hide Slot, Gen, Shows, Trace, Latest;
    WriteUnseen(txd[..], log, from, k, d);
    rings' := Put(txd, at, d, first, rings);
  }

  lemma HeadUnseen(first: seq<Desc>, rings: seq<seq<Desc>>, ring: seq<Desc>, log: seq<Desc>, from: nat)
    requires Unseen(first, rings, ring, log, from)
    ensures |ring| > 0 && ring[Slot(|log|, |ring|)].gen != Gen(|log|, |ring|)
  {
    assert ShowsAt(ring, log, |log|);
  }

  /** The fields of one descriptor, at position `|log| + k`; the last one of a chain is marked afterwards. */
  method PutDesc(txd: array<Desc>, at: nat, segment: Segment, g: Bit, last: bool, compreq: Bit,
                 ghost log: seq<Desc>, ghost from: nat, ghost k: nat, ghost first: seq<Desc>,
                 ghost rings: seq<seq<Desc>>)
    returns (ghost rings': seq<seq<Desc>>)
    requires txd.Length > 0 && Unseen(first, rings, txd[..], log, from)
    requires at == Slot(|log| + k, txd.Length) && |log| + k < from + txd.Length
    requires k == 0 ==> g != Gen(|log|, txd.Length)
    modifies txd
    ensures txd[..] == old(txd[..])[at := Desc(Stored(segment), g, last, if last then compreq else 0)]
    ensures Unseen(first, rings', txd[..], log, from)
  {
    hide Slot, Gen, Unseen, Stored;
    HeadUnseen(first, rings, txd[..], log, from);
    rings' := PutUnseen(txd, at, txd[at].(segment := Stored(segment)), log, from, k, first, rings);
    rings' := PutUnseen(txd, at, txd[at].(gen := g), log, from, k, first, rings');
    rings' := PutUnseen(txd, at, txd[at].(eop := false, compreq := 0), log, from, k, first, rings');
    if last {
      rings' := PutUnseen(txd, at, txd[at].(eop := true, compreq := compreq), log, from, k, first, rings');
    }
  }

  /**
   The loop that writes a chain. The first descriptor gets the generation of the previous round,
   so that at no point the device can go beyond it. `shadow` is the ring with that bit set right.
   */
  method WriteChain(txd: array<Desc>, head0: nat, gen0: Bit, tail: nat, chain: Chain, ghost log: seq<Desc>,
                    ghost from: nat)
    returns (head: nat, gen: Bit, ghost shadow: seq<Desc>, ghost rings: seq<seq<Desc>>)
    requires 0 < txd.Length <= MAX_TX_NDESC && IsPow2(txd.Length)
    requires head0 == Slot(|log|, txd.Length) && gen0 == Gen(|log|, txd.Length) && tail == Slot(from, txd.Length)
    requires Holds(txd[..], log, noDesc) && from <= |log| && |log| + |chain.segments| < from + txd.Length
    requires Shows(txd[..], log, from)
    modifies txd
    ensures head == Slot(|log| + |chain.segments|, txd.Length) && gen == Gen(|log| + |chain.segments|, txd.Length)
    ensures |shadow| == txd.Length && Holds(shadow, log + DescsOf(chain, |log|, txd.Length), noDesc)
    ensures Writing(txd[..], shadow, head0, DescsOf(chain, |log|, txd.Length), |chain.segments|)
    ensures Unseen(old(txd[..]), rings, txd[..], log, from)
    ensures chain.segments == [] ==> txd[..] == old(txd[..])
  {
    hide Slot, Gen, Holds, BitAnd, WrappingSub, IsPow2, Shows, Unseen, Stored;
    var n := txd.Length;
    ghost var ds := DescsOf(chain, |log|, n);
    head, gen := head0, gen0;
    var g := 1 - gen;
    var k := 0;
    shadow, rings := txd[..], [];
    NothingYet(txd[..], log, from);
    assert log + ds[..0] == log;
    while k < |chain.segments|
      invariant 0 <= k <= |chain.segments|
      invariant head == Slot(|log| + k, n) && gen == Gen(|log| + k, n) && g == if k == 0 then 1 - gen else gen
      invariant |shadow| == n && Holds(shadow, log + ds[..k], noDesc) && Writing(txd[..], shadow, head0, ds, k)
      invariant Unseen(old(txd[..]), rings, txd[..], log, from)
      invariant k == 0 ==> txd[..] == old(txd[..])
    {
      Distance(from, |log| + k, n);
      assert n - BitAnd(WrappingSub(head, tail), n - 1) != 1;
      Next(shadow, log, ds, k, head0);
      Advance(|log| + k, n);
      var at, last := head, k == |chain.segments| - 1;
      WriteOne(txd[..], shadow, head0, ds, k, at, Desc(Stored(chain.segments[k]), g, ds[k].eop, ds[k].compreq));
      rings := PutDesc(txd, at, chain.segments[k], g, last, chain.flags % 2, log, from, k, old(txd[..]), rings);
      head := head + 1;
      if head == n {
        head := 0;
        gen := 1 - gen;
      }
      g := gen;
      shadow := shadow[at := ds[k]];
      k := k + 1;
    }
    assert ds[..k] == ds;
  }

  /** Until the chain is complete its first descriptor is withheld from the device. */
  ghost predicate Writing(ring: seq<Desc>, shadow: seq<Desc>, first: nat, ds: seq<Desc>, k: nat) {
    if k == 0 then ring == shadow
    else first < |shadow| && k <= |ds| && shadow[first] == ds[0] && ring == Withheld(shadow, first)
  }

  lemma WriteOne(ring: seq<Desc>, shadow: seq<Desc>, first: nat, ds: seq<Desc>, k: nat, at: nat, d: Desc)
    requires Writing(ring, shadow, first, ds, k) && k < |ds| && at < |ring| && |ring| == |shadow| && first < |ring|
    requires (k == 0 ==> at == first) && (k > 0 ==> at != first)
    requires d == ds[k].(gen := if k == 0 then 1 - ds[0].gen else ds[k].gen)
    ensures Writing(ring[at := d], shadow[at := ds[k]], first, ds, k + 1)
  {
  }

  /** The ring with the generation of one descriptor turned around. */
  function Withheld(ring: seq<Desc>, j: nat): (r: seq<Desc>)
    requires j < |ring|
    ensures |r| == |ring|
  {
    ring[j := ring[j].(gen := 1 - ring[j].gen)]
  }

  /** Writing the next descriptor of a chain shorter than the ring leaves the first one in place. */
  lemma Next(ring: seq<Desc>, log: seq<Desc>, ds: seq<Desc>, k: nat, first: nat)
    requires |ring| > 0 && k < |ds| <= |ring| && Holds(ring, log + ds[..k], noDesc) && first == Slot(|log|, |ring|)
    ensures Holds(ring[Slot(|log| + k, |ring|) := ds[k]], log + ds[..k + 1], noDesc)
    ensures k > 0 ==> Slot(|log| + k, |ring|) != first
  {
    Write(ring, log + ds[..k], noDesc, ds[k]);
    assert log + ds[..k] + [ds[k]] == log + ds[..k + 1];
    if k > 0 {
      SlotsApart(|log|, |log| + k, |ring|);
    }
  }

  /** Wrapping subtraction and mask compute the distance around the ring. */
  lemma Distance(p: nat, q: nat, n: nat)
    requires n <= MAX_TX_NDESC && IsPow2(n) && n > 0 && p <= q < p + n
    ensures BitAnd(WrappingSub(Slot(q, n), Slot(p, n)), n - 1) == q - p
  {
    hide Slot, BitAnd, WrappingSub, Pow2;
    var k: nat :| n == Pow2(k);
    SmallPow2(k);
    RingDistance(Slot(q, n), Slot(p, n), k);
    SlotDistance(p, q, n);
  }

  lemma SmallPow2(k: nat)
    requires Pow2(k) <= MAX_TX_NDESC
    ensures k <= 64
  {
    if k > 64 {
      Pow2Of64();
      var c := Pow2Divides(k, 64);
    }
  }
}
