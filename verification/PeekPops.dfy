// Peeking composed with popping: the bytes counted on the pending chains are those of the heads that the
// queue's own pops return next.

module PeekPops {
  import opened Words
  import opened Regions
  import Chains
  import ChainMeaning
  import opened Peek
  import Queue
  import opened QueueProofs

  /** The available ring of a queue, unchanged while it is read. */
  function RingOf(q: Queue.State): Avail
    requires q.Shaped()
  {
    Avail(_ => q.availIdx, (_, i: nat) => if i < q.num then q.avail[i] else 0)
  }

  /** The published entries not yet fetched. */
  function PendingHeads(f: Fifo): seq<nat>
    requires f.fetched <= |f.published|
  {
    seq(|f.published| - f.fetched, i requires 0 <= i < |f.published| - f.fetched => f.published[f.fetched + i])
  }

  /** What a reader of the ring sees from `last_avail_idx` on is what is pending. */
  lemma RingShowsPending(q: Queue.State, f: Fifo)
    requires Refines(q, f)
    ensures q.Shaped() && f.fetched <= |f.published| && 0 < q.num && |PendingHeads(f)| <= q.num
    ensures Shows(RingOf(q), q.num, q.lastAvail, PendingHeads(f))
  {
    hide Slot, RingSize, Low16, Low32, UsedAgrees, SignalAgrees;
    Bounds(q, f);
    var num := RingLimits(q);
    Low16Difference(f.fetched, |f.published|);
    forall p: nat | q.lastAvail <= p < q.lastAvail + |PendingHeads(f)|
      ensures q.avail[Slot(p, q.num)] == PendingHeads(f)[p - q.lastAvail]
    {
      var j := p - q.lastAvail;
      FillSlot(q.num, f.fetched, j);
      Low32Small(p);
    }
  }

  lemma {:induction false} LastSeenOnSteadyRing(regions: seq<Region>, avail: Avail, mems: nat -> Chains.Memory,
                                                num: nat,
                                                k: nat, idx: nat, bufs: nat, sum: Totals, l: Limits, c: U16)
    requires 0 < num && bufs <= num && forall j: nat :: avail.idx(j) == c
    ensures LastSeen(regions, avail, mems, num, k, idx, bufs, sum, l) == c
    decreases num - bufs
  {
    hide PeekHead, Slot, Low16;
    var head := avail.ring(k, Slot(idx, num));
    var r := PeekHead(regions, mems(k), head, num, bufs, sum, l);
    if r.Some? && r.value.Ended? {
      LastSeenOnSteadyRing(regions, avail, mems, num, k + 1, idx + 1, r.value.bufs, r.value.t, l, c);
    }
  }

  /** On the queue's own fields, counting the pending bytes is the operation `CountBytes` of its runs. */
  lemma PeekIsSurvey(regions: seq<Region>, mems: nat -> Chains.Memory, q: Queue.State, l: Limits)
    requires q.Shaped() && q.Usable()
    ensures 0 < q.num
    ensures Queue.Survey(q)
         == q.(shadowAvail := LastSeen(regions, RingOf(q), mems, q.num, 0, q.lastAvail, 0, Totals(0, 0), l))
  {
    hide LastSeen;
    var num := RingLimits(q);
    LastSeenOnSteadyRing(regions, RingOf(q), mems, num, 0, q.lastAvail, 0, Totals(0, 0), l, q.availIdx);
  }

  lemma RingLimits(q: Queue.State) returns (num: nat)
    requires q.Shaped()
    ensures num == q.num && 0 < num <= 0x8000
  {
    num := q.num;
  }

  /** On a queue in step with its FIFO whose pending chains are well formed, the totals are the summed iovec
      lengths of exactly the elements that popping the whole ring returns, one for each pending head. */
  lemma PeekPredictsPops(regions: seq<Region>, mems: nat -> Chains.Memory, mem: Chains.Memory, q: Queue.State, f: Fifo,
                         l: Limits, paths: seq<seq<nat>>)
    requires Refines(q, f) && Disjoint(regions) && ChainMeaning.Frozen(mem) && forall r: nat :: mems(r) == mem
    requires WellFormed(regions, mem, q.num, PendingHeads(f), paths, 0)
    requires MappedIn(regions, mem, q.num, PendingHeads(f)) < WORD32
    requires MappedOut(regions, mem, q.num, PendingHeads(f)) < WORD32
    requires l.inBytes > MappedIn(regions, mem, q.num, PendingHeads(f))
          || l.outBytes > MappedOut(regions, mem, q.num, PendingHeads(f))
    ensures var heads := PendingHeads(f);
            && PopMany(q, |heads|).1 == seq(|heads|, i requires 0 <= i < |heads| => Some(f.published[f.fetched + i]))
            && PeekFrom(regions, RingOf(q), mems, q.num, 0, q.lastAvail, 0, Totals(0, 0), l)
               == Counted(Totals(MappedIn(regions, mem, q.num, heads), MappedOut(regions, mem, q.num, heads)))
  {
    hide Refines, WellFormed, MappedIn, MappedOut, PeekFrom, Shows, Disjoint, ChainMeaning.Frozen, PopMany;
    RingShowsPending(q, f);
    var heads := PendingHeads(f);
    PopManyInOrder(q, f, |heads|);
    PeekEqualsPop(regions, RingOf(q), mems, mem, q.num, q.lastAvail, l, heads, paths);
  }
}
