// What the queue operations guarantee over whole runs: the rings refine an unbounded FIFO, the
// interrupt decision is exact, completions may be batched, and no request is unaccounted for.

module QueueProofs {
  import opened Words
  import opened Queue
  import Inflight

  /** The queue without its bounds: everything ever published, how many of it was fetched, how far the
      cached index has seen, every completion in order, the completions filled in but not yet
      flushed, the completion count at the last interrupt decision, the publication the driver is asked
      to kick for, and whether the device wants kicks. */
  datatype Fifo = Fifo(
    published: seq<U16>, fetched: nat, seen: nat,
    done: seq<UsedElem>, staged: seq<UsedElem>, decided: Option<nat>,
    asked: nat, listening: bool)

  /** The free-running counters, related to their 16-bit words. */
  ghost predicate CountersAgree(q: State, f: Fifo) {
    && |f.done| <= f.fetched <= f.seen <= |f.published| <= |f.done| + q.num
    && q.availIdx == Low16(|f.published|)
    && q.lastAvail == Low16(f.fetched)
    && q.shadowAvail == Low16(f.seen)
    && q.usedIdx == q.usedMem == Low16(|f.done|)
    && q.inuse == f.fetched - |f.done|
    && |f.staged| <= q.inuse
  }

  /** The last `num` publications are in the slots of their counters. */
  ghost predicate AvailAgrees(q: State, f: Fifo)
    requires q.Shaped()
  {
    && (forall p :: 0 <= p < |f.published| ==> f.published[p] < q.num)
    && (forall p :: 0 <= p < |f.published| && |f.published| <= p + q.num
          ==> q.avail[Slot(p, q.num)] == f.published[p])
  }

  /** Completion m is in slot `m % num` until completion `m + num` is filled in. */
  ghost predicate UsedAgrees(q: State, f: Fifo)
    requires q.Shaped()
  {
    forall m :: 0 <= m < |f.done + f.staged| && |f.done + f.staged| <= m + q.num
      ==> q.used[Slot(m, q.num)] == (f.done + f.staged)[m]
  }

  /** The decision is remembered exactly while fewer than 2^15 completions came after it. */
  ghost predicate SignalAgrees(q: State, f: Fifo) {
    && (f.decided.Some? ==> f.decided.value <= |f.done|)
    && (q.signalledValid <==> f.decided.Some? && |f.done| - f.decided.value < SIGNAL_LIMIT)
    && (q.signalledValid ==> q.signalledUsed == Low16(f.decided.value))
  }

  ghost predicate Refines(q: State, f: Fifo) {
    && q.Shaped() && q.Usable() && q.resubmit == []
    && CountersAgree(q, f) && AvailAgrees(q, f) && UsedAgrees(q, f) && SignalAgrees(q, f)
  }

  // ---- Operations and what the unbounded queue does for them -----------------------------------

  /** `Publish` and `WriteUsedEvent` are the driver's, the others the device's. */
  datatype Op =
    | Publish(head: U16)
    | WriteUsedEvent(event: U16)
    | Peek
    | CountBytes
    | Take
    | TakeUnallocated
    | Untake
    | RewindBy(n: U32)
    | FillNext(elem: UsedElem)
    | FlushAll
    | Complete(elem: UsedElem)
    | Interrupt
    | SwitchNotification(on: bool)

  datatype Reply = Quiet | Fetched(head: Option<U16>) | Answer(yes: bool)

  /** The driver stores an entry, then the index. */
  function DriverPublish(q: State, head: U16): (r: State)
    requires q.Shaped()
    ensures q.Keeps(r)
  {
    q.(avail := q.avail[Slot(q.availIdx, q.num) := head], availIdx := Low16(q.availIdx + 1))
  }

  /** The operation on the queue of the source. */
  function Run(q: State, f: Fifo, op: Op): (r: (State, Reply))
    requires q.Shaped()
    ensures q.Keeps(r.0) && r.0.Shaped()
  {
    match op
    case Publish(h) => (DriverPublish(q, h), Quiet)
    case WriteUsedEvent(e) => (q.(avail := q.avail[q.num := e]), Quiet)
    case Peek => var (q', b) := Empty(q); (q', Answer(b))
    case CountBytes => (Survey(q), Quiet)
    case Take => var (q', r) := Pop(q, Mapped); (q', Fetched(r))
    case TakeUnallocated => var (q', r) := Pop(q, NoMemory); (q', Fetched(r))
    case Untake => (Unpop(q), Quiet)
    case RewindBy(n) => var (q', b) := Rewind(q, n); (q', Answer(b))
    case FillNext(e) => (Fill(q, e, Low32(|f.staged|), true), Quiet)
    case FlushAll => (Flush(q, Low32(|f.staged|)), Quiet)
    case Complete(e) => (Push(q, e, true), Quiet)
    case Interrupt => var (q', b) := Notify(q); (q', Answer(b))
    case SwitchNotification(on) => (SetNotification(q, on), Quiet)
  }

  ghost predicate MustInterrupt(q: State, f: Fifo)
    requires q.Shaped()
  {
    if q.notifyOnEmpty && |f.done| == f.fetched == |f.published| then true
    else if !q.eventIdx then !q.noInterrupt
    else (f.decided.None? || |f.done| - f.decided.value >= SIGNAL_LIMIT
          || InWindow(q.avail[q.num], f.decided.value, |f.done|))
  }

  ghost predicate SkipsDecision(q: State, f: Fifo) {
    (q.notifyOnEmpty && |f.done| == f.fetched == |f.published|) || !q.eventIdx
  }

  /** The same operation on the unbounded queue. Only the cache `seen` depends on `q`. */
  ghost function Ideal(q: State, f: Fifo, op: Op): (r: (Fifo, Reply))
    requires q.Shaped()
  {
    match op
    case Publish(h) => (f.(published := f.published + [h]), Quiet)
    case WriteUsedEvent(_) => (f, Quiet)
    case Peek =>
      (f.(seen := if f.seen == f.fetched then |f.published| else f.seen),
       Answer(f.fetched == |f.published|))
    case CountBytes => (f.(seen := |f.published|), Quiet)
    case Take =>
      var g := f.(seen := if f.seen == f.fetched then |f.published| else f.seen);
      if f.fetched >= |f.published| then (g, Fetched(None))
      else
        (g.(fetched := f.fetched + 1, asked := if f.listening then f.fetched + 1 else f.asked),
         Fetched(Some(f.published[f.fetched])))
    case TakeUnallocated =>
      (f.(seen := if f.seen == f.fetched then |f.published| else f.seen), Fetched(None))
    case Untake => if f.fetched > 0 then (f.(fetched := f.fetched - 1), Quiet) else (f, Quiet)
    case RewindBy(n) =>
      if n > f.fetched - |f.done| then (f, Answer(false))
      else if f.fetched >= n then (f.(fetched := f.fetched - n), Answer(true)) else (f, Answer(true))
    case FillNext(e) => (f.(staged := f.staged + [e]), Quiet)
    case FlushAll => (f.(done := f.done + f.staged, staged := []), Quiet)
    case Complete(e) => (f.(done := f.done + [e]), Quiet)
    case Interrupt =>
      var g := if q.notifyOnEmpty && |f.done| == f.fetched == f.seen
               then f.(seen := |f.published|) else f;
      (if SkipsDecision(q, f) then g else g.(decided := Some(|f.done|)), Answer(MustInterrupt(q, f)))
    case SwitchNotification(on) =>
      (f.(seen := if q.eventIdx then |f.published| else f.seen,
          asked := if on then |f.published| else f.asked, listening := on), Quiet)
  }

  /** A pop that finds an entry and cannot allocate its element; on an empty queue nothing is allocated. */
  predicate FailsToAllocate(f: Fifo, op: Op) {
    op.TakeUnallocated? && f.fetched != |f.published|
  }

  /** What the two sides are held to: the driver keeps at most `num` entries outstanding and names
      descriptors that exist; the device completes no more than it holds. */
  ghost predicate Careful(q: State, f: Fifo, op: Op) {
    match op
    case Publish(h) => h < q.num && |f.published| < |f.done| + q.num
    case Untake => |f.done| + |f.staged| < f.fetched
    case RewindBy(n) => n <= f.fetched - |f.done| ==> |f.done| + |f.staged| + n <= f.fetched
    case FillNext(_) => |f.done| + |f.staged| < f.fetched
    case Complete(_) => f.staged == [] && |f.done| < f.fetched
    case _ => true
  }

  /** And allocation succeeds. */
  ghost predicate Disciplined(q: State, f: Fifo, op: Op) {
    Careful(q, f, op) && !FailsToAllocate(f, op)
  }

  // ---- Interrupt decision ----------------------------------------------------------------------

  /** The 16-bit comparison in `vu_queue_flush` keeps the decision exactly while the true distance
      stays below 2^15, for every count a 16-bit index can express. */
  lemma FlushKeepsDecision(distance: nat, count: nat, signalled: U16, used: U16)
    requires distance < SIGNAL_LIMIT && count < WORD16
    requires used == Low16(signalled + distance)
    ensures var next := Low16(used + count);
            !(Signed16(Low16(next - signalled)) < Low16(next - used)) <==> distance + count < SIGNAL_LIMIT
  {
    hide Low16;
    Low16Step(signalled + distance, count);
    CountBack(used, count);
    CountBack(signalled, distance + count);
    WordOf(distance + count);
    WordOf(count);
  }

  lemma CountBack(from: U16, k: nat)
    ensures Low16(Low16(from + k) - from) == Low16(k)
  {
  }

  lemma WordOf(k: nat)
    ensures k < WORD16 ==> Low16(k) == k
    ensures k < SIGNAL_LIMIT + WORD16 && k >= WORD16 ==> Low16(k) == k - WORD16
  {
  }

  lemma FlushSignal(q: State, f: Fifo, add: seq<UsedElem>)
    requires q.Usable() && SignalAgrees(q, f) && q.usedIdx == Low16(|f.done|)
    requires |add| < WORD16
    ensures SignalAgrees(Flush(q, |add|), f.(done := f.done + add, staged := []))
  {
    hide Low16, Signed16;
    Low32Small(|add|);
    if q.signalledValid {
      var d := |f.done| - f.decided.value;
      Low16Step(f.decided.value, d);
      FlushKeepsDecision(d, |add|, q.signalledUsed, q.usedIdx);
    }
  }

  // ---- One lemma per operation: the queue follows the unbounded one ------------------------------

  lemma UsedDepends(q: State, q': State, f: Fifo, f': Fifo)
    requires q.Shaped() && q'.Shaped() && q.num == q'.num && q.used == q'.used
    requires f.done + f.staged == f'.done + f'.staged
    ensures UsedAgrees(q, f) == UsedAgrees(q', f')
  {
  }

  lemma AvailDepends(q: State, q': State, f: Fifo, f': Fifo)
    requires q.Shaped() && q'.Shaped() && q.num == q'.num && q.avail[..q.num] == q'.avail[..q.num]
    requires f.published == f'.published
    ensures AvailAgrees(q, f) == AvailAgrees(q', f')
  {
    hide Slot, RingSize;
    forall i | 0 <= i < q.num ensures q.avail[i] == q'.avail[i] {
      assert q.avail[..q.num][i] == q'.avail[..q.num][i];
    }
  }

  lemma PublishSlots(q: State, f: Fifo, head: U16)
    requires q.Shaped() && AvailAgrees(q, f) && Disciplined(q, f, Publish(head))
    requires q.availIdx == Low16(|f.published|)
    ensures AvailAgrees(DriverPublish(q, head), f.(published := f.published + [head]))
  {
    hide Low16, Slot, RingSize;
    var n := |f.published|;
    SlotOfWrapped(n, q.num);
    var q' := DriverPublish(q, head);
    var f' := f.(published := f.published + [head]);
    forall p | 0 <= p < |f'.published| && |f'.published| <= p + q.num
      ensures q'.avail[Slot(p, q.num)] == f'.published[p]
    {
      if p < n {
        SlotsDistinct(p, n, q.num);
      }
    }
  }

  lemma PublishRefines(q: State, f: Fifo, head: U16)
    requires Refines(q, f) && Disciplined(q, f, Publish(head))
    ensures Refines(DriverPublish(q, head), f.(published := f.published + [head]))
  {
    hide Slot, RingSize, AvailAgrees, UsedAgrees, Low16;
    Low16Step(|f.published|, 1);
    PublishSlots(q, f, head);
    UsedDepends(q, DriverPublish(q, head), f, f.(published := f.published + [head]));
  }

  lemma EmptyRefines(q: State, f: Fifo)
    requires Refines(q, f)
    ensures Empty(q).1 <==> f.fetched == |f.published|
    ensures Refines(Empty(q).0, f.(seen := if f.seen == f.fetched then |f.published| else f.seen))
  {
    if q.shadowAvail == q.lastAvail {
      Low16Injective(f.fetched, f.seen);
      if q.availIdx == q.lastAvail {
        Low16Injective(f.fetched, |f.published|);
      }
    }
  }

  /** Counting the pending bytes only moves the cache, and no further than what is published. */
  lemma SurveyRefines(q: State, f: Fifo)
    requires Refines(q, f)
    ensures Refines(Survey(q), f.(seen := |f.published|))
  {
    hide Slot, RingSize, AvailAgrees, UsedAgrees, Low16;
    AvailDepends(q, Survey(q), f, f.(seen := |f.published|));
    UsedDepends(q, Survey(q), f, f.(seen := |f.published|));
  }

  lemma TakeNextRefines(q: State, f: Fifo)
    requires Refines(q, f) && f.fetched < f.seen
    ensures TakeNext(q, Mapped).1 == Some(f.published[f.fetched])
    ensures Refines(TakeNext(q, Mapped).0, f.(fetched := f.fetched + 1))
  {
    hide Slot, RingSize, UsedAgrees, Low16;
    SlotOfWrapped(f.fetched, q.num);
    Low16Step(f.fetched, 1);
    var f' := f.(fetched := f.fetched + 1);
    assert UsedAgrees(q, f) == UsedAgrees(TakeNext(q, Mapped).0, f') by {
      UsedDepends(q, TakeNext(q, Mapped).0, f, f');
    }
  }

  /** A disciplined driver never makes `vu_queue_pop` panic, and the head it returns is the oldest
      published entry not yet fetched. */
  lemma PopRefines(q: State, f: Fifo)
    requires Refines(q, f)
    ensures Refines(Pop(q, Mapped).0, Ideal(q, f, Take).0)
    ensures Fetched(Pop(q, Mapped).1) == Ideal(q, f, Take).1
  {
    hide Slot, RingSize, UsedAgrees, Low16, Low32, Empty, SetAvailEvent;
    EmptyRefines(q, f);
    if f.fetched < |f.published| {
      TakeNextRefines(Empty(q).0, f.(seen := if f.seen == f.fetched then |f.published| else f.seen));
      AskedApart(Pop(q, Mapped).0, Ideal(q, f, Take).0, f.asked);
    }
  }

  /** What the driver is asked is not part of the refinement. */
  lemma AskedApart(q: State, f: Fifo, asked: nat)
    requires Refines(q, f.(asked := asked))
    ensures Refines(q, f)
  {
    hide RingSize, Slot, AvailAgrees, UsedAgrees, SignalAgrees;
    AvailDepends(q, q, f.(asked := asked), f);
    UsedDepends(q, q, f.(asked := asked), f);
    SignalDepends(q, f.(asked := asked), f);
  }

  lemma SignalDepends(q: State, f: Fifo, f': Fifo)
    requires f'.done == f.done && f'.decided == f.decided
    ensures SignalAgrees(q, f) == SignalAgrees(q, f')
  {
  }

  /** A pop that cannot allocate stays in step only when there was nothing to pop; otherwise it passes over
      the oldest entry without returning it. */
  lemma FailureSkips(q: State, f: Fifo)
    requires Refines(q, f)
    ensures Fetched(Pop(q, NoMemory).1) == Ideal(q, f, TakeUnallocated).1
    ensures Refines(Pop(q, NoMemory).0, Ideal(q, f, TakeUnallocated).0) <==> f.fetched == |f.published|
    ensures f.fetched < |f.published| ==> Pop(q, NoMemory).0.lastAvail == Low16(f.fetched + 1)
  {
    hide Slot, RingSize, UsedAgrees, AvailAgrees, SignalAgrees, Low16, Low32, Empty, SetAvailEvent;
    EmptyRefines(q, f);
    EmptyOnlyCaches(q);
    if f.fetched < |f.published| {
      var q1, f1 := Empty(q).0, f.(seen := if f.seen == f.fetched then |f.published| else f.seen);
      TakeNextRefines(q1, f1);
      SkippedIndex(q1, f1);
      Unequal(f.fetched);
    }
  }

  lemma SkippedIndex(q: State, f: Fifo)
    requires Refines(q, f) && f.fetched < f.seen
    ensures TakeNext(q, NoMemory).0.lastAvail == Low16(f.fetched + 1) && TakeNext(q, NoMemory).1 == None
  {
    hide Slot, RingSize, UsedAgrees, Low16;
    SlotOfWrapped(f.fetched, q.num);
    Low16Step(f.fetched, 1);
  }

  lemma Unequal(n: nat)
    ensures Low16(n) != Low16(n + 1)
  {
  }

  lemma FillRefines(q: State, f: Fifo, e: UsedElem)
    requires Refines(q, f) && Disciplined(q, f, FillNext(e))
    ensures Refines(Fill(q, e, |f.staged|, true), f.(staged := f.staged + [e]))
  {
    var c := f.done + f.staged;
    var n := |c|;
    SlotOfWrapped(|f.done|, q.num);
    FillSlot(q.num, |f.done|, |f.staged|);
    var q' := Fill(q, e, |f.staged|, true);
    var c' := f.done + (f.staged + [e]);
    assert c' == c + [e];
    forall m | 0 <= m < |c'| && |c'| <= m + q.num
      ensures q'.used[Slot(m, q.num)] == c'[m]
    {
      if m < n {
        SlotsDistinct(m, n, q.num);
      }
    }
  }

  /** The slot `vu_queue_fill` computes from the 16-bit index and the offset. */
  lemma FillSlot(num: nat, done: nat, offset: nat)
    requires RingSize(num) && offset < WORD16
    ensures Slot(Low32(offset + Low16(done)), num) == Slot(done + offset, num)
  {
    var k, w := done / WORD16, WORD16 / num;
    assert done + offset == WORD16 * k + (offset + Low16(done));
    RegroupProduct(num, w, k);
    MulMod(w * k, num, offset + Low16(done));
  }

  lemma RegroupProduct(num: nat, w: nat, k: nat)
    requires WORD16 == num * w
    ensures WORD16 * k == num * (w * k)
  {
    assert num * w * k == num * (w * k);
  }

  lemma FlushRefines(q: State, f: Fifo)
    requires Refines(q, f)
    ensures Refines(Flush(q, |f.staged|), f.(done := f.done + f.staged, staged := []))
  {
    hide Slot, RingSize, SignalAgrees, Signed16, Low16, UsedAgrees, AvailAgrees;
    FlushSignal(q, f, f.staged);
    Low16Step(|f.done|, |f.staged|);
    var q', f' := Flush(q, |f.staged|), f.(done := f.done + f.staged, staged := []);
    UsedDepends(q, q', f, f');
    AvailDepends(q, q', f, f');
  }

  lemma NotifyAnswers(q: State, f: Fifo)
    requires Refines(q, f)
    ensures Notify(q).1 == MustInterrupt(q, f)
  {
    hide RingSize, Slot, Low16, AvailAgrees, UsedAgrees, InWindow, NeedEvent;
    EmptyRefines(q, f);
    CacheNotAhead(q, f);
    if q.signalledValid {
      NeedEventExact(q.avail[q.num], f.decided.value, |f.done|);
    }
  }

  lemma NotifyDecides(q: State, f: Fifo)
    requires Refines(q, f)
    ensures Refines(Notify(q).0, Ideal(q, f, Interrupt).0)
  {
    hide RingSize, Slot, Low16, AvailAgrees, UsedAgrees, NeedEvent, MustInterrupt;
    EmptyRefines(q, f);
    CacheNotAhead(q, f);
    var q', f' := Notify(q).0, Ideal(q, f, Interrupt).0;
    AvailDepends(q, q', f, f');
    UsedDepends(q, q', f, f');
  }

  lemma NotifyRefines(q: State, f: Fifo)
    requires Refines(q, f)
    ensures Refines(Notify(q).0, Ideal(q, f, Interrupt).0)
    ensures Answer(Notify(q).1) == Ideal(q, f, Interrupt).1
  {
    hide RingSize, Notify, Refines, MustInterrupt;
    NotifyAnswers(q, f);
    NotifyDecides(q, f);
  }

  /** With nothing in flight, the cached index equals the fetched one only when the counters do. */
  lemma CacheNotAhead(q: State, f: Fifo)
    requires Refines(q, f)
    ensures q.shadowAvail == q.lastAvail <==> f.seen == f.fetched
    ensures q.availIdx == q.lastAvail <==> |f.published| == f.fetched
  {
    hide RingSize, Slot, AvailAgrees, UsedAgrees, SignalAgrees;
    if q.shadowAvail == q.lastAvail {
      Low16Injective(f.fetched, f.seen);
    }
    if q.availIdx == q.lastAvail {
      Low16Injective(f.fetched, |f.published|);
    }
  }

  lemma EventRefines(q: State, f: Fifo, event: U16)
    requires Refines(q, f)
    ensures Refines(q.(avail := q.avail[q.num := event]), f)
  {
    hide Slot, RingSize, AvailAgrees, UsedAgrees, Low16;
    var q' := q.(avail := q.avail[q.num := event]);
    AvailDepends(q, q', f, f);
    UsedDepends(q, q', f, f);
  }

  lemma TakeBackRefines(q: State, f: Fifo, n: nat)
    requires Refines(q, f) && |f.done| + |f.staged| + n <= f.fetched
    ensures Refines(q.(lastAvail := Low16(q.lastAvail - n), inuse := q.inuse - n), f.(fetched := f.fetched - n))
  {
    hide Slot, RingSize, AvailAgrees, UsedAgrees, Low16;
    Low16Step(f.fetched, 0 - n);
    var q', f' := q.(lastAvail := Low16(q.lastAvail - n), inuse := q.inuse - n), f.(fetched := f.fetched - n);
    AvailDepends(q, q', f, f');
    UsedDepends(q, q', f, f');
  }

  lemma UntakeRefines(q: State, f: Fifo)
    requires Refines(q, f) && Disciplined(q, f, Untake)
    ensures Refines(Unpop(q), f.(fetched := f.fetched - 1))
  {
    hide RingSize, Slot, Low16, AvailAgrees, UsedAgrees, SignalAgrees;
    TakeBackRefines(q, f, 1);
    SmallRing(q);
    Low32Small(q.inuse - 1);
  }

  lemma RewindRefines(q: State, f: Fifo, n: U32)
    requires Refines(q, f) && Disciplined(q, f, RewindBy(n))
    ensures Refines(Rewind(q, n).0, Ideal(q, f, RewindBy(n)).0) && Rewind(q, n).1 == (n <= f.fetched - |f.done|)
  {
    hide RingSize, Slot, Low16, AvailAgrees, UsedAgrees, SignalAgrees;
    if n <= f.fetched - |f.done| {
      TakeBackRefines(q, f, n);
    }
  }

  lemma CompleteRefines(q: State, f: Fifo, e: UsedElem)
    requires Refines(q, f) && Disciplined(q, f, Complete(e))
    ensures Refines(Push(q, e, true), f.(done := f.done + [e]))
  {
    hide SignalAgrees, AvailAgrees, UsedAgrees, Fill, Flush, RingSize;
    FillRefines(q, f, e);
    var f1 := f.(staged := [e]);
    assert f.staged + [e] == [e];
    FlushRefines(Fill(q, e, 0, true), f1);
  }

  lemma SwitchRefines(q: State, f: Fifo, on: bool)
    requires Refines(q, f)
    ensures Refines(SetNotification(q, on), Ideal(q, f, SwitchNotification(on)).0)
  {
    hide Slot, RingSize, AvailAgrees, UsedAgrees, Low16;
    var q', f' := SetNotification(q, on), Ideal(q, f, SwitchNotification(on)).0;
    AvailDepends(q, q', f, f');
    UsedDepends(q, q', f, f');
  }

  /** Every disciplined operation keeps the queue in step with the unbounded one and gives the same
      reply: heads in publication order, exact emptiness, exact interrupts. */
  lemma StepRefines(q: State, f: Fifo, op: Op)
    requires Refines(q, f) && Disciplined(q, f, op)
    ensures Refines(Run(q, f, op).0, Ideal(q, f, op).0)
    ensures Run(q, f, op).1 == Ideal(q, f, op).1
  {
    hide Pop, Fill, Flush, Push, Notify, SetNotification, Empty, Survey, Unpop, Rewind, DriverPublish, MustInterrupt,
      SkipsDecision, Low16, RingSize, AvailAgrees, UsedAgrees, SignalAgrees;
    match op
    case Publish(h) => PublishRefines(q, f, h);
    case WriteUsedEvent(e) => EventRefines(q, f, e);
    case Peek => EmptyRefines(q, f);
    case CountBytes => SurveyRefines(q, f);
    case Take => PopRefines(q, f);
    case TakeUnallocated => FailureSkips(q, f);
    case Untake => UntakeRefines(q, f);
    case RewindBy(n) => RewindRefines(q, f, n);
    case FillNext(e) => FillRefines(q, f, e);
    case FlushAll => FlushRefines(q, f);
    case Complete(e) => CompleteRefines(q, f, e);
    case Interrupt => NotifyRefines(q, f);
    case SwitchNotification(on) => SwitchRefines(q, f, on);
  }

  /** A queue just set up, with both rings untouched, refines the empty FIFO. */
  lemma FreshRefines(q: State)
    requires q.Shaped() && q.Usable() && q.resubmit == [] && !q.signalledValid && q.inuse == 0
    requires q.availIdx == q.lastAvail == q.shadowAvail == q.usedIdx == q.usedMem == 0
    ensures Refines(q, Fifo([], 0, 0, [], [], None, 0, true))
    ensures q.availEvent == 0 && q.notification && !q.noNotify ==> KicksAgree(q, Fifo([], 0, 0, [], [], None, 0, true))
  {
    hide RingSize, Slot;
  }

  // ---- Kicks from the driver ---------------------------------------------------------------------

  /** What the driver goes by before it kicks: the event index, or the flag. */
  predicate DriverKicks(q: State, next: nat, prev: nat) {
    if q.eventIdx then NeedEvent(q.availEvent, Low16(next), Low16(prev)) else !q.noNotify
  }

  /** The event word is the low half of the publication the driver is asked to kick for, which stays put while
      the device does not listen; while it does, nothing beyond it has been fetched. The flag says whether
      the device listens. */
  ghost predicate KicksAgree(q: State, f: Fifo) {
    && q.notification == f.listening
    && (!q.eventIdx ==> q.noNotify == !f.listening)
    && (q.eventIdx ==> q.availEvent == Low16(f.asked))
    && (q.eventIdx && f.listening ==> f.fetched <= f.asked <= |f.published|)
  }

  lemma TakeKicks(q: State, f: Fifo)
    requires Refines(q, f) && KicksAgree(q, f)
    ensures KicksAgree(Pop(q, Mapped).0, Ideal(q, f, Take).0)
  {
    hide Slot, RingSize, UsedAgrees, AvailAgrees, SignalAgrees, Low16, Low32;
    EmptyRefines(q, f);
    EmptyOnlyCaches(q);
    if f.fetched < |f.published| {
      AcceptedEvent(Empty(q).0, f.(seen := if f.seen == f.fetched then |f.published| else f.seen));
    }
  }

  /** The pop asks for a kick at the entry after the one it fetched. */
  lemma AcceptedEvent(q: State, f: Fifo)
    requires Refines(q, f) && f.fetched < f.seen
    ensures var r := TakeNext(q, Mapped).0;
            r.notification == q.notification && r.noNotify == q.noNotify && r.eventIdx == q.eventIdx
            && r.availEvent == if q.eventIdx && q.notification then Low16(f.fetched + 1) else q.availEvent
  {
    hide Slot, RingSize, UsedAgrees, Low16;
    SlotOfWrapped(f.fetched, q.num);
    Low16Step(f.fetched, 1);
  }

  /** The fields that the agreement speaks of. */
  predicate SameFields(q: State, q': State) {
    && q'.notification == q.notification && q'.noNotify == q.noNotify
    && q'.eventIdx == q.eventIdx && q'.availEvent == q.availEvent
  }

  /** And the counters. */
  predicate SameAsked(f: Fifo, f': Fifo) {
    f'.asked == f.asked && f'.listening == f.listening && f'.fetched <= f.fetched && |f.published| <= |f'.published|
  }

  lemma SameAgrees(q: State, f: Fifo, q': State, f': Fifo)
    requires KicksAgree(q, f) && SameFields(q, q') && SameAsked(f, f')
    ensures KicksAgree(q', f')
  {
    hide Low16;
  }

  lemma NotifyFields(q: State)
    requires q.Shaped()
    ensures SameFields(q, Notify(q).0)
  {
    hide Slot, RingSize, Low16, NeedEvent, Empty;
    EmptyOnlyCaches(q);
  }

  lemma CompletionFields(q: State, e: UsedElem, idx: U32, count: U32)
    requires q.Shaped()
    ensures SameFields(q, Fill(q, e, idx, true)) && SameFields(q, Flush(q, count)) && SameFields(q, Push(q, e, true))
  {
    hide Slot, RingSize, Low16, Low32, Signed16;
  }

  lemma FetchingFields(q: State, n: U32)
    ensures SameFields(q, Empty(q).0) && SameFields(q, Survey(q))
    ensures SameFields(q, Unpop(q)) && SameFields(q, Rewind(q, n).0)
  {
    hide Low16, Low32;
  }

  /** All but a pop and the switch leave the fields alone. */
  lemma QuietFields(q: State, f: Fifo, op: Op)
    requires q.Shaped() && !op.Take? && !op.TakeUnallocated? && !op.SwitchNotification?
    ensures SameFields(q, Run(q, f, op).0)
  {
    hide Slot, RingSize, Low16, Low32, Empty, Survey, Unpop, Rewind, Notify, Fill, Flush, Push, Pop, SetNotification;
    match op
    case Publish(_) =>
    case WriteUsedEvent(_) =>
    case Peek => FetchingFields(q, 0);
    case CountBytes => FetchingFields(q, 0);
    case Untake => FetchingFields(q, 0);
    case RewindBy(n) => FetchingFields(q, n);
    case FillNext(e) => CompletionFields(q, e, Low32(|f.staged|), 0);
    case FlushAll => CompletionFields(q, UsedElem(0, 0), 0, Low32(|f.staged|));
    case Complete(e) => CompletionFields(q, e, 0, 0);
    case Interrupt => NotifyFields(q);
  }

  lemma QuietAsked(q: State, f: Fifo, op: Op)
    requires q.Shaped() && !op.Take? && !op.TakeUnallocated? && !op.SwitchNotification?
    ensures SameAsked(f, Ideal(q, f, op).0)
  {
    hide RingSize, MustInterrupt, SkipsDecision;
  }

  lemma SwitchKicks(q: State, f: Fifo, on: bool)
    requires Refines(q, f) && KicksAgree(q, f)
    ensures KicksAgree(SetNotification(q, on), Ideal(q, f, SwitchNotification(on)).0)
  {
    hide Slot, RingSize, Low16, AvailAgrees, UsedAgrees, SignalAgrees;
  }

  lemma FailedKicks(q: State, f: Fifo)
    requires Refines(q, f) && KicksAgree(q, f) && f.fetched == |f.published|
    ensures KicksAgree(Pop(q, NoMemory).0, Ideal(q, f, TakeUnallocated).0)
  {
    hide Slot, RingSize, Low16, AvailAgrees, UsedAgrees, SignalAgrees, Pop, Empty;
    EmptyRefines(q, f);
    NothingPopped(q, NoMemory);
    SameAgrees(q, f, Pop(q, NoMemory).0, Ideal(q, f, TakeUnallocated).0);
  }

  lemma StepKicks(q: State, f: Fifo, op: Op)
    requires Refines(q, f) && KicksAgree(q, f) && Disciplined(q, f, op)
    ensures KicksAgree(Run(q, f, op).0, Ideal(q, f, op).0)
  {
    hide CountersAgree, AvailAgrees, UsedAgrees, SignalAgrees, KicksAgree, SameAsked, SameFields, Careful, RingSize;
    match op
    case Take => TakeKicks(q, f);
    case TakeUnallocated => FailedKicks(q, f);
    case SwitchNotification(on) => SwitchKicks(q, f, on);
    case _ =>
      hide Run, Ideal;
      QuietFields(q, f, op);
      QuietAsked(q, f, op);
      SameAgrees(q, f, Run(q, f, op).0, Ideal(q, f, op).0);
  }

  lemma NothingPopped(q: State, m: MapResult)
    requires q.Shaped() && q.Usable() && q.resubmit == [] && Empty(q).1
    ensures Pop(q, m).0 == q.(shadowAvail := Pop(q, m).0.shadowAvail)
  {
    hide RingSize;
  }

  // ---- Whole runs --------------------------------------------------------------------------------

  /** A run of the queue beside the unbounded one: its final pair and its replies. */
  ghost function RunAll(q: State, f: Fifo, ops: seq<Op>): (r: (State, Fifo, seq<Reply>))
    requires q.Shaped()
    decreases |ops|
  {
    if ops == [] then (q, f, [])
    else
      var (q1, reply) := Run(q, f, ops[0]);
      var (q2, f2, rest) := RunAll(q1, Ideal(q, f, ops[0]).0, ops[1..]);
      (q2, f2, [reply] + rest)
  }

  ghost function IdealReplies(q: State, f: Fifo, ops: seq<Op>): seq<Reply>
    requires q.Shaped()
    decreases |ops|
  {
    if ops == [] then []
    else [Ideal(q, f, ops[0]).1] + IdealReplies(Run(q, f, ops[0]).0, Ideal(q, f, ops[0]).0, ops[1..])
  }

  ghost predicate AllDisciplined(q: State, f: Fifo, ops: seq<Op>)
    requires q.Shaped()
    decreases |ops|
  {
    ops != [] ==>
      Disciplined(q, f, ops[0]) && AllDisciplined(Run(q, f, ops[0]).0, Ideal(q, f, ops[0]).0, ops[1..])
  }

  /** The refinement over runs of any length, hence across any number of 16-bit wraps. */
  lemma {:induction false} RunRefines(q: State, f: Fifo, ops: seq<Op>)
    requires Refines(q, f) && AllDisciplined(q, f, ops)
    ensures var (q', f', replies) := RunAll(q, f, ops);
            Refines(q', f') && replies == IdealReplies(q, f, ops)
    decreases |ops|
  {
    hide Refines, Run, Ideal, Disciplined;
    if ops != [] {
      StepRefines(q, f, ops[0]);
      RunRefines(Run(q, f, ops[0]).0, Ideal(q, f, ops[0]).0, ops[1..]);
    }
  }

  ghost predicate AllCareful(q: State, f: Fifo, ops: seq<Op>)
    requires q.Shaped()
    decreases |ops|
  {
    ops != [] ==>
      Careful(q, f, ops[0]) && AllCareful(Run(q, f, ops[0]).0, Ideal(q, f, ops[0]).0, ops[1..])
  }

  /** The queue is in step at the start, after every operation, and at the end. */
  ghost predicate InStepThroughout(q: State, f: Fifo, ops: seq<Op>)
    requires q.Shaped()
    decreases |ops|
  {
    Refines(q, f)
    && (ops == [] || InStepThroughout(Run(q, f, ops[0]).0, Ideal(q, f, ops[0]).0, ops[1..]))
  }

  ghost predicate AlwaysAllocates(q: State, f: Fifo, ops: seq<Op>)
    requires q.Shaped()
    decreases |ops|
  {
    ops == []
    || (!FailsToAllocate(f, ops[0]) && AlwaysAllocates(Run(q, f, ops[0]).0, Ideal(q, f, ops[0]).0, ops[1..]))
  }

  /** Allocation decides: along a run in which both sides keep their limits, the queue stays in step with
      the unbounded one if and only if no pop with an entry at hand fails to allocate. */
  lemma {:induction false} InStepIffAllocates(q: State, f: Fifo, ops: seq<Op>)
    requires Refines(q, f) && AllCareful(q, f, ops)
    ensures InStepThroughout(q, f, ops) <==> AlwaysAllocates(q, f, ops)
    decreases |ops|
  {
    hide Refines, Run, Ideal, Careful;
    if ops != [] {
      var q1, f1 := Run(q, f, ops[0]).0, Ideal(q, f, ops[0]).0;
      if FailsToAllocate(f, ops[0]) {
        FailureLeavesStep(q, f);
        assert !InStepThroughout(q1, f1, ops[1..]);
      } else {
        StepRefines(q, f, ops[0]);
        InStepIffAllocates(q1, f1, ops[1..]);
      }
    }
  }

  lemma FailureLeavesStep(q: State, f: Fifo)
    requires Refines(q, f) && FailsToAllocate(f, TakeUnallocated)
    ensures !Refines(Run(q, f, TakeUnallocated).0, Ideal(q, f, TakeUnallocated).0)
  {
    hide Refines, Pop;
    FailureSkips(q, f);
  }

  lemma {:induction false} RunKicks(q: State, f: Fifo, ops: seq<Op>)
    requires Refines(q, f) && KicksAgree(q, f) && AllDisciplined(q, f, ops)
    ensures var (q', f', _) := RunAll(q, f, ops); Refines(q', f') && KicksAgree(q', f')
    decreases |ops|
  {
    hide Refines, KicksAgree, Run, Ideal, Disciplined;
    if ops != [] {
      StepRefines(q, f, ops[0]);
      StepKicks(q, f, ops[0]);
      RunKicks(Run(q, f, ops[0]).0, Ideal(q, f, ops[0]).0, ops[1..]);
    }
  }

  /** No kick is lost: after any run, if the device listens and has fetched everything, the driver kicks for
      whatever it publishes next, however many entries ago it last decided. */
  lemma NoLostKick(q: State, f: Fifo, ops: seq<Op>, prev: nat, next: nat)
    requires Refines(q, f) && KicksAgree(q, f) && AllDisciplined(q, f, ops)
    requires var f' := RunAll(q, f, ops).1;
             f'.listening && f'.fetched == |f'.published| && prev <= |f'.published| < next < prev + WORD16
    ensures DriverKicks(RunAll(q, f, ops).0, next, prev)
  {
    hide RunAll, AllDisciplined, CountersAgree, AvailAgrees, UsedAgrees, SignalAgrees, NeedEvent, Low16;
    RunKicks(q, f, ops);
    var (q', f', _) := RunAll(q, f, ops);
    if q'.eventIdx {
      NeedEventExact(q'.availEvent, prev, next);
      assert InWindow(q'.availEvent, prev, next) by {
        assert Low16(|f'.published|) == q'.availEvent;
      }
    }
  }

  /** Without event indices the driver kicks exactly while the device listens. */
  lemma FlagMeansListening(q: State, f: Fifo, ops: seq<Op>, prev: nat, next: nat)
    requires Refines(q, f) && KicksAgree(q, f) && AllDisciplined(q, f, ops) && !RunAll(q, f, ops).0.eventIdx
    ensures DriverKicks(RunAll(q, f, ops).0, next, prev) <==> RunAll(q, f, ops).1.listening
  {
    hide RunAll, AllDisciplined, Refines;
    RunKicks(q, f, ops);
  }

  /** And a device that just fetched an entry is not kicked for the entries it can already see. */
  lemma NoIdleKick(q: State, f: Fifo, prev: nat, next: nat)
    requires Refines(q, f) && KicksAgree(q, f) && q.eventIdx && f.listening && f.fetched < |f.published|
    requires f.fetched + 1 < prev <= next < f.fetched + 1 + WORD16
    ensures !DriverKicks(Pop(q, Mapped).0, next, prev)
  {
    hide Slot, RingSize, UsedAgrees, AvailAgrees, SignalAgrees, Low16, Pop, NeedEvent;
    TakeKicks(q, f);
    PopKeepsEventIdx(q);
    var e := Pop(q, Mapped).0.availEvent;
    NeedEventExact(e, prev, next);
    if InWindow(e, prev, next) {
      var c: nat :| prev <= c < next && Low16(c) == e;
      Low16Injective(f.fetched + 1, c);
    }
  }

  lemma PopKeepsEventIdx(q: State)
    requires q.Shaped()
    ensures Pop(q, Mapped).0.eventIdx == q.eventIdx
  {
    hide RingSize, Empty, TakeNext;
    EmptyOnlyCaches(q);
    TakeNextKeepsEventIdx(Empty(q).0);
  }

  lemma TakeNextKeepsEventIdx(q: State)
    requires q.Shaped()
    ensures TakeNext(q, Mapped).0.eventIdx == q.eventIdx
  {
    hide RingSize, Slot, Low16, Low32, Accept;
    if q.inuse < q.num {
      AcceptKeepsEventIdx(q.(lastAvail := Low16(q.lastAvail + 1)), q.avail[Slot(q.lastAvail, q.num)]);
    }
  }

  lemma AcceptKeepsEventIdx(q: State, head: U16)
    ensures Accept(q, head, Mapped).0.eventIdx == q.eventIdx
  {
    hide Low32;
  }

  /** The heads among a list of replies. */
  ghost function Heads(replies: seq<Reply>): seq<U16> {
    if replies == [] then []
    else (if replies[0].Fetched? && replies[0].head.Some? then [replies[0].head.value] else [])
         + Heads(replies[1..])
  }

  ghost predicate NothingTakenBack(ops: seq<Op>) {
    forall i :: 0 <= i < |ops| ==> !ops[i].Untake? && !ops[i].RewindBy?
  }

  /** Only `Take` moves the fetch counter forward, and its reply is the entry it passed. */
  lemma TakeOnly(q: State, f: Fifo, op: Op)
    requires Refines(q, f) && Disciplined(q, f, op) && !op.Untake? && !op.RewindBy?
    ensures var (f', reply) := Ideal(q, f, op);
            f.published <= f'.published && f.fetched <= f'.fetched <= |f'.published|
            && Heads([reply]) == f'.published[f.fetched..f'.fetched]
  {
    hide RingSize, AvailAgrees, UsedAgrees, SignalAgrees, MustInterrupt;
    var (f', reply) := Ideal(q, f, op);
    OneReply(reply);
    if f'.fetched == f.fetched {
      assert f'.published[f.fetched..f'.fetched] == [];
    } else {
      assert f'.published[f.fetched..f'.fetched] == [f.published[f.fetched]];
    }
  }

  lemma OneReply(r: Reply)
    ensures Heads([r]) == if r.Fetched? && r.head.Some? then [r.head.value] else []
  {
    assert [r][1..] == [] && Heads([]) == [];
  }

  lemma HeadsCons(r: Reply, rest: seq<Reply>)
    ensures Heads([r] + rest) == Heads([r]) + Heads(rest)
  {
    assert ([r] + rest)[1..] == rest;
    assert Heads([]) == [];
  }

  /** Over any disciplined run that takes nothing back, the heads popped are the entries published,
      in publication order, none skipped and none repeated. */
  lemma {:induction false} PopsFollowPublications(q: State, f: Fifo, ops: seq<Op>)
    requires Refines(q, f) && AllDisciplined(q, f, ops) && NothingTakenBack(ops)
    ensures var (q', f', replies) := RunAll(q, f, ops);
            f.published <= f'.published && f.fetched <= f'.fetched <= |f'.published|
            && Heads(replies) == f'.published[f.fetched..f'.fetched]
    decreases |ops|
  {
    hide Refines, Run, Ideal, Disciplined;
    if ops == [] {
      assert f.fetched <= |f.published| by { Bounds(q, f); }
    } else {
      StepRefines(q, f, ops[0]);
      var (q1, reply) := Run(q, f, ops[0]);
      var f1 := Ideal(q, f, ops[0]).0;
      TakeOnly(q, f, ops[0]);
      PopsFollowPublications(q1, f1, ops[1..]);
      var (q2, f2, rest) := RunAll(q1, f1, ops[1..]);
      HeadsCons(reply, rest);
      assert f2.published[f.fetched..f1.fetched] == f1.published[f.fetched..f1.fetched];
      assert f2.published[f.fetched..f2.fetched]
          == f2.published[f.fetched..f1.fetched] + f2.published[f1.fetched..f2.fetched];
    }
  }

  lemma Bounds(q: State, f: Fifo)
    requires Refines(q, f)
    ensures |f.done| <= f.fetched <= f.seen <= |f.published| <= |f.done| + q.num
  {
  }

  // ---- Every answer of a pop ------------------------------------------------------------------------

  /** There is a recovered head, or an entry that the ring shows. */
  predicate SomethingThere(q: State) {
    q.resubmit != [] || q.shadowAvail != q.lastAvail || q.availIdx != q.lastAvail
  }

  /** The pop goes on to map a head: a recovered one, or an entry within the bounds it checks. */
  predicate GetsToMap(q: State)
    requires q.Shaped()
  {
    q.resubmit != [] || (SomethingThere(q) && q.inuse < q.num && q.avail[Slot(q.lastAvail, q.num)] < q.num)
  }

  /** A head comes back exactly when one was mapped; the queue breaks exactly when a check fails or the
      mapping is refused; an unusable queue gives nothing and stays as it is. */
  lemma PopAnswers(q: State, m: MapResult)
    requires q.Shaped()
    ensures q.broken || !q.mapped ==> Pop(q, m) == (q, None)
    ensures !q.broken && q.mapped ==>
      && (Pop(q, m).1.Some? <==> GetsToMap(q) && m.Mapped?)
      && (Pop(q, m).0.broken <==> SomethingThere(q) && (!GetsToMap(q) || m.Refused?))
  {
    hide RingSize, Slot, TakeNext, Empty;
    if q.Usable() && q.resubmit == [] {
      EmptyAnswers(q);
      EmptyOnlyCaches(q);
      if !Empty(q).1 {
        TakeNextAnswers(Empty(q).0, m);
      }
    }
  }

  lemma EmptyAnswers(q: State)
    requires q.Usable() && q.resubmit == []
    ensures Empty(q).1 <==> !SomethingThere(q)
  {
  }

  lemma TakeNextAnswers(q: State, m: MapResult)
    requires q.Shaped() && q.Usable()
    ensures var ok := q.inuse < q.num && q.avail[Slot(q.lastAvail, q.num)] < q.num;
            && (TakeNext(q, m).1.Some? <==> ok && m.Mapped?)
            && (TakeNext(q, m).0.broken <==> !ok || m.Refused?)
  {
    hide RingSize, Slot, Low16, Low32;
  }

  /** A broken or unmapped queue is left alone by every operation. */
  lemma UnusableStays(q: State, e: UsedElem, idx: U32, walked: bool, count: U32)
    requires q.Shaped() && (q.broken || !q.mapped)
    ensures Empty(q) == (q, true) && Notify(q) == (q, false)
    ensures Fill(q, e, idx, walked) == q && Flush(q, count) == q && Push(q, e, walked) == q && Survey(q) == q
  {
  }

  /** A push whose log walk panicked has written its entry but completes nothing. */
  lemma PanickedPush(q: State, e: UsedElem)
    requires q.Shaped() && q.Usable()
    ensures var r := Push(q, e, false);
            r.broken && r == q.(broken := true, used := q.used[Slot(q.usedIdx, q.num) := e])
  {
    hide RingSize, Slot, Low16, Signed16;
    Low32Small(q.usedIdx);
  }

  // ---- Rewinding ---------------------------------------------------------------------------------

  /** `k` pops in a row, and the heads they return. */
  function PopMany(q: State, k: nat): (r: (State, seq<Option<U16>>))
    requires q.Shaped()
    ensures r.0.Shaped() && |r.1| == k
    decreases k
  {
    if k == 0 then (q, [])
    else
      var (q1, h) := Pop(q, Mapped);
      var (q2, rest) := PopMany(q1, k - 1);
      (q2, [h] + rest)
  }

  lemma {:induction false} PopManyInOrder(q: State, f: Fifo, k: nat)
    requires Refines(q, f) && f.fetched + k <= |f.published|
    ensures exists f' :: Refines(PopMany(q, k).0, f') && f'.fetched == f.fetched + k
              && f'.published == f.published && f'.done == f.done && f'.staged == f.staged
    ensures forall i :: 0 <= i < k ==> PopMany(q, k).1[i] == Some(f.published[f.fetched + i])
    decreases k
  {
    hide CountersAgree, AvailAgrees, UsedAgrees, SignalAgrees, Pop, RingSize;
    if k == 0 {
      assert Refines(PopMany(q, 0).0, f);
    } else {
      PopRefines(q, f);
      var q1, f1 := Pop(q, Mapped).0, Ideal(q, f, Take).0;
      PopManyInOrder(q1, f1, k - 1);
      var f' :| Refines(PopMany(q1, k - 1).0, f') && f'.fetched == f1.fetched + (k - 1)
              && f'.published == f1.published && f'.done == f1.done && f'.staged == f1.staged;
      assert PopMany(q, k).0 == PopMany(q1, k - 1).0;
    }
  }

  /** `k` pops, `vu_queue_rewind(k)` and `k` pops again return the same `k` heads in the same order. */
  lemma RewindReplays(q: State, f: Fifo, k: U32)
    requires Refines(q, f) && f.fetched + k <= |f.published|
    ensures var (q1, first) := PopMany(q, k);
            var (q2, ok) := Rewind(q1, k);
            ok && q2.Shaped() && PopMany(q2, k).1 == first
  {
    hide PopMany, SignalAgrees, AvailAgrees, UsedAgrees, RingSize, Low16;
    PopManyInOrder(q, f, k);
    var q1 := PopMany(q, k).0;
    var f1 :| Refines(q1, f1) && f1.fetched == f.fetched + k
              && f1.published == f.published && f1.done == f.done && f1.staged == f.staged;
    TakeBackRefines(q1, f1, k);
    var q2 := Rewind(q1, k).0;
    PopManyInOrder(q2, f1.(fetched := f1.fetched - k), k);
  }

  // ---- After a reconnect ---------------------------------------------------------------------------

  /** The queue of a new backend on the same rings, before recovery. */
  function Reborn(q: State): (r: State)
    ensures q.Keeps(r)
  {
    q.(lastAvail := q.usedMem, shadowAvail := q.usedMem, usedIdx := q.usedMem, inuse := 0, resubmit := [],
       signalledUsed := 0, signalledValid := false, notification := true)
  }

  lemma {:induction false} PopListed(q: State, k: nat)
    requires q.Shaped() && q.Usable() && k <= |q.resubmit|
    ensures PopMany(q, k).0 == q.(resubmit := q.resubmit[..|q.resubmit| - k])
    ensures forall i :: 0 <= i < k ==> PopMany(q, k).1[i] == Some(q.resubmit[|q.resubmit| - 1 - i])
    decreases k
  {
    hide RingSize;
    if k == 0 {
      assert q.resubmit[..|q.resubmit|] == q.resubmit;
    } else {
      var n := |q.resubmit| - 1;
      var q1 := Pop(q, Mapped).0;
      assert q1 == q.(resubmit := q.resubmit[..n]) && Pop(q, Mapped).1 == Some(q.resubmit[n]);
      PopListed(q1, k - 1);
      assert q.resubmit[..n][..n - (k - 1)] == q.resubmit[..n + 1 - k];
    }
  }

  /** The fields after recovery: those of the FIFO, with the marked heads on the list. */
  lemma RecoveredFields(q: State, f: Fifo, area: Inflight.Area)
    requires Refines(q, f) && area.version != 0 && Inflight.Repairable(area, q.usedMem)
    requires var desc := Inflight.Repair(area, q.usedMem).desc;
             |desc| == q.num && (forall h :: 0 <= h < |desc| ==> desc[h].inflight <= 1)
             && Inflight.CountOnes(desc) == f.fetched - |f.done|
    ensures var r := Recover(Reborn(q), area);
            && r == Reborn(q).(inuse := f.fetched - |f.done|, lastAvail := Low16(f.fetched),
                               shadowAvail := Low16(f.fetched), resubmit := r.resubmit)
            && |r.resubmit| == f.fetched - |f.done|
            && forall i :: 0 <= i < |r.resubmit| ==>
                 r.resubmit[i] in Inflight.MarkedHeads(Inflight.Repair(area, q.usedMem).desc)
  {
    hide RingSize, Slot, Low16, Low32, AvailAgrees, UsedAgrees, SignalAgrees, Inflight.Sort, Inflight.Collect,
      Inflight.CountOnes, Inflight.Repair;
    var repaired := Inflight.Repair(area, q.usedMem);
    SmallRing(q);
    Inflight.ScanRestoresExactly(repaired, |f.done|, f.fetched, 0);
    Low16Zero();
    Low32Small(f.fetched - |f.done|);
    ListedMarked(repaired, q.usedMem);
  }

  lemma Low16Zero()
    ensures Low16(0) == 0
  {
  }

  lemma ListedMarked(area: Inflight.Area, usedMem: U16)
    requires |area.desc| <= 0x8000 && forall h :: 0 <= h < |area.desc| ==> area.desc[h].inflight <= 1
    ensures var list := Resubmitted(Inflight.Scan(area, usedMem, 0).resubmit);
            |list| == Inflight.CountOnes(area.desc)
            && forall i :: 0 <= i < |list| ==> list[i] in Inflight.MarkedHeads(area.desc)
  {
    hide Inflight.Sort, Inflight.Collect, Inflight.CountOnes, Low16;
    var c := Inflight.Collect(area.desc);
    var list := Inflight.Scan(area, usedMem, 0).resubmit;
    Inflight.CollectCounts(area.desc);
    Inflight.SortNone();
    assert c == [] ==> list == Inflight.Sort(c);
    Inflight.SameMembers(Inflight.Sort(c), c);
    forall i | 0 <= i < |list| ensures Low16(list[i].index) in Inflight.MarkedHeads(area.desc) {
      assert list[i] in c;
      Low16OfWord(list[i].index);
    }
  }

  /** A reconnect resumes the FIFO: with the marks of the fetched and uncompleted entries in place, as many
      pops return the listed heads, and then the queue is in step with the same FIFO again. */
  lemma RecoveryResumes(q: State, f: Fifo, area: Inflight.Area)
    requires Refines(q, f) && f.staged == [] && area.version != 0 && Inflight.Repairable(area, q.usedMem)
    requires var desc := Inflight.Repair(area, q.usedMem).desc;
             |desc| == q.num && (forall h :: 0 <= h < |desc| ==> desc[h].inflight <= 1)
             && Inflight.CountOnes(desc) == f.fetched - |f.done|
    ensures var r := Recover(Reborn(q), area);
            var k := |r.resubmit|;
            && k == f.fetched - |f.done|
            && (forall i :: 0 <= i < k ==> PopMany(r, k).1[i] == Some(r.resubmit[k - 1 - i]))
            && (forall i :: 0 <= i < k ==> r.resubmit[i] in Inflight.MarkedHeads(Inflight.Repair(area, q.usedMem).desc))
            && Refines(PopMany(r, k).0, f.(seen := f.fetched, decided := None))
            && (KicksAgree(q, f) && f.listening ==> KicksAgree(PopMany(r, k).0, f.(seen := f.fetched, decided := None)))
  {
    hide RingSize, Slot, Low16, Low32, AvailAgrees, UsedAgrees, Recover, Inflight.Repair, Inflight.CountOnes,
      Inflight.MarkedHeads, PopMany;
    RecoveredFields(q, f, area);
    var r, f' := Recover(Reborn(q), area), f.(seen := f.fetched, decided := None);
    var k := |r.resubmit|;
    PopListed(r, k);
    var t := PopMany(r, k).0;
    assert t == r.(resubmit := []);
    AvailDepends(q, t, f, f');
    UsedDepends(q, t, f, f');
  }

  // ---- Conservation, against any driver --------------------------------------------------------

  /** Every fetched entry is either completed or counted in `inuse`, and no more than `num` are. */
  ghost predicate Conserved(q: State) {
    !q.broken ==> q.lastAvail == Low16(q.usedIdx + q.inuse) && q.inuse <= q.num
  }

  /** Operations with nothing assumed of the driver, of the chains or of what the device fills in. */
  datatype AnyOp =
    | DriverWrites(avail: seq<U16>, availIdx: U16, noInterrupt: bool)
    | AnyTake(m: MapResult)
    | AnyUntake
    | AnyRewind(n: U32)
    | AnyFill(elem: UsedElem, idx: U32, walked: bool)
    | AnyFlush(count: U32)
    | AnyPush(elem: UsedElem, walked: bool)
    | AnyNotify
    | AnyCount
    | AnySwitch(on: bool)
    | Reconnect(area: Inflight.Area)

  function RunAny(q: State, op: AnyOp): (r: State)
    requires q.Shaped()
    ensures q.Keeps(r) && r.Shaped()
  {
    match op
    case DriverWrites(a, i, n) => if |a| == |q.avail| then q.(avail := a, availIdx := i, noInterrupt := n) else q
    case AnyTake(m) => Pop(q, m).0
    case AnyUntake => Unpop(q)
    case AnyRewind(n) => Rewind(q, n).0
    case AnyFill(e, i, w) => Fill(q, e, i, w)
    case AnyFlush(c) => Flush(q, c)
    case AnyPush(e, w) => Push(q, e, w)
    case AnyNotify => Notify(q).0
    case AnyCount => Survey(q)
    case AnySwitch(on) => SetNotification(q, on)
    case Reconnect(area) => Recover(q, area)
  }

  /** `vu_check_queue_inflights` on an attached area, seen from the queue's own fields: a first attachment
      leaves them alone. A head to unmark that lies outside of the area is no operation of the runs. */
  function Recover(q: State, area: Inflight.Area): (r: State)
    ensures q.Keeps(r)
  {
    if area.version == 0 || !Inflight.Repairable(area, q.usedMem) then q
    else
      var s := Inflight.Scan(Inflight.Repair(area, q.usedMem), q.usedMem, q.inuse);
      q.(usedIdx := s.usedIdx, inuse := Low32(s.inuse), lastAvail := s.lastAvail, shadowAvail := s.lastAvail,
         resubmit := Resubmitted(s.resubmit))
  }

  function Resubmitted(list: seq<Inflight.Entry>): seq<U16> {
    seq(|list|, i requires 0 <= i < |list| => Low16(list[i].index))
  }

  /** Allocation succeeds, and the device gives back no more than it holds. */
  predicate Fair(q: State, op: AnyOp) {
    match op
    case AnyTake(m) => !m.NoMemory?
    case AnyUntake => q.inuse >= 1
    case AnyFlush(c) => c <= q.inuse
    case AnyPush(_, _) => q.inuse >= 1
    case Reconnect(area) =>
      area.version != 0 ==>
        && Inflight.Repairable(area, q.usedMem)
        && q.inuse + Inflight.CountOnes(Inflight.Repair(area, q.usedMem).desc) <= q.num
    case _ => true
  }

  /** Recovery conserves exactly when what the queue counted and what it finds marked fit the ring. */
  lemma RecoverConserves(q: State, area: Inflight.Area)
    requires q.Shaped() && !q.broken && area.version != 0 && Inflight.Repairable(area, q.usedMem)
    requires q.inuse + Inflight.CountOnes(Inflight.Repair(area, q.usedMem).desc) < WORD32
    ensures Conserved(Recover(q, area))
      <==> q.inuse + Inflight.CountOnes(Inflight.Repair(area, q.usedMem).desc) <= q.num
  {
    hide RingSize, Low16, Inflight.Sort, Inflight.Collect, Inflight.CountOnes, Inflight.Repair;
    Low32Small(q.inuse + Inflight.CountOnes(Inflight.Repair(area, q.usedMem).desc));
  }

  /** A queue set up anew, with an area of its own size, always does. */
  lemma FreshRecoverConserves(q: State, area: Inflight.Area)
    requires q.Shaped() && q.inuse == 0 && |area.desc| == q.num
    requires area.version != 0 && Inflight.Repairable(area, q.usedMem)
    ensures Fair(q, Reconnect(area)) && Conserved(Recover(q, area))
  {
    hide RingSize, Recover, Inflight.CountOnes;
    Inflight.CountBounded(Inflight.Repair(area, q.usedMem).desc);
    SmallRing(q);
    if !q.broken {
      RecoverConserves(q, area);
    } else {
      RecoverKeepsBroken(q, area);
    }
  }

  lemma SmallRing(q: State)
    requires q.Shaped()
    ensures q.num <= 0x8000
  {
  }

  lemma RecoverKeepsBroken(q: State, area: Inflight.Area)
    ensures Recover(q, area).broken == q.broken
  {
    hide Inflight.Scan, Inflight.Repair;
  }

  lemma PopConserves(q: State, m: MapResult)
    requires q.Shaped() && Conserved(q) && !m.NoMemory?
    ensures Conserved(Pop(q, m).0)
  {
    hide RingSize, Slot, Low16, TakeNext, Empty;
    if q.Usable() && q.resubmit == [] {
      EmptyConserves(q);
      if !Empty(q).1 {
        TakeNextConserves(Empty(q).0, m);
      }
    }
  }

  lemma EmptyConserves(q: State)
    requires Conserved(q)
    ensures Conserved(Empty(q).0) && Empty(q).0.Usable() == q.Usable()
  {
  }

  lemma TakeNextConserves(q: State, m: MapResult)
    requires q.Shaped() && q.Usable() && Conserved(q) && !m.NoMemory?
    ensures Conserved(TakeNext(q, m).0)
  {
    hide RingSize, Slot, Low16, Low32;
    Low16Step(q.usedIdx + q.inuse, 1);
    if q.inuse < q.num {
      Low32Small(q.inuse + 1);
    }
  }

  lemma FlushConserves(q: State, count: U32)
    requires q.Shaped() && Conserved(q) && count <= q.inuse
    ensures Conserved(Flush(q, count))
  {
    hide RingSize, Slot, Low16, Signed16;
    Low16Step(q.usedIdx + count, q.inuse - count);
  }

  lemma TakeBackConserves(q: State, n: nat)
    requires q.Shaped() && Conserved(q) && n <= q.inuse
    ensures Conserved(q.(lastAvail := Low16(q.lastAvail - n), inuse := q.inuse - n))
  {
    hide RingSize, Low16;
    Low16Step(q.usedIdx + q.inuse, 0 - n);
  }

  lemma PushConserves(q: State, e: UsedElem, walked: bool)
    requires q.Shaped() && Conserved(q) && q.inuse >= 1
    ensures Conserved(Push(q, e, walked))
  {
    hide RingSize, Slot, Low16, Flush;
    FlushConserves(Fill(q, e, 0, walked), 1);
  }

  lemma NotifyConserves(q: State)
    requires q.Shaped() && Conserved(q)
    ensures Conserved(Notify(q).0)
  {
    hide RingSize, Slot, Low16, NeedEvent, Empty;
    EmptyOnlyCaches(q);
  }

  lemma SurveyConserves(q: State)
    requires Conserved(q)
    ensures Conserved(Survey(q))
  {
    hide Low16;
  }

  lemma SwitchConserves(q: State, on: bool)
    requires Conserved(q)
    ensures Conserved(SetNotification(q, on))
  {
    hide RingSize, Slot, Low16;
  }

  lemma ReconnectConserves(q: State, area: Inflight.Area)
    requires q.Shaped() && Conserved(q) && Fair(q, Reconnect(area))
    ensures Conserved(Recover(q, area))
  {
    hide RingSize, Low16, Recover, Inflight.CountOnes, Inflight.Repair;
    SmallRing(q);
    if area.version == 0 {
      RecoverNothing(q, area);
    } else if q.broken {
      RecoverKeepsBroken(q, area);
    } else {
      RecoverConserves(q, area);
    }
  }

  lemma RecoverNothing(q: State, area: Inflight.Area)
    requires area.version == 0
    ensures Recover(q, area) == q
  {
  }

  lemma RewindConserves(q: State, n: U32)
    requires q.Shaped() && Conserved(q)
    ensures Conserved(Rewind(q, n).0)
  {
    hide RingSize, Low16;
    if n <= q.inuse {
      TakeBackConserves(q, n);
    }
  }

  lemma UntakeConserves(q: State)
    requires q.Shaped() && Conserved(q) && q.inuse >= 1
    ensures Conserved(Unpop(q))
  {
    hide RingSize, Low16;
    TakeBackConserves(q, 1);
    Low32Small(q.inuse - 1);
  }

  lemma FillConserves(q: State, e: UsedElem, idx: U32, walked: bool)
    requires q.Shaped() && Conserved(q)
    ensures Conserved(Fill(q, e, idx, walked))
  {
    hide RingSize, Low16, Slot, Low32;
  }

  lemma AnyFlushConserves(q: State, count: U32)
    requires q.Shaped() && Conserved(q) && count <= q.inuse
    ensures Conserved(Flush(q, count))
  {
    hide RingSize, Low16, Signed16, Low32;
    if q.broken {
      BrokenFlush(q, count);
    } else {
      FlushConserves(q, count);
    }
  }

  lemma StepConserves(q: State, op: AnyOp)
    requires q.Shaped() && Conserved(q) && Fair(q, op)
    ensures Conserved(RunAny(q, op))
  {
    hide RingSize, Slot, Low16, Low32, Flush, Pop, Push, Notify, SetNotification, Recover, Fill, Unpop, Rewind,
      Survey, Conserved,
      Inflight.CountOnes, Inflight.Repair;
    match op
    case DriverWrites(a, i, n) => DriverConserves(q, a, i, n);
    case AnyTake(m) => PopConserves(q, m);
    case AnyUntake => UntakeConserves(q);
    case AnyRewind(n) => RewindConserves(q, n);
    case AnyFill(e, i, w) => FillConserves(q, e, i, w);
    case AnyFlush(c) => AnyFlushConserves(q, c);
    case AnyPush(e, w) => PushConserves(q, e, w);
    case AnyNotify => NotifyConserves(q);
    case AnyCount => SurveyConserves(q);
    case AnySwitch(on) => SwitchConserves(q, on);
    case Reconnect(area) => ReconnectConserves(q, area);
  }

  lemma DriverConserves(q: State, avail: seq<U16>, availIdx: U16, noInterrupt: bool)
    requires Conserved(q)
    ensures Conserved(q.(avail := avail, availIdx := availIdx, noInterrupt := noInterrupt))
  {
    hide Low16;
  }

  lemma BrokenFlush(q: State, count: U32)
    requires q.broken
    ensures Flush(q, count) == q
  {
  }

  ghost predicate AllFair(q: State, ops: seq<AnyOp>)
    requires q.Shaped()
    decreases |ops|
  {
    ops != [] ==> Fair(q, ops[0]) && AllFair(RunAny(q, ops[0]), ops[1..])
  }

  ghost function RunEvery(q: State, ops: seq<AnyOp>): (r: State)
    requires q.Shaped()
    decreases |ops|
  {
    if ops == [] then q else RunEvery(RunAny(q, ops[0]), ops[1..])
  }

  /** Conservation holds in every reachable state, whatever the driver writes. */
  lemma {:induction false} RunConserves(q: State, ops: seq<AnyOp>)
    requires q.Shaped() && Conserved(q) && AllFair(q, ops)
    ensures Conserved(RunEvery(q, ops))
    decreases |ops|
  {
    hide RunAny, Conserved, Fair;
    if ops != [] {
      StepConserves(q, ops[0]);
      RunConserves(RunAny(q, ops[0]), ops[1..]);
    }
  }

  /** A pop whose allocation fails after it took an entry from the ring: `last_avail_idx` has moved, `inuse`
      has not, and the queue is not broken. */
  predicate Leaks(q: State, m: MapResult)
    requires q.Shaped()
  {
    m.NoMemory? && q.resubmit == [] && !Empty(q).1 && q.inuse < q.num && q.avail[Slot(q.lastAvail, q.num)] < q.num
  }

  /** Over all pops, in every outcome and from the ring or the recovered list: a pop conserves exactly when
      it is not such a one. */
  lemma PopConservesExactly(q: State, m: MapResult)
    requires q.Shaped() && Conserved(q) && q.Usable()
    ensures Conserved(Pop(q, m).0) <==> !Leaks(q, m)
  {
    hide RingSize, Slot, Low16, Low32, Empty, TakeNext;
    if !m.NoMemory? {
      PopConserves(q, m);
    } else if q.resubmit == [] && !Empty(q).1 {
      EmptyConserves(q);
      EmptyOnlyCaches(q);
      TakeNextLeaks(Empty(q).0);
    } else if q.resubmit == [] {
      EmptyConserves(q);
    }
  }

  lemma EmptyOnlyCaches(q: State)
    ensures Empty(q).0 == q.(shadowAvail := Empty(q).0.shadowAvail)
  {
  }

  lemma TakeNextLeaks(q: State)
    requires q.Shaped() && Conserved(q) && q.Usable()
    ensures Conserved(TakeNext(q, NoMemory).0) <==> !(q.inuse < q.num && q.avail[Slot(q.lastAvail, q.num)] < q.num)
    ensures q.inuse < q.num && q.avail[Slot(q.lastAvail, q.num)] < q.num ==> TakeNext(q, NoMemory).0.Usable()
  {
    hide RingSize, Slot;
  }

  /** A flush conserves exactly when it completes no more than is in use; or when its 32-bit count is so large
      that it wraps and gives `inuse` no more than the room left. */
  lemma FlushConservesExactly(q: State, count: U32)
    requires q.Shaped() && Conserved(q) && q.Usable()
    ensures Conserved(Flush(q, count)) <==> count <= q.inuse || WORD32 - count <= q.num - q.inuse
  {
    hide RingSize, Signed16, Low16;
    SmallRing(q);
    if count <= q.inuse {
      FlushConserves(q, count);
    } else {
      WrappedCount(q.inuse, count);
      Low16Step(q.usedIdx + count, q.inuse - count + WORD32);
      WholeWraps(q.usedIdx + q.inuse);
    }
  }

  /** An unsigned counter taken below zero. */
  lemma WrappedCount(inuse: nat, count: U32)
    requires inuse < count
    ensures Low32(inuse - count) == inuse - count + WORD32
  {
  }

  lemma WholeWraps(x: int)
    ensures Low16(x + WORD32) == Low16(x)
  {
  }

  // ---- Batching ----------------------------------------------------------------------------------

  function FillMany(q: State, elems: seq<UsedElem>, from: nat): (r: State)
    requires q.Shaped()
    ensures q.Keeps(r) && r.Shaped()
    decreases |elems|
  {
    if elems == [] then q else FillMany(Fill(q, elems[0], Low32(from), true), elems[1..], from + 1)
  }

  function PushMany(q: State, elems: seq<UsedElem>): (r: State)
    requires q.Shaped()
    ensures q.Keeps(r) && r.Shaped()
    decreases |elems|
  {
    if elems == [] then q else PushMany(Push(q, elems[0], true), elems[1..])
  }

  /** The remembered decision is less than 2^15 completions old and the private index is the one in
      memory: `RefinesRecent` shows it of every queue in step with its FIFO. */
  predicate Recent(q: State) {
    q.usedMem == q.usedIdx && (q.signalledValid ==> Low16(q.usedIdx - q.signalledUsed) < SIGNAL_LIMIT)
  }

  lemma RefinesRecent(q: State, f: Fifo)
    requires Refines(q, f)
    ensures Recent(q)
  {
    hide RingSize, Slot, AvailAgrees, UsedAgrees;
    if q.signalledValid {
      Low16Difference(f.decided.value, |f.done|);
    }
  }

  /** One flush of `1 + k` is a flush of 1 followed by a flush of `k`. */
  lemma FlushSplits(q: State, k: nat)
    requires q.Shaped() && q.Usable() && Recent(q) && 1 + k < WORD16
    ensures Flush(q, 1 + k) == Flush(Flush(q, 1), k) && Recent(Flush(q, 1))
  {
    hide RingSize, Signed16, Low16, Low32;
    var d := Low16(q.usedIdx - q.signalledUsed);
    Low16Step(q.usedIdx, 1);
    Low16OfWord(q.usedIdx);
    Low16Step(q.usedIdx + 1, k);
    Low32Step(q.inuse - 1, k);
    if q.signalledValid {
      DistanceStep(q.usedIdx, q.signalledUsed);
      FlushKeepsDecision(d, 1 + k, q.signalledUsed, q.usedIdx);
      FlushKeepsDecision(d, 1, q.signalledUsed, q.usedIdx);
      if d + 1 < SIGNAL_LIMIT {
        FlushKeepsDecision(d + 1, k, q.signalledUsed, Low16(q.usedIdx + 1));
      }
    }
  }

  lemma Low32Step(x: int, k: nat)
    ensures Low32(Low32(x) - k) == Low32(x - k)
  {
  }

  /** The 16-bit distance from the last decision, and one completion later. */
  lemma DistanceStep(used: U16, signalled: U16)
    requires Low16(used - signalled) < SIGNAL_LIMIT
    ensures used == Low16(signalled + Low16(used - signalled))
    ensures Low16(used + 1) == Low16(signalled + Low16(used - signalled) + 1)
    ensures Low16(Low16(used + 1) - signalled) == Low16(used - signalled) + 1
  {
  }

  /** Filling touches only the used ring, so it commutes with a flush up to the offset. */
  lemma FillAfterFlush(q: State, e: UsedElem, from: nat)
    requires q.Shaped() && q.Usable() && from + 1 < WORD16
    ensures Fill(Flush(q, 1), e, from, true) == Flush(Fill(q, e, from + 1, true), 1)
  {
    hide RingSize, Slot, Signed16, Low16;
    FillSlot(q.num, q.usedIdx + 1, from);
    FillSlot(q.num, q.usedIdx, from + 1);
    Low16Step(q.usedIdx, 0);
    Low16Step(q.usedIdx, 1);
    Low16OfWord(q.usedIdx);
  }

  lemma Low16OfWord(x: nat)
    requires x < WORD16
    ensures Low16(x) == x
  {
  }

  lemma {:induction false} FillManyAfterFlush(q: State, elems: seq<UsedElem>, from: nat)
    requires q.Shaped() && q.Usable() && from + |elems| < WORD16
    ensures FillMany(Flush(q, 1), elems, from) == Flush(FillMany(q, elems, from + 1), 1)
    decreases |elems|
  {
    hide RingSize, Fill, Flush;
    if elems != [] {
      FillAfterFlush(q, elems[0], from);
      StillUsable(q, elems[0], from);
      FillManyAfterFlush(Fill(q, elems[0], from + 1, true), elems[1..], from + 1);
      assert Low32(from) == from && Low32(from + 1) == from + 1;
    }
  }

  lemma StillUsable(q: State, e: UsedElem, from: nat)
    requires q.Shaped() && q.Usable() && from + 1 < WORD16
    ensures Flush(q, 1).Usable() && Fill(q, e, from + 1, true).Usable()
  {
    hide RingSize, Signed16, Low16, Slot;
  }

  lemma {:induction false} FillManyKeeps(q: State, elems: seq<UsedElem>, from: nat)
    requires q.Shaped()
    ensures FillMany(q, elems, from) == q.(used := FillMany(q, elems, from).used)
    decreases |elems|
  {
    if elems != [] {
      FillManyKeeps(Fill(q, elems[0], Low32(from), true), elems[1..], from + 1);
    }
  }

  /** Filling at offsets 0, 1, .. and one flush leave the queue exactly as single pushes do. */
  lemma {:induction false} BatchEqualsPushes(q: State, elems: seq<UsedElem>)
    requires q.Shaped() && q.Usable() && Recent(q) && |elems| < WORD16
    ensures Flush(FillMany(q, elems, 0), |elems|) == PushMany(q, elems)
    decreases |elems|
  {
    hide RingSize, Slot, Signed16, Low16, Low32;
    if elems == [] {
      FlushNothing(q);
    } else {
      var e, rest := elems[0], elems[1..];
      var q1 := Fill(q, e, 0, true);
      FillManyKeeps(q1, rest, 1);
      FlushSplits(FillMany(q1, rest, 1), |rest|);
      FillManyAfterFlush(q1, rest, 0);
      FlushSplits(q1, 0);
      BatchEqualsPushes(Push(q, e, true), rest);
      Low32Small(0);
      Low32Small(1);
    }
  }

  lemma FlushNothing(q: State)
    requires q.Shaped() && q.Usable() && Recent(q)
    ensures Flush(q, 0) == q
  {
  }
}
