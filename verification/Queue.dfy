// The device side of one split virtqueue: the queue operations of libvhost-user on the fields of
// VuVirtq and on the two rings it shares with the driver.

module Queue {
  import opened Words

  const SIGNAL_LIMIT := 0x8000

  /** An entry of the used ring: the head of a completed chain and the bytes written to it. */
  datatype UsedElem = UsedElem(id: U32, len: U32)

  /** What mapping a chain came to: mapped, refused with a panic, or out of memory. */
  datatype MapResult = Mapped | Refused | NoMemory

  /** One queue as a value: shared memory first, then the private fields, then what was negotiated.
      `avail` holds the ring and, past its last slot, the driver's `used_event` word. `resubmit` holds
      the heads recovery found in flight; they are popped from its end. */
  datatype State = State(
    num: nat,
    avail: seq<U16>, availIdx: U16, noInterrupt: bool,
    used: seq<UsedElem>, usedMem: U16, availEvent: U16, noNotify: bool,
    lastAvail: U16, shadowAvail: U16, usedIdx: U16,
    signalledUsed: U16, signalledValid: bool, notification: bool,
    inuse: U32, resubmit: seq<U16>,
    mapped: bool, broken: bool,
    notifyOnEmpty: bool, eventIdx: bool)
  {
    ghost predicate Shaped() {
      RingSize(num) && |avail| == num + 1 && |used| == num
    }

    /** The operation that led to `after` changed no size. */
    ghost predicate Keeps(after: State) {
      after.num == num && |after.avail| == |avail| && |after.used| == |used|
    }

    predicate Usable() {
      !broken && mapped
    }
  }

  /** `vu_queue_empty`: the cached index answers when it can; only otherwise is memory read. */
  function Empty(q: State): (r: (State, bool))
    ensures q.Keeps(r.0)
  {
    if !q.Usable() then (q, true)
    else if q.shadowAvail != q.lastAvail then (q, false)
    else (q.(shadowAvail := q.availIdx), q.availIdx == q.lastAvail)
  }

  /** What `vu_queue_get_avail_bytes` leaves behind: each look at the available index refreshes the cache. */
  function Survey(q: State): (r: State)
    ensures q.Keeps(r)
  {
    if q.Usable() then q.(shadowAvail := q.availIdx) else q
  }

  function SetAvailEvent(q: State, val: U16): (r: State)
    ensures q.Keeps(r)
  {
    if q.notification then q.(availEvent := val) else q
  }

  function Deliver(q: State, head: U16, m: MapResult): (r: (State, Option<U16>))
    ensures q.Keeps(r.0)
  {
    match m
    case Mapped => (q, Some(head))
    case Refused => (q.(broken := true), None)
    case NoMemory => (q, None)
  }

  /** The branch of `vu_queue_pop` that hands out what recovery found in flight. */
  function PopResubmitted(q: State, m: MapResult): (r: (State, Option<U16>))
    requires |q.resubmit| > 0
    ensures q.Keeps(r.0)
  {
    var i := |q.resubmit| - 1;
    Deliver(q.(resubmit := q.resubmit[..i]), q.resubmit[i], m)
  }

  /** What `vu_queue_pop` does with a head it has checked: publish the event, map, count. */
  function Accept(q: State, head: U16, m: MapResult): (r: (State, Option<U16>))
    ensures q.Keeps(r.0)
  {
    var q1 := if q.eventIdx then SetAvailEvent(q, q.lastAvail) else q;
    Deliver(if m.Mapped? then q1.(inuse := Low32(q1.inuse + 1)) else q1, head, m)
  }

  /** The branch of `vu_queue_pop` that takes the next entry of a non-empty available ring. */
  function TakeNext(q: State, m: MapResult): (r: (State, Option<U16>))
    requires q.Shaped()
    ensures q.Keeps(r.0)
  {
    if q.inuse >= q.num then (q.(broken := true), None)
    else
      var head := q.avail[Slot(q.lastAvail, q.num)];
      var q1 := q.(lastAvail := Low16(q.lastAvail + 1));
      if head >= q.num then (q1.(broken := true), None) else Accept(q1, head, m)
  }

  /** `vu_queue_pop`, given how mapping the chain ends. */
  function Pop(q: State, m: MapResult): (r: (State, Option<U16>))
    requires q.Shaped()
    ensures q.Keeps(r.0)
  {
    if !q.Usable() then (q, None)
    else if |q.resubmit| > 0 then PopResubmitted(q, m)
    else
      var (q1, empty) := Empty(q);
      if empty then (q1, None) else TakeNext(q1, m)
  }

  function Unpop(q: State): (r: State)
    ensures q.Keeps(r)
  {
    q.(lastAvail := Low16(q.lastAvail - 1), inuse := Low32(q.inuse - 1))
  }

  function Rewind(q: State, n: U32): (r: (State, bool))
    ensures q.Keeps(r.0)
  {
    if n > q.inuse then (q, false)
    else (q.(lastAvail := Low16(q.lastAvail - n), inuse := q.inuse - n), true)
  }

  /** `vu_queue_fill`; `walked` says whether the dirty-log walk over the chain ended without a panic. */
  function Fill(q: State, elem: UsedElem, idx: U32, walked: bool): (r: State)
    requires q.Shaped()
    ensures q.Keeps(r)
  {
    if !q.Usable() then q
    else q.(used := q.used[Slot(Low32(idx + q.usedIdx), q.num) := elem], broken := !walked)
  }

  function Flush(q: State, count: U32): (r: State)
    ensures q.Keeps(r)
  {
    if !q.Usable() then q
    else
      var next := Low16(q.usedIdx + count);
      q.(usedMem := next, usedIdx := next, inuse := Low32(q.inuse - count),
         signalledValid := q.signalledValid
           && !(Signed16(Low16(next - q.signalledUsed)) < Low16(next - q.usedIdx)))
  }

  function Push(q: State, elem: UsedElem, walked: bool): (r: State)
    requires q.Shaped()
    ensures q.Keeps(r)
  {
    Flush(Fill(q, elem, 0, walked), 1)
  }

  /** `vu_queue_notify`: the new state and whether the driver is interrupted. */
  function Notify(q: State): (r: (State, bool))
    requires q.Shaped()
    ensures q.Keeps(r.0)
  {
    if !q.Usable() then (q, false)
    else if q.notifyOnEmpty && q.inuse == 0 && Empty(q).1 then (Empty(q).0, true)
    else
      var q1 := if q.notifyOnEmpty && q.inuse == 0 then Empty(q).0 else q;
      if !q1.eventIdx then (q1, !q1.noInterrupt)
      else (q1.(signalledValid := true, signalledUsed := q1.usedIdx),
            !q1.signalledValid || NeedEvent(q1.avail[q1.num], q1.usedIdx, q1.signalledUsed))
  }

  function SetNotification(q: State, enable: bool): (r: State)
    ensures q.Keeps(r)
  {
    var q1 := q.(notification := enable);
    if q1.eventIdx then SetAvailEvent(q1.(shadowAvail := q1.availIdx), q1.availIdx)
    else q1.(noNotify := !enable)
  }

  /** `struct VuVirtq`. The methods run the operations in place; each is proved to do to `View()`
      exactly what the function of the same name says. */
  class VuVirtq {
    const num: nat
    const avail: array<U16>
    const used: array<UsedElem>
    const mapped: bool
    const notifyOnEmpty: bool
    const eventIdx: bool
    var availIdx: U16
    var noInterrupt: bool
    var usedMem: U16
    var availEvent: U16
    var noNotify: bool
    var lastAvail: U16
    var shadowAvail: U16
    var usedIdx: U16
    var signalledUsed: U16
    var signalledValid: bool
    var notification: bool
    var inuse: U32
    var resubmitList: seq<U16>
    var resubmitNum: nat
    var broken: bool

    ghost predicate Valid()
      reads this
    {
      RingSize(num) && avail.Length == num + 1 && used.Length == num && resubmitNum <= |resubmitList|
    }

    ghost function View(): (q: State)
      requires Valid()
      reads this, avail, used
      ensures q.Shaped()
    {
      State(num, avail[..], availIdx, noInterrupt, used[..], usedMem, availEvent, noNotify,
            lastAvail, shadowAvail, usedIdx, signalledUsed, signalledValid, notification,
            inuse, resubmitList[..resubmitNum], mapped, broken, notifyOnEmpty, eventIdx)
    }

    method VuQueueEmpty() returns (empty: bool)
      requires Valid()
      modifies this`shadowAvail
      ensures Valid() && (View(), empty) == Empty(old(View()))
    {
      if broken || !mapped {
        return true;
      }
      if shadowAvail != lastAvail {
        return false;
      }
      shadowAvail := availIdx;
      return shadowAvail == lastAvail;
    }

    method VringSetAvailEvent(val: U16)
      requires Valid()
      modifies this`availEvent
      ensures Valid() && View() == SetAvailEvent(old(View()), val)
    {
      if !notification {
        return;
      }
      availEvent := val;
    }

    method NextResubmitted(m: MapResult) returns (head: Option<U16>)
      requires Valid() && resubmitNum > 0
      modifies this`resubmitNum, this`resubmitList, this`broken
      ensures Valid() && (View(), head) == PopResubmitted(old(View()), m)
    {
      hide RingSize;
      resubmitNum := resubmitNum - 1;
      var h := resubmitList[resubmitNum];
      assert resubmitList[..resubmitNum + 1][..resubmitNum] == resubmitList[..resubmitNum];
      if resubmitNum == 0 {
        resubmitList := [];
      }
      if m.Refused? {
        broken := true;
      }
      return if m.Mapped? then Some(h) else None;
    }

    method AcceptHead(h: U16, m: MapResult) returns (head: Option<U16>)
      requires Valid()
      modifies this`availEvent, this`inuse, this`broken
      ensures Valid() && (View(), head) == Accept(old(View()), h, m)
    {
      hide Low32, RingSize;
      if eventIdx {
        VringSetAvailEvent(lastAvail);
      }
      if m.Refused? {
        broken := true;
      }
      if !m.Mapped? {
        return None;
      }
      inuse := Low32(inuse + 1);
      return Some(h);
    }

    method NextAvailable(m: MapResult) returns (head: Option<U16>)
      requires Valid()
      modifies this`lastAvail, this`availEvent, this`inuse, this`broken
      ensures Valid() && (View(), head) == TakeNext(old(View()), m)
    {
      hide Slot, Low16, Accept, RingSize;
      if inuse >= num {
        broken := true;
        return None;
      }
      var h := avail[Slot(lastAvail, num)];
      lastAvail := Low16(lastAvail + 1);
      if h >= num {
        broken := true;
        return None;
      }
      head := AcceptHead(h, m);
    }

    method VuQueuePop(m: MapResult) returns (head: Option<U16>)
      requires Valid()
      modifies this
      ensures Valid() && (View(), head) == Pop(old(View()), m)
    {
      if broken || !mapped {
        return None;
      }
      if resubmitNum > 0 {
        head := NextResubmitted(m);
        return;
      }
      var empty := VuQueueEmpty();
      if empty {
        return None;
      }
      head := NextAvailable(m);
    }

    method VuQueueUnpop()
      requires Valid()
      modifies this`lastAvail, this`inuse
      ensures Valid() && View() == Unpop(old(View()))
    {
      lastAvail := Low16(lastAvail - 1);
      inuse := Low32(inuse - 1);
    }

    method VuQueueRewind(n: U32) returns (ok: bool)
      requires Valid()
      modifies this`lastAvail, this`inuse
      ensures Valid() && (View(), ok) == Rewind(old(View()), n)
    {
      if n > inuse {
        return false;
      }
      lastAvail := Low16(lastAvail - n);
      inuse := inuse - n;
      return true;
    }

    method VuQueueFill(elem: UsedElem, idx: U32, walked: bool)
      requires Valid()
      modifies this`broken, used
      ensures Valid() && View() == Fill(old(View()), elem, idx, walked)
    {
      if broken || !mapped {
        return;
      }
      if !walked {
        broken := true;
      }
      used[Slot(Low32(idx + usedIdx), num)] := elem;
    }

    method VuQueueFlush(count: U32)
      requires Valid()
      modifies this
      ensures Valid() && View() == Flush(old(View()), count)
    {
      hide Signed16, Low16, Low32, RingSize;
      if broken || !mapped {
        return;
      }
      var prev := usedIdx;
      var next := Low16(prev + count);
      usedMem := next;
      usedIdx := next;
      inuse := Low32(inuse - count);
      if Signed16(Low16(next - signalledUsed)) < Low16(next - prev) {
        signalledValid := false;
      }
    }

    method VuQueuePush(elem: UsedElem, walked: bool)
      requires Valid()
      modifies this, used
      ensures Valid() && View() == Push(old(View()), elem, walked)
    {
      VuQueueFill(elem, 0, walked);
      VuQueueFlush(1);
    }

    method VringNotify() returns (yes: bool)
      requires Valid() && View().Usable()
      modifies this
      ensures Valid() && (View(), yes) == Notify(old(View()))
    {
      if notifyOnEmpty && inuse == 0 {
        var empty := VuQueueEmpty();
        if empty {
          return true;
        }
      }
      if !eventIdx {
        return !noInterrupt;
      }
      var v := signalledValid;
      signalledValid := true;
      var prev := signalledUsed;
      signalledUsed := usedIdx;
      return !v || NeedEvent(avail[num], usedIdx, prev);
    }

    method VuQueueNotify() returns (yes: bool)
      requires Valid()
      modifies this
      ensures Valid() && (View(), yes) == Notify(old(View()))
    {
      if broken || !mapped {
        return false;
      }
      yes := VringNotify();
    }

    method VuQueueSetNotification(enable: bool)
      requires Valid()
      modifies this
      ensures Valid() && View() == SetNotification(old(View()), enable)
    {
      hide RingSize;
      notification := enable;
      if eventIdx {
        shadowAvail := availIdx;
        VringSetAvailEvent(shadowAvail);
      } else if enable {
        noNotify := false;
      } else {
        noNotify := true;
      }
    }
  }
}
