// The inflight area of one queue, and what a reconnecting backend rebuilds from it.

module Inflight {
  import opened Words

  const COUNTER_SPAN := VIRTQUEUE_MAX_SIZE * 2
  const INFLIGHT_VERSION := 1

  /** The state of one head: `inflight` is 0 or 1, `counter` its place in fetch order. */
  datatype HeadState = HeadState(inflight: nat, counter: nat)

  datatype Area = Area(version: U16, batchHead: U16, loggedUsed: U16, desc: seq<HeadState>)

  datatype Entry = Entry(index: nat, counter: nat)

  /** What recovery computes for the private side of the queue. */
  datatype Restored = Restored(usedIdx: U16, inuse: nat, lastAvail: U16, counter: nat, resubmit: seq<Entry>)

  // ---- The comparator ----------------------------------------------------------------------------------

  /** `inflight_desc_compare` */
  function Compare(a: Entry, b: Entry): int {
    if b.counter > a.counter && b.counter - a.counter < COUNTER_SPAN then 1 else -1
  }

  /** The comparator decides a pair one way and not the other exactly when the counters differ by less
      than the span; for such a pair it puts the later fetch first. */
  lemma CompareDecides(a: Entry, b: Entry)
    requires a.counter != b.counter
    ensures (Compare(a, b) < 0 <==> Compare(b, a) > 0)
      <==> a.counter < b.counter + 2048 && b.counter < a.counter + 2048
    ensures a.counter < b.counter + 2048 && b.counter < a.counter + 2048
      ==> (Compare(a, b) < 0 <==> a.counter > b.counter)
  {
  }

  ghost predicate DistinctCounters(s: seq<Entry>) {
    forall i, j :: 0 <= i < j < |s| ==> s[i].counter != s[j].counter
  }

  ghost predicate SmallSpan(s: seq<Entry>) {
    forall i, j :: 0 <= i < |s| && 0 <= j < |s| ==> s[i].counter < s[j].counter + COUNTER_SPAN
  }

  ghost predicate Descending(s: seq<Entry>) {
    forall i, j :: 0 <= i < j < |s| ==> s[i].counter > s[j].counter
  }

  /** Sorted as the comparator sees it. */
  ghost predicate InOrder(s: seq<Entry>) {
    forall i, j :: 0 <= i < j < |s| ==> Compare(s[i], s[j]) < 0
  }

  /** On distinct counters of small span, the comparator's order is descending counters. */
  lemma OrderIsDescending(s: seq<Entry>)
    requires DistinctCounters(s) && SmallSpan(s)
    ensures InOrder(s) <==> Descending(s)
  {
  }

  function Insert(e: Entry, s: seq<Entry>): (r: seq<Entry>)
    ensures multiset(r) == multiset(s) + multiset{e}
  {
    if s == [] then [e]
    else if Compare(e, s[0]) < 0 then [e] + s
    else
      assert s == [s[0]] + s[1..];
      [s[0]] + Insert(e, s[1..])
  }

  /** Stands in for the C library's `qsort`; `SortUnique` shows that the choice makes no difference. */
  function Sort(s: seq<Entry>): (r: seq<Entry>)
    ensures multiset(r) == multiset(s)
  {
    if s == [] then []
    else
      assert s == [s[0]] + s[1..];
      Insert(s[0], Sort(s[1..]))
  }

  lemma SameMembers(a: seq<Entry>, b: seq<Entry>)
    requires multiset(a) == multiset(b)
    ensures |a| == |b| && forall e :: e in a <==> e in b
  {
    assert |a| == |multiset(a)| && |b| == |multiset(b)|;
    forall e ensures e in a <==> e in b {
      assert e in a <==> e in multiset(a);
      assert e in b <==> e in multiset(b);
    }
  }

  /** Distinctness and span by members rather than positions. */
  ghost predicate Spread(s: seq<Entry>) {
    forall a, b :: a in s && b in s ==> a.counter < b.counter + COUNTER_SPAN
  }

  lemma DescendingCons(e: Entry, t: seq<Entry>)
    ensures Descending([e] + t) <==> Descending(t) && forall x :: x in t ==> e.counter > x.counter
  {
    var s := [e] + t;
    if Descending(s) {
      forall x | x in t ensures e.counter > x.counter {
        var k :| 0 <= k < |t| && t[k] == x;
        assert s[0].counter > s[k + 1].counter;
      }
      forall i, j | 0 <= i < j < |t| ensures t[i].counter > t[j].counter {
        assert s[i + 1].counter > s[j + 1].counter;
      }
    }
  }

  lemma InsertMembers(e: Entry, s: seq<Entry>)
    ensures forall x :: x in Insert(e, s) <==> x in s || x == e
  {
    SameMembers(Insert(e, s), s + [e]);
  }

  lemma {:induction false} InsertDescends(e: Entry, s: seq<Entry>)
    requires Descending(s) && Spread(s + [e]) && forall x :: x in s ==> x.counter != e.counter
    ensures Descending(Insert(e, s))
  {
    hide Descending, Spread;
    if s == [] {
      DescendingCons(e, []);
      assert [e] + [] == [e];
      assert Descending([]) by { DescendingNone(); }
    } else {
      var rest := s[1..];
      assert s == [s[0]] + rest;
      DescendingCons(s[0], rest);
      SpreadPart(s + [e], [s[0], e]);
      SpreadPair(s[0], e);
      if Compare(e, s[0]) < 0 {
        DescendingCons(e, s);
      } else {
        SpreadPart(s + [e], rest + [e]);
        InsertDescends(e, rest);
        InsertMembers(e, rest);
        DescendingCons(s[0], Insert(e, rest));
      }
    }
  }

  lemma DescendingNone()
    ensures Descending([])
  {
  }

  lemma SpreadPair(a: Entry, b: Entry)
    requires Spread([a, b]) && a.counter != b.counter
    ensures Compare(b, a) < 0 <==> b.counter > a.counter
  {
    assert a in [a, b] && b in [a, b];
  }

  lemma SpreadPart(s: seq<Entry>, t: seq<Entry>)
    requires Spread(s) && forall x :: x in t ==> x in s
    ensures Spread(t)
  {
  }

  lemma {:induction false} SortDescends(s: seq<Entry>)
    requires DistinctCounters(s) && Spread(s)
    ensures Descending(Sort(s))
  {
    if s != [] {
      var rest := s[1..];
      assert s == [s[0]] + rest;
      SpreadPart(s, rest);
      SortDescends(rest);
      SameMembers(Sort(rest), rest);
      SpreadPart(s, Sort(rest) + [s[0]]);
      forall x | x in Sort(rest) ensures x.counter != s[0].counter {
        var k :| 0 <= k < |rest| && rest[k] == x;
        assert rest[k] == s[k + 1];
      }
      InsertDescends(s[0], Sort(rest));
    }
  }

  /** There is only one descending arrangement. */
  lemma {:induction false} DescendingUnique(a: seq<Entry>, b: seq<Entry>)
    requires multiset(a) == multiset(b) && Descending(a) && Descending(b)
    ensures a == b
  {
    hide Descending;
    SameMembers(a, b);
    if a != [] {
      SameTop(a, b);
      TailMultiset(a);
      TailMultiset(b);
      DescendingUnique(a[1..], b[1..]);
      assert a == [a[0]] + a[1..] && b == [b[0]] + b[1..];
    }
  }

  lemma SameTop(a: seq<Entry>, b: seq<Entry>)
    requires a != [] && b != [] && Descending(a) && Descending(b)
    requires forall e :: e in a <==> e in b
    ensures a[0] == b[0] && Descending(a[1..]) && Descending(b[1..])
  {
    hide Descending;
    DescendingCons(a[0], a[1..]);
    DescendingCons(b[0], b[1..]);
    assert a == [a[0]] + a[1..] && b == [b[0]] + b[1..];
    assert a[0] in b && b[0] in a;
  }

  lemma TailMultiset(a: seq<Entry>)
    requires a != []
    ensures multiset(a[1..]) == multiset(a) - multiset{a[0]}
  {
    assert a == [a[0]] + a[1..];
  }

  lemma TwiceIn(s: seq<Entry>, i: nat, j: nat)
    requires i < j < |s| && s[i] == s[j]
    ensures multiset(s)[s[i]] >= 2
  {
    assert s == s[..i] + [s[i]] + s[i + 1..j] + [s[j]] + s[j + 1..];
  }

  lemma OnceByCounter(s: seq<Entry>, e: Entry)
    requires DistinctCounters(s)
    ensures multiset(s)[e] <= 1
  {
    if e in s {
      var k :| 0 <= k < |s| && s[k] == e;
      assert s == s[..k] + [s[k]] + s[k + 1..];
      assert e !in s[..k] && e !in s[k + 1..];
    }
  }

  /** A permutation of a list with distinct counters has distinct counters. */
  lemma DistinctPermuted(s: seq<Entry>, r: seq<Entry>)
    requires multiset(r) == multiset(s) && DistinctCounters(s)
    ensures DistinctCounters(r)
  {
    SameMembers(r, s);
    forall i, j | 0 <= i < j < |r| ensures r[i].counter != r[j].counter {
      assert r[i] in s && r[j] in s;
      if r[i] == r[j] {
        TwiceIn(r, i, j);
        OnceByCounter(s, r[i]);
      }
    }
  }

  /** Whatever sorting algorithm runs, the comparator admits one result only. */
  lemma SortUnique(s: seq<Entry>, r: seq<Entry>)
    requires DistinctCounters(s) && Spread(s)
    requires multiset(r) == multiset(s) && InOrder(r)
    ensures r == Sort(s) && Descending(r)
  {
    SameMembers(r, s);
    SpreadPart(s, r);
    DistinctPermuted(s, r);
    OrderIsDescending(r);
    SortDescends(s);
    DescendingUnique(r, Sort(s));
  }

  // ---- Collecting what is in flight ---------------------------------------------------------------------

  function CountOnes(desc: seq<HeadState>): nat {
    if desc == [] then 0
    else CountOnes(desc[..|desc| - 1]) + (if desc[|desc| - 1].inflight == 1 then 1 else 0)
  }

  function Collect(desc: seq<HeadState>): (r: seq<Entry>)
    ensures forall e :: e in r <==>
      e.index < |desc| && desc[e.index].inflight != 0 && e.counter == desc[e.index].counter
    ensures forall i, j :: 0 <= i < j < |r| ==> r[i].index < r[j].index
  {
    if desc == [] then []
    else
      var last := |desc| - 1;
      Collect(desc[..last]) + (if desc[last].inflight != 0 then [Entry(last, desc[last].counter)] else [])
  }

  /** The heads marked in flight. */
  function MarkedHeads(desc: seq<HeadState>): set<nat> {
    set h | 0 <= h < |desc| && desc[h].inflight == 1
  }

  lemma {:induction false} CountIsMarked(desc: seq<HeadState>)
    ensures CountOnes(desc) == |MarkedHeads(desc)|
  {
    if desc == [] {
      assert MarkedHeads(desc) == {};
    } else {
      var last := |desc| - 1;
      var front := desc[..last];
      CountIsMarked(front);
      assert MarkedHeads(desc) == MarkedHeads(front) + (if desc[last].inflight == 1 then {last} else {});
      assert last !in MarkedHeads(front);
    }
  }

  lemma {:induction false} CollectCounts(desc: seq<HeadState>)
    requires forall h :: 0 <= h < |desc| ==> desc[h].inflight <= 1
    ensures |Collect(desc)| == CountOnes(desc)
  {
    if desc != [] {
      CollectCounts(desc[..|desc| - 1]);
    }
  }

  /** The scan of `vu_check_queue_inflights`, after the area is consistent; `inuse` is what the queue
      counted before. */
  function Scan(area: Area, usedMem: U16, inuse: nat): Restored {
    var n := inuse + CountOnes(area.desc);
    var list := if n == 0 then [] else Sort(Collect(area.desc));
    Restored(usedMem, n, Low16(n + usedMem),
             if n == 0 then 0 else if list == [] then 1 else list[0].counter + 1, list)
  }

  // ---- The single stores into the area ------------------------------------------------------------------

  /** Both stores of `vu_queue_inflight_get`, one at a time. */
  function StoreCounter(area: Area, head: nat, counter: nat): Area
    requires head < |area.desc|
  {
    area.(desc := area.desc[head := area.desc[head].(counter := counter)])
  }

  function StoreMark(area: Area, head: nat): Area
    requires head < |area.desc|
  {
    area.(desc := area.desc[head := area.desc[head].(inflight := 1)])
  }

  /** The store of `vu_queue_inflight_pre_put`. */
  function StoreBatch(area: Area, head: U16): Area {
    area.(batchHead := head)
  }

  /** The first store of `vu_queue_inflight_post_put`; the second is `SyncUsed`. */
  function StoreUnmark(area: Area, head: nat): Area
    requires head < |area.desc|
  {
    area.(desc := area.desc[head := area.desc[head].(inflight := 0)])
  }

  /** The first of the two stores that repair an interrupted completion. */
  function ClearBatch(area: Area): Area
    requires area.batchHead < |area.desc|
  {
    StoreUnmark(area, area.batchHead)
  }

  /** The second. */
  function SyncUsed(area: Area, usedMem: U16): Area {
    area.(loggedUsed := usedMem)
  }

  /** The head to unmark is looked at only when the area lags behind the used ring. */
  predicate Repairable(area: Area, usedMem: U16) {
    area.loggedUsed != usedMem ==> area.batchHead < |area.desc|
  }

  function Repair(area: Area, usedMem: U16): Area
    requires Repairable(area, usedMem)
  {
    if area.loggedUsed != usedMem then SyncUsed(ClearBatch(area), usedMem) else area
  }

  /** Recovery restores the fetch counter exactly when the queue counted nothing before: with the marks
      of the fetched but uncompleted requests in place, `last_avail_idx` is the number fetched. */
  lemma ScanRestoresExactly(area: Area, completed: nat, fetched: nat, inuse: nat)
    requires CountOnes(area.desc) + completed == fetched
    ensures Scan(area, Low16(completed), inuse).lastAvail == Low16(fetched) <==> Low16(inuse) == 0
    ensures Scan(area, Low16(completed), 0).inuse == fetched - completed
  {
    hide Sort, Collect, CountOnes, Low16;
    ShiftedCount(inuse, CountOnes(area.desc), completed);
  }

  /** A fresh queue recovers into a conserved state. */
  lemma ScanConserves(area: Area, usedMem: U16)
    ensures var r := Scan(area, usedMem, 0);
            r.lastAvail == Low16(r.usedIdx + r.inuse) && r.inuse <= |area.desc|
  {
    hide Sort, Collect, Low16;
    CountBounded(area.desc);
  }

  lemma {:induction false} CountBounded(desc: seq<HeadState>)
    ensures CountOnes(desc) <= |desc|
  {
    if desc != [] {
      CountBounded(desc[..|desc| - 1]);
    }
  }

  lemma ShiftedCount(extra: nat, k: nat, completed: nat)
    ensures Low16(extra + k + Low16(completed)) == Low16(k + completed) <==> Low16(extra) == 0
  {
  }

  /** With distinct counters of small span, the list is popped from its end in fetch order, every marked
      head is on it once, and the restored counter is the one after the newest of theirs. */
  lemma ScanReplaysFetchOrder(area: Area, usedMem: U16, inuse: nat)
    requires forall h :: 0 <= h < |area.desc| ==> area.desc[h].inflight <= 1
    requires DistinctCounters(Collect(area.desc)) && Spread(Collect(area.desc))
    ensures var r := Scan(area, usedMem, inuse);
            Descending(r.resubmit)
            && (forall e :: e in r.resubmit <==>
                  e.index in MarkedHeads(area.desc) && e.counter == area.desc[e.index].counter)
            && |r.resubmit| == |MarkedHeads(area.desc)|
            && (forall h :: h in MarkedHeads(area.desc) ==> area.desc[h].counter < r.counter)
            && (MarkedHeads(area.desc) != {} ==>
                  exists h :: h in MarkedHeads(area.desc) && r.counter == area.desc[h].counter + 1)
            && (MarkedHeads(area.desc) == {} ==> r.counter == if inuse == 0 then 0 else 1)
  {
    hide Descending, DistinctCounters, Spread, Sort;
    var c := Collect(area.desc);
    CollectCounts(area.desc);
    CountIsMarked(area.desc);
    SortDescends(c);
    SameMembers(Sort(c), c);
    SortNone();
    if c == [] {
      assert Collect(area.desc) == [];
    } else {
      TopOfDescending(Sort(c));
    }
    forall h | h in MarkedHeads(area.desc)
      ensures area.desc[h].counter < Scan(area, usedMem, inuse).counter
    {
      assert Entry(h, area.desc[h].counter) in c;
    }
  }

  lemma SortNone()
    ensures Sort([]) == [] && Descending([])
  {
  }

  lemma TopOfDescending(s: seq<Entry>)
    requires s != [] && Descending(s)
    ensures forall e :: e in s ==> e.counter <= s[0].counter
  {
    forall e | e in s ensures e.counter <= s[0].counter {
      var k :| 0 <= k < |s| && s[k] == e;
      if k > 0 {
        assert s[0].counter > s[k].counter;
      }
    }
  }

  // ---- In place --------------------------------------------------------------------------------------------

  /** The inflight side of `VuVirtq`: the shared area, the used index in memory, the private fields. */
  class Tracker {
    const feature: bool
    const attached: bool
    const desc: array<HeadState>
    var version: U16
    var batchHead: U16
    var loggedUsed: U16
    var usedMem: U16
    var usedIdx: U16
    var inuse: nat
    var lastAvail: U16
    var shadowAvail: U16
    var counter: nat
    var resubmitList: seq<Entry>
    var kick: bool

    ghost function Shared(): Area
      reads this, desc
    {
      Area(version, batchHead, loggedUsed, desc[..])
    }

    ghost function Private(): Restored
      reads this
    {
      Restored(usedIdx, inuse, lastAvail, counter, resubmitList)
    }

    ghost predicate On() {
      feature && attached
    }

    /** `vu_queue_inflight_get` */
    method InflightGet(head: nat) returns (rc: int)
      requires head < desc.Length
      modifies this`counter, desc
      ensures !feature || !attached ==> Shared() == old(Shared())
      ensures rc == if feature && !attached then -1 else 0
      ensures counter == old(counter) + (if On() then 1 else 0)
      ensures Shared()
        == if On() then StoreMark(StoreCounter(old(Shared()), head, old(counter)), head) else old(Shared())
    {
      if !feature {
        return 0;
      }
      if !attached {
        return -1;
      }
      desc[head] := desc[head].(counter := counter);
      counter := counter + 1;
      desc[head] := desc[head].(inflight := 1);
      return 0;
    }

    /** `vu_queue_inflight_pre_put` */
    method InflightPrePut(head: U16) returns (rc: int)
      modifies this`batchHead
      ensures !feature || !attached ==> Shared() == old(Shared())
      ensures rc == if feature && !attached then -1 else 0
      ensures Shared() == if On() then StoreBatch(old(Shared()), head) else old(Shared())
    {
      if !feature {
        return 0;
      }
      if !attached {
        return -1;
      }
      batchHead := head;
      return 0;
    }

    /** `vu_queue_inflight_post_put` */
    method InflightPostPut(head: nat) returns (rc: int)
      requires head < desc.Length
      modifies this`loggedUsed, desc
      ensures !feature || !attached ==> Shared() == old(Shared())
      ensures rc == if feature && !attached then -1 else 0
      ensures Shared() == if On() then SyncUsed(StoreUnmark(old(Shared()), head), usedIdx) else old(Shared())
    {
      if !feature {
        return 0;
      }
      if !attached {
        return -1;
      }
      desc[head] := desc[head].(inflight := 0);
      loggedUsed := usedIdx;
      return 0;
    }

    /** `vu_check_queue_inflights`; the parameters say whether the list can be allocated and whether
        the queue's own kick can be written. */
    method CheckQueueInflights(allocates: bool, kicks: bool) returns (rc: int)
      requires On() && version != 0 ==> Repairable(Shared(), usedMem)
      modifies this, desc
      ensures !feature ==> rc == 0 && Shared() == old(Shared()) && Private() == old(Private())
      ensures feature && !attached ==> rc == -1 && Shared() == old(Shared()) && Private() == old(Private())
      ensures On() && old(version) == 0 ==>
        rc == 0 && Shared() == old(Shared()).(version := INFLIGHT_VERSION) && Private() == old(Private())
      ensures On() && old(version) != 0 ==>
        usedMem == old(usedMem) && Shared() == Repair(old(Shared()), old(usedMem))
        && (rc == 0 <==> kicks && (allocates || Scan(Shared(), usedMem, old(inuse)).inuse == 0))
        && (rc == 0 ==> Private() == Scan(Shared(), usedMem, old(inuse)) && shadowAvail == lastAvail && kick)
    {
      hide Scan;
      if !feature {
        return 0;
      }
      if !attached {
        return -1;
      }
      if version == 0 {
        version := INFLIGHT_VERSION;
        return 0;
      }
      RepairArea();
      rc := Rebuild(allocates, kicks);
    }

    /** Agree with the driver on what was completed: the two repairing stores. */
    method RepairArea()
      requires Repairable(Shared(), usedMem)
      modifies this`usedIdx, this`loggedUsed, desc
      ensures usedIdx == usedMem
      ensures if old(loggedUsed) != usedMem then Shared() == Repair(old(Shared()), usedMem)
              else Shared() == old(Shared())
    {
      usedIdx := usedMem;
      if loggedUsed != usedIdx {
        desc[batchHead] := desc[batchHead].(inflight := 0);
        loggedUsed := usedIdx;
      }
    }

    /** Rebuild the private fields from the repaired area. */
    method Rebuild(allocates: bool, kicks: bool) returns (rc: int)
      requires usedIdx == usedMem
      modifies this`inuse, this`lastAvail, this`shadowAvail, this`counter, this`resubmitList, this`kick
      ensures rc == 0 <==> kicks && (allocates || Scan(Shared(), usedMem, old(inuse)).inuse == 0)
      ensures rc == 0 ==> Private() == Scan(Shared(), usedMem, old(inuse)) && shadowAvail == lastAvail && kick
      ensures rc == 0 || rc == -1
    {
      hide Sort, Low16, CountOnes, Collect;
      resubmitList := [];
      counter := 0;
      var ones := CountInflight();
      inuse := inuse + ones;
      lastAvail := Low16(inuse + usedIdx);
      shadowAvail := lastAvail;
      if inuse != 0 {
        if !allocates {
          return -1;
        }
        ReplayList();
      }
      if !kicks {
        return -1;
      }
      kick := true;
      return 0;
    }

    /** The list to resubmit, and a counter past the newest on it. */
    method ReplayList()
      modifies this`counter, this`resubmitList
      ensures resubmitList == Sort(Collect(desc[..]))
      ensures counter == if resubmitList == [] then 1 else resubmitList[0].counter + 1
    {
      hide Sort, Collect;
      var list := CollectInflight();
      resubmitList := Sort(list);
      counter := if resubmitList == [] then 1 else resubmitList[0].counter + 1;
    }

    method CountInflight() returns (n: nat)
      ensures n == CountOnes(desc[..])
    {
      n := 0;
      for i := 0 to desc.Length
        invariant n == CountOnes(desc[..i])
      {
        assert desc[..i + 1][..i] == desc[..i];
        if desc[i].inflight == 1 {
          n := n + 1;
        }
      }
      assert desc[..desc.Length] == desc[..];
    }

    method CollectInflight() returns (list: seq<Entry>)
      ensures list == Collect(desc[..])
    {
      list := [];
      for i := 0 to desc.Length
        invariant list == Collect(desc[..i])
      {
        assert desc[..i + 1][..i] == desc[..i];
        if desc[i].inflight != 0 {
          list := list + [Entry(i, desc[i].counter)];
        }
      }
      assert desc[..desc.Length] == desc[..];
    }
  }
}
