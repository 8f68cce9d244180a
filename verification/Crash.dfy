// Exactly-once completion across backend crashes. Every store into memory that survives the backend is
// one step; a crash may come between any two, and the driver may act between any two.

module Crash {
  import opened Words
  import opened Inflight
  import opened Sets

  /** Where the backend is. `Got` .. `Counted` are inside a pop, `Filled` .. `Unmarked` inside a push,
      `Connect` .. `Repaired` inside recovery. */
  datatype Pc =
    | Down
    | Connect | Cleared | Repaired
    | Idle
    | Got(head: nat) | Counted(head: nat)
    | Filled(head: nat) | Tagged(head: nat) | Indexed(head: nat) | Unmarked(head: nat)

  /** The private fields: lost in a crash. `held` are the heads the device works on. */
  datatype Private = Private(
    lastAvail: U16, usedIdx: U16, inuse: nat, counter: nat, resubmit: seq<nat>, held: set<nat>)

  const FRESH := Private(0, 0, 0, 0, [], {})

  /** Before recovery a new backend knows the used index: it reads it from the ring, and it is also the base
      that the front end gives it. */
  function Restarted(usedMem: U16): Private {
    FRESH.(lastAvail := usedMem, usedIdx := usedMem)
  }

  /** One queue. `ring`, `used`, `usedMem` and `area` are the memory that survives. The rest of the first
      two lines is history: every request published, the requests completed in order, how many were
      fetched, and the fetched, uncompleted request of each head. */
  datatype State = State(
    num: nat, published: seq<nat>, completed: seq<nat>, fetched: nat, open: map<nat, nat>,
    ring: seq<nat>, used: seq<nat>, usedMem: U16, area: Area,
    pc: Pc, pv: Private)

  /** `FailResubmitted` and `FailPop` are the two ways a pop ends when it cannot allocate its element: nothing
      is marked, no panic is raised, and the list entry or the ring entry has been passed over. */
  datatype Step =
    | Publish(head: nat)
    | Crash
    | Restart
    | TakeResubmitted
    | BeginPop
    | BeginPush(head: nat)
    | Continue
    | FailResubmitted
    | FailPop

  // ---- Steps ---------------------------------------------------------------------------------------------

  /** The request is published and not completed. */
  ghost predicate Outstanding(s: State, head: nat) {
    exists p :: 0 <= p < |s.published| && s.published[p] == head && p !in s.completed
  }

  /** The newest request of a head. */
  function Latest(published: seq<nat>, head: nat): (p: nat)
    requires head in published
    ensures p < |published| && published[p] == head
    ensures forall q :: p < q < |published| ==> published[q] != head
  {
    var last := |published| - 1;
    if published[last] == head then last else Latest(published[..last], head)
  }

  /** The head being popped or pushed, if any. */
  function HeadOf(pc: Pc): nat {
    match pc
    case Got(h) => h
    case Counted(h) => h
    case Filled(h) => h
    case Tagged(h) => h
    case Indexed(h) => h
    case Unmarked(h) => h
    case _ => 0
  }

  ghost predicate Shaped(s: State) {
    && RingSize(s.num) && |s.ring| == s.num && |s.used| == s.num && |s.area.desc| == s.num
    && s.area.batchHead < s.num
    && HeadOf(s.pc) < s.num
    && (s.pc.Tagged? ==> s.used[Slot(s.pv.usedIdx, s.num)] in s.published)
  }

  /** A pop gets as far as mapping an entry of the ring. */
  ghost predicate EntryAtHand(s: State)
    requires Shaped(s)
  {
    && s.pc.Idle? && s.pv.resubmit == [] && Low16(|s.published|) != s.pv.lastAvail && s.pv.inuse < s.num
    && s.ring[Slot(s.pv.lastAvail, s.num)] < s.num
  }

  /** A pop with an entry at hand that cannot allocate. */
  predicate Fails(step: Step) {
    step.FailResubmitted? || step.FailPop?
  }

  /** The driver never publishes a head that is outstanding; the device completes what it holds. */
  ghost predicate Enabled(s: State, step: Step) {
    Shaped(s) &&
    match step
    case Publish(h) => h < s.num && !Outstanding(s, h)
    case Crash => !s.pc.Down?
    case Restart => s.pc.Down?
    case TakeResubmitted => s.pc.Idle? && s.pv.resubmit != []
    case FailResubmitted => s.pc.Idle? && s.pv.resubmit != []
    case BeginPop => EntryAtHand(s)
    case FailPop => EntryAtHand(s)
    case BeginPush(h) => s.pc.Idle? && h in s.pv.held && h < s.num
    case Continue => !s.pc.Down? && !s.pc.Idle?
  }

  /** Heads of the recovered list, in its order. */
  function Indexes(list: seq<Entry>): (r: seq<nat>)
    ensures |r| == |list| && forall i :: 0 <= i < |r| ==> r[i] == list[i].index
  {
    seq(|list|, i requires 0 <= i < |list| => list[i].index)
  }

  /** The backend's next store, or the private computation that ends recovery. */
  ghost function Advance(s: State): State
    requires Shaped(s) && !s.pc.Down? && !s.pc.Idle?
  {
    match s.pc
    case Connect =>
      if s.area.version == 0 then s.(area := s.area.(version := INFLIGHT_VERSION), pc := Idle)
      else if s.area.loggedUsed != s.usedMem then s.(area := ClearBatch(s.area), pc := Cleared)
      else s.(pc := Repaired)
    case Cleared => s.(area := SyncUsed(s.area, s.usedMem), pc := Repaired)
    case Repaired =>
      var r := Scan(s.area, s.usedMem, s.pv.inuse);
      s.(pc := Idle, pv := Private(r.lastAvail, r.usedIdx, r.inuse, r.counter, Indexes(r.resubmit), {}))
    case Got(h) =>
      s.(area := StoreCounter(s.area, h, s.pv.counter), pc := Counted(h),
         pv := s.pv.(inuse := s.pv.inuse + 1, counter := s.pv.counter + 1))
    case Counted(h) =>
      s.(area := StoreMark(s.area, h), pc := Idle, pv := s.pv.(held := s.pv.held + {h}),
         fetched := s.fetched + 1, open := s.open[h := s.fetched])
    case Filled(h) => s.(area := StoreBatch(s.area, h), pc := Tagged(h))
    case Tagged(h) =>
      var id := s.used[Slot(s.pv.usedIdx, s.num)];
      var next := Low16(s.pv.usedIdx + 1);
      s.(usedMem := next, pc := Indexed(h),
         pv := s.pv.(usedIdx := next, inuse := if s.pv.inuse > 0 then s.pv.inuse - 1 else 0, held := s.pv.held - {h}),
         completed := s.completed + [Latest(s.published, id)], open := s.open - {id})
    case Indexed(h) => s.(area := StoreUnmark(s.area, h), pc := Unmarked(h))
    case Unmarked(h) => s.(area := SyncUsed(s.area, s.pv.usedIdx), pc := Idle)
  }

  /** A step that is not enabled changes nothing. */
  ghost function Next(s: State, step: Step): State {
    if Enabled(s, step) then Do(s, step) else s
  }

  ghost function Do(s: State, step: Step): State
    requires Enabled(s, step)
  {
    match step
    case Publish(h) =>
      s.(published := s.published + [h], ring := s.ring[Slot(Low16(|s.published|), s.num) := h])
    case Crash => s.(pc := Down, pv := FRESH)
    case Restart => s.(pc := Connect, pv := Restarted(s.usedMem))
    case TakeResubmitted =>
      var i := |s.pv.resubmit| - 1;
      s.(pv := s.pv.(resubmit := s.pv.resubmit[..i], held := s.pv.held + {s.pv.resubmit[i]}))
    case BeginPop =>
      s.(pc := Got(s.ring[Slot(s.pv.lastAvail, s.num)]), pv := s.pv.(lastAvail := Low16(s.pv.lastAvail + 1)))
    case BeginPush(h) =>
      s.(pc := Filled(h), used := s.used[Slot(s.pv.usedIdx, s.num) := h])
    case Continue => Advance(s)
    case FailResubmitted => s.(pv := s.pv.(resubmit := s.pv.resubmit[..|s.pv.resubmit| - 1]))
    case FailPop => s.(pv := s.pv.(lastAvail := Low16(s.pv.lastAvail + 1)))
  }

  // ---- Invariant -----------------------------------------------------------------------------------------

  ghost predicate NoDuplicates(c: seq<nat>) {
    forall i, j :: 0 <= i < j < |c| ==> c[i] != c[j]
  }

  /** Requests: completed ones were fetched, each once; a head is published again only after its earlier
      request completed; at most `num` are outstanding, and the ring holds them. */
  ghost predicate History(s: State) {
    && |s.completed| <= s.fetched <= |s.published| <= |s.completed| + s.num
    && NoDuplicates(s.completed)
    && (forall p :: p in s.completed ==> p < s.fetched)
    && (forall p :: 0 <= p < |s.published| ==> s.published[p] < s.num)
    && (forall p, q :: 0 <= p < q < |s.published| && s.published[p] == s.published[q] ==> p in s.completed)
    && s.usedMem == Low16(|s.completed|)
  }

  ghost predicate RingHolds(s: State)
    requires Shaped(s)
  {
    forall p :: 0 <= p < |s.published| && |s.published| <= p + s.num
      ==> s.ring[Slot(p, s.num)] == s.published[p]
  }

  /** `open` names exactly the fetched requests that are not completed. */
  ghost predicate OpenExact(s: State) {
    && |s.open| + |s.completed| == s.fetched <= |s.published|
    && (forall h :: h in s.open ==>
          s.open[h] < s.fetched && s.published[s.open[h]] == h && s.open[h] !in s.completed)
    && (forall p :: 0 <= p < s.fetched && p !in s.completed ==> s.published[p] in s.open)
  }

  /** The area has caught up with the used ring. */
  ghost predicate Synced(s: State) {
    s.area.loggedUsed == s.usedMem
  }

  /** The marks are the open heads, except that the head of an interrupted completion, named by
      `last_batch_head`, may still be marked. */
  ghost predicate MarksExact(s: State)
    requires Shaped(s)
  {
    && (forall h :: 0 <= h < s.num ==> s.area.desc[h].inflight <= 1)
    && (forall h :: h in s.open ==> h < s.num)
    && (forall h :: 0 <= h < s.num && (Synced(s) || h != s.area.batchHead) ==>
          (s.area.desc[h].inflight == 1 <==> h in s.open))
    && (!Synced(s) ==>
          s.completed != [] && s.area.loggedUsed == Low16(|s.completed| - 1) && s.area.batchHead !in s.open)
    && (s.area.version == 0 ==> Synced(s) && s.open == map[] && s.usedMem == 0)
  }

  /** The heads the backend can still complete: held, or waiting on the recovered list. */
  function Waiting(pv: Private): set<nat> {
    pv.held + set i | 0 <= i < |pv.resubmit| :: pv.resubmit[i]
  }

  ghost predicate ListSane(pv: Private) {
    && NoDuplicates(pv.resubmit)
    && (forall i :: 0 <= i < |pv.resubmit| ==> pv.resubmit[i] !in pv.held)
  }

  /** What holds of the private fields whenever the backend runs. */
  ghost predicate Running(s: State) {
    && s.area.version != 0
    && ListSane(s.pv) && Waiting(s.pv) == s.open.Keys
    && s.pv.usedIdx == s.usedMem
  }

  /** Outside a pop: the counters agree with history. */
  ghost predicate Settled(s: State) {
    s.pv.inuse == |s.open| && s.pv.lastAvail == Low16(s.fetched)
  }

  /** Inside a pop: the index is ahead of what is marked. */
  ghost predicate Fetching(s: State, h: nat, counted: nat) {
    && Synced(s) && s.pv.resubmit == [] && s.fetched < |s.published|
    && s.pv.lastAvail == Low16(s.fetched + 1) && h == s.published[s.fetched]
    && s.pv.inuse == |s.open| + counted
  }

  /** Inside a push, before the index moves: the entry is filled in. */
  ghost predicate Completing(s: State, h: nat)
    requires Shaped(s)
  {
    Synced(s) && h in s.pv.held && s.used[Slot(s.pv.usedIdx, s.num)] == h
  }

  /** What the private fields say in each phase. */
  ghost predicate BackendExact(s: State)
    requires Shaped(s)
  {
    match s.pc
    case Down => s.pv == FRESH
    case Connect => s.pv == Restarted(s.usedMem)
    case Cleared => s.pv == Restarted(s.usedMem) && s.area.version != 0 && s.area.desc[s.area.batchHead].inflight == 0
    case Repaired => s.pv == Restarted(s.usedMem) && s.area.version != 0 && Synced(s)
    case Idle => Running(s) && Settled(s) && Synced(s)
    case Got(h) => Running(s) && Fetching(s, h, 0)
    case Counted(h) => Running(s) && Fetching(s, h, 1)
    case Filled(h) => Running(s) && Settled(s) && Completing(s, h)
    case Tagged(h) => Running(s) && Settled(s) && Completing(s, h) && s.area.batchHead == h
    case Indexed(h) => Running(s) && Settled(s) && !Synced(s) && s.area.batchHead == h
    case Unmarked(h) =>
      Running(s) && Settled(s) && !Synced(s) && s.area.batchHead == h && s.area.desc[h].inflight == 0
  }

  ghost predicate Inv(s: State) {
    Shaped(s) && History(s) && RingHolds(s) && OpenExact(s) && MarksExact(s) && BackendExact(s)
  }

  // ---- The invariant holds initially and is kept ----------------------------------------------------------

  /** A backend about to attach a zeroed area, with whatever was published before: everything fetched
      earlier is completed. */
  ghost predicate Start(s: State) {
    && Shaped(s) && History(s) && RingHolds(s) && s.open == map[] && s.fetched == |s.completed|
    && s.area.version == 0 && s.area.loggedUsed == 0 && s.area.batchHead == 0
    && (forall h :: 0 <= h < s.num ==> s.area.desc[h].inflight == 0)
    && s.pc == Connect && s.pv == Restarted(s.usedMem)
  }

  lemma StartHolds(s: State)
    requires Start(s) && s.usedMem == 0
    ensures Inv(s)
  {
    hide RingSize, Slot, RingHolds, NoDuplicates;
    AllFetched(s);
  }

  lemma AllFetched(s: State)
    requires History(s) && s.fetched == |s.completed|
    ensures forall p :: 0 <= p < s.fetched ==> p in s.completed
  {
    hide Low16;
    FillsUp(s.completed);
  }

  /** As many different numbers as there are below a bound are all of them. */
  lemma FillsUp(c: seq<nat>)
    requires NoDuplicates(c) && forall p :: p in c ==> p < |c|
    ensures forall p :: 0 <= p < |c| ==> p in c
  {
    var done := Members(c);
    CountDistinct(c);
    forall p | 0 <= p < |c| ensures p in c {
      if p !in done {
        assert done <= Below(|c|) - {p};
        SubsetSize(done, Below(|c|) - {p});
      }
    }
  }

  function Members(c: seq<nat>): (r: set<nat>)
    ensures forall p :: p in r <==> p in c
  {
    set p | p in c
  }

  lemma {:induction false} CountDistinct(c: seq<nat>)
    requires NoDuplicates(c)
    ensures |Members(c)| == |c|
  {
    if c == [] {
      assert Members(c) == {};
    } else {
      var front, last := c[..|c| - 1], c[|c| - 1];
      CountDistinct(front);
      assert c == front + [last];
      assert last !in Members(front);
      assert Members(c) == Members(front) + {last};
    }
  }

  /** An open head has one request, and it is the newest of that head. */
  lemma OpenIsLatest(s: State, h: nat)
    requires History(s) && OpenExact(s) && h in s.open
    ensures h in s.published && Latest(s.published, h) == s.open[h]
  {
    var p := s.open[h];
    assert s.published[p] == h;
    var q := Latest(s.published, h);
    if p < q {
      assert false;
    }
  }

  // -- Publishing

  /** A head that is not outstanding leaves room in the ring: no more than `num` are ever outstanding. */
  lemma RoomToPublish(s: State, h: nat)
    requires History(s) && OpenExact(s) && h < s.num && !Outstanding(s, h)
    ensures |s.published| < |s.completed| + s.num
    ensures h !in s.open && h !in Pending(s, s.fetched)
  {
    hide NoDuplicates;
    var open, pending := s.open.Keys, Pending(s, s.fetched);
    NotOutstanding(s, h);
    PendingSize(s, s.fetched);
    PendingApart(s);
    AllBelow(s, h);
    SubsetSize(open + pending + {h}, Below(s.num));
    UnionSize(open, pending, h);
  }

  lemma UnionSize(a: set<nat>, b: set<nat>, h: nat)
    requires a !! b && h !in a && h !in b
    ensures |a + b + {h}| == |a| + |b| + 1
  {
    assert |a + b| == |a| + |b|;
    assert h !in a + b;
  }

  lemma NotOutstanding(s: State, h: nat)
    requires History(s) && OpenExact(s) && !Outstanding(s, h)
    ensures h !in s.open && h !in Pending(s, s.fetched)
  {
    forall x | x in s.open ensures Outstanding(s, x) {
      assert s.published[s.open[x]] == x;
    }
    forall p | s.fetched <= p < |s.published| ensures Outstanding(s, s.published[p]) {
      assert p !in s.completed;
    }
  }

  lemma AllBelow(s: State, h: nat)
    requires History(s) && OpenExact(s) && h < s.num
    ensures s.open.Keys + Pending(s, s.fetched) + {h} <= Below(s.num)
  {
    forall x | x in s.open.Keys ensures x < s.num {
      assert s.published[s.open[x]] == x;
    }
  }

  /** The heads published from `from` on. */
  function Pending(s: State, from: nat): set<nat>
  {
    set p | from <= p < |s.published| :: s.published[p]
  }

  lemma {:induction false} PendingSize(s: State, from: nat)
    requires History(s) && s.fetched <= from <= |s.published|
    ensures |Pending(s, from)| == |s.published| - from
    decreases |s.published| - from
  {
    if from == |s.published| {
      assert Pending(s, from) == {};
    } else {
      PendingSize(s, from + 1);
      assert Pending(s, from) == Pending(s, from + 1) + {s.published[from]};
      forall q | from + 1 <= q < |s.published| ensures s.published[q] != s.published[from] {
      }
    }
  }

  lemma PendingApart(s: State)
    requires History(s) && OpenExact(s)
    ensures s.open.Keys !! Pending(s, s.fetched)
  {
    forall h, q | h in s.open.Keys && s.fetched <= q < |s.published| ensures s.published[q] != h {
      assert s.published[s.open[h]] == h;
    }
  }

  lemma PublishKeeps(s: State, h: nat)
    requires Inv(s) && Enabled(s, Publish(h))
    ensures Inv(Next(s, Publish(h)))
  {
    hide RingHolds, OpenExact, MarksExact, BackendExact, RingSize, Slot, Low16;
    RoomToPublish(s, h);
    PublishHistory(s, h);
    PublishRing(s, h);
    PublishRest(s, h);
  }

  lemma PublishHistory(s: State, h: nat)
    requires Shaped(s) && History(s) && OpenExact(s) && Enabled(s, Publish(h)) && |s.published| < |s.completed| + s.num
    ensures History(Next(s, Publish(h))) && Shaped(Next(s, Publish(h)))
  {
    hide RingSize, Slot, Low16, NoDuplicates;
    var s' := Next(s, Publish(h));
    forall p, q | 0 <= p < q < |s'.published| && s'.published[p] == s'.published[q]
      ensures p in s'.completed
    {
      if q == |s.published| {
        assert s.published[p] == h;
      }
    }
  }

  lemma PublishRing(s: State, h: nat)
    requires Shaped(s) && RingHolds(s) && Enabled(s, Publish(h))
    ensures Shaped(Next(s, Publish(h))) && RingHolds(Next(s, Publish(h)))
  {
    hide RingSize, Slot, Low16, Outstanding;
    var n, s' := |s.published|, Next(s, Publish(h));
    SlotOfWrapped(n, s.num);
    forall p | 0 <= p < |s'.published| && |s'.published| <= p + s.num
      ensures s'.ring[Slot(p, s.num)] == s'.published[p]
    {
      if p < n {
        SlotsDistinct(p, n, s.num);
      }
    }
  }

  lemma PublishRest(s: State, h: nat)
    requires Shaped(s) && Enabled(s, Publish(h)) && OpenExact(s) && MarksExact(s) && BackendExact(s)
    ensures var s' := Next(s, Publish(h));
            Shaped(s') && OpenExact(s') && MarksExact(s') && BackendExact(s')
  {
    hide RingSize, Slot, Low16, Outstanding, ListSane, Waiting;
  }

  // -- Starting and stopping

  lemma StopStartKeep(s: State, step: Step)
    requires Inv(s) && Enabled(s, step) && (step.Crash? || step.Restart?)
    ensures Inv(Next(s, step))
  {
    hide RingSize, Slot, Low16, History, RingHolds, OpenExact, MarksExact, Running;
    var s' := Next(s, step);
    RingDepends(s, s');
    HistoryDepends(s, s');
    MarksDepend(s, s');
  }

  // -- Popping

  lemma TakeResubmittedKeeps(s: State)
    requires Inv(s) && Enabled(s, TakeResubmitted)
    ensures Inv(Next(s, TakeResubmitted))
  {
    hide RingSize, Slot, Low16, History, RingHolds, OpenExact, MarksExact, ListSane, Waiting;
    var s' := Next(s, TakeResubmitted);
    RingDepends(s, s');
    HistoryDepends(s, s');
    MarksDepend(s, s');
    ListStep(s.pv);
  }

  lemma MarksDepend(s: State, t: State)
    requires Shaped(s) && Shaped(t) && MarksExact(s)
    requires t.num == s.num && t.open == s.open && t.area == s.area && t.usedMem == s.usedMem
    requires t.completed == s.completed && t.fetched == s.fetched
    ensures MarksExact(t)
  {
  }

  lemma RingDepends(s: State, t: State)
    requires Shaped(s) && Shaped(t) && RingHolds(s)
    requires t.published == s.published && t.ring == s.ring && t.num == s.num
    ensures RingHolds(t)
  {
  }

  lemma HistoryDepends(s: State, t: State)
    requires History(s) && OpenExact(s)
    requires t.published == s.published && t.completed == s.completed && t.fetched == s.fetched && t.open == s.open
    requires t.num == s.num && t.usedMem == s.usedMem
    ensures History(t) && OpenExact(t)
  {
  }

  /** Handing out the last resubmitted head moves it from the list to the held ones. */
  lemma ListStep(pv: Private)
    requires ListSane(pv) && pv.resubmit != []
    ensures var i := |pv.resubmit| - 1;
            var pv' := pv.(resubmit := pv.resubmit[..i], held := pv.held + {pv.resubmit[i]});
            ListSane(pv') && Waiting(pv') == Waiting(pv)
  {
    var i := |pv.resubmit| - 1;
    var pv' := pv.(resubmit := pv.resubmit[..i], held := pv.held + {pv.resubmit[i]});
    forall x | x in Waiting(pv) ensures x in Waiting(pv') {
      if x !in pv.held {
        var k :| 0 <= k < |pv.resubmit| && pv.resubmit[k] == x;
        assert k < i ==> pv'.resubmit[k] == x;
      }
    }
    forall x | x in Waiting(pv') ensures x in Waiting(pv) {
      if x !in pv'.held {
        var k :| 0 <= k < |pv'.resubmit| && pv'.resubmit[k] == x;
        assert pv.resubmit[k] == x;
      }
    }
  }

  /** The pop reads the oldest unfetched request; neither of its panics can happen. */
  lemma PopFindsNext(s: State)
    requires Inv(s) && s.pc.Idle? && s.pv.resubmit == [] && Low16(|s.published|) != s.pv.lastAvail
    ensures s.fetched < |s.published| && s.pv.inuse < s.num
    ensures s.ring[Slot(s.pv.lastAvail, s.num)] == s.published[s.fetched] < s.num
  {
    hide RingSize, Slot, Low16, NoDuplicates, Running, MarksExact;
    assert s.fetched < |s.published|;
    SlotOfWrapped(s.fetched, s.num);
  }

  lemma BeginPopKeeps(s: State)
    requires Inv(s) && Enabled(s, BeginPop)
    ensures Inv(Next(s, BeginPop))
  {
    hide RingSize, Slot, Low16, History, RingHolds, OpenExact, Running;
    PopFindsNext(s);
    Low16Step(s.fetched, 1);
    var s' := Next(s, BeginPop);
    RingDepends(s, s');
    HistoryDepends(s, s');
    RunningDepends(s, s');
  }

  lemma RunningDepends(s: State, t: State)
    requires Running(s) && t.area.version == s.area.version && t.open == s.open && t.usedMem == s.usedMem
    requires t.pv.resubmit == s.pv.resubmit && t.pv.held == s.pv.held && t.pv.usedIdx == s.pv.usedIdx
    ensures Running(t)
  {
    hide NoDuplicates;
    assert Waiting(t.pv) == Waiting(s.pv);
  }

  lemma GotKeeps(s: State)
    requires Inv(s) && s.pc.Got?
    ensures Inv(Next(s, Continue))
  {
    hide RingSize, Slot, Low16, History, RingHolds, OpenExact, Running;
    var s' := Next(s, Continue);
    RingDepends(s, s');
    HistoryDepends(s, s');
    RunningDepends(s, s');
  }

  /** The store of the mark is the moment a request counts as fetched. */
  lemma CountedKeeps(s: State)
    requires Inv(s) && s.pc.Counted?
    ensures Inv(Next(s, Continue))
  {
    hide RingSize, Slot, Low16, History, RingHolds, OpenExact, ListSane, Waiting, MarksExact;
    var s' := Next(s, Continue);
    RingDepends(s, s');
    FetchHistory(s);
    FetchMarks(s);
    FetchList(s);
  }

  lemma FetchHistory(s: State)
    requires Shaped(s) && History(s) && OpenExact(s) && s.pc.Counted? && Fetching(s, s.pc.head, 1)
    ensures s.pc.head !in s.open
    ensures Shaped(Next(s, Continue)) && History(Next(s, Continue)) && OpenExact(Next(s, Continue))
  {
    hide RingSize, Slot, Low16, NoDuplicates, OpenExact;
    NextNotOpen(s);
    FetchOpen(s, Next(s, Continue));
  }

  lemma FetchOpen(s: State, s': State)
    requires OpenExact(s) && History(s) && s.fetched < |s.published| && s.published[s.fetched] !in s.open
    requires s'.published == s.published && s'.completed == s.completed && s'.fetched == s.fetched + 1
    requires s'.open == s.open[s.published[s.fetched] := s.fetched]
    ensures OpenExact(s')
  {
    hide NoDuplicates;
    assert |s'.open| == |s.open| + 1;
  }

  lemma NextNotOpen(s: State)
    requires History(s) && OpenExact(s) && s.fetched < |s.published|
    ensures s.published[s.fetched] !in s.open
  {
    hide NoDuplicates;
    forall x | x in s.open ensures x != s.published[s.fetched] {
      assert s.published[s.open[x]] == x;
    }
  }

  lemma FetchMarks(s: State)
    requires Shaped(s) && MarksExact(s) && s.pc.Counted? && Synced(s) && s.area.version != 0
    ensures Shaped(Next(s, Continue)) && MarksExact(Next(s, Continue)) && Synced(Next(s, Continue))
  {
    hide RingSize, Slot, Low16;
  }

  lemma FetchList(s: State)
    requires Shaped(s) && Running(s) && s.pc.Counted? && Fetching(s, s.pc.head, 1)
    ensures Running(Next(s, Continue))
  {
    hide RingSize, Slot, Low16, NoDuplicates;
    var s' := Next(s, Continue);
    assert Waiting(s'.pv) == Waiting(s.pv) + {s.pc.head};
    assert NoDuplicates(s'.pv.resubmit) by { NoneDuplicated(); }
  }

  lemma NoneDuplicated()
    ensures NoDuplicates([])
  {
  }

  // -- Pushing

  lemma BeginPushKeeps(s: State, h: nat)
    requires Inv(s) && Enabled(s, BeginPush(h))
    ensures Inv(Next(s, BeginPush(h)))
  {
    hide RingSize, Slot, Low16, History, RingHolds, OpenExact, MarksExact, ListSane, Waiting;
    var s' := Next(s, BeginPush(h));
    RingDepends(s, s');
    HistoryDepends(s, s');
    MarksDepend(s, s');
  }

  lemma HeldIsOpen(s: State, h: nat)
    requires Running(s) && History(s) && OpenExact(s) && h in s.pv.held
    ensures h in s.open && h in s.published
  {
    hide NoDuplicates;
    assert h in Waiting(s.pv);
    OpenIsLatest(s, h);
  }

  lemma FilledKeeps(s: State)
    requires Inv(s) && s.pc.Filled?
    ensures Inv(Next(s, Continue))
  {
    hide RingSize, Slot, Low16, RingHolds, ListSane, Waiting, NoDuplicates;
    hide MarksExact, History, OpenExact;
    var h, s' := s.pc.head, Next(s, Continue);
    HeldIsOpen(s, h);
    RingDepends(s, s');
    HistoryDepends(s, s');
    TagMarks(s, s');
  }

  lemma TagMarks(s: State, s': State)
    requires Shaped(s) && Shaped(s') && MarksExact(s) && Synced(s)
    requires s'.num == s.num && s'.open == s.open && s'.usedMem == s.usedMem && s'.fetched == s.fetched
    requires s'.area == s.area.(batchHead := s'.area.batchHead)
    ensures MarksExact(s') && Synced(s')
  {
    hide RingSize, Slot;
  }

  /** The move of `used->idx` completes one request, the one behind the entry filled in, and nothing
      else: it was open, so it was never completed before. */
  lemma TaggedKeeps(s: State)
    requires Inv(s) && s.pc.Tagged?
    ensures Inv(Next(s, Continue))
    ensures Next(s, Continue).completed == s.completed + [s.open[s.pc.head]]
  {
    hide RingSize, Slot, Low16, RingHolds, ListSane, Waiting, NoDuplicates, MarksExact, History, OpenExact;
    var h, s' := s.pc.head, Next(s, Continue);
    HeldIsOpen(s, h);
    OpenIsLatest(s, h);
    RingDepends(s, s');
    CompleteHistory(s, s', h);
    CompleteMarks(s, s', h);
    CompleteList(s, s', h);
  }

  lemma CompleteHistory(s: State, s': State, h: nat)
    requires Shaped(s) && History(s) && OpenExact(s) && h in s.open
    requires s'.num == s.num && s'.published == s.published && s'.fetched == s.fetched
    requires s'.completed == s.completed + [s.open[h]] && s'.open == s.open - {h}
    requires s.pv.usedIdx == s.usedMem && s'.usedMem == Low16(s.pv.usedIdx + 1)
    ensures History(s') && OpenExact(s') && |s'.open| == |s.open| - 1 && s'.usedMem == Low16(|s'.completed|)
  {
    hide RingSize, Low16;
    Low16Step(|s.completed|, 1);
    assert |s'.open| == |s.open| - 1 by {
      assert s.open == s'.open[h := s.open[h]];
    }
    assert forall p :: p in s'.completed <==> p in s.completed || p == s.open[h];
    forall x | x in s'.open ensures s'.open[x] !in s'.completed {
      assert s.published[s.open[x]] == x && s.published[s.open[h]] == h;
    }
    forall p | 0 <= p < s'.fetched && p !in s'.completed ensures s'.published[p] in s'.open {
      OtherHead(s, p, h);
    }
  }

  lemma OtherHead(s: State, p: nat, h: nat)
    requires History(s) && OpenExact(s) && h in s.open && p < s.fetched && p !in s.completed && p != s.open[h]
    ensures s.published[p] != h
  {
    hide NoDuplicates;
    if s.published[p] == h {
      SameRequest(s, p, s.open[h]);
      assert false;
    }
  }

  /** Two uncompleted requests of one head are one request. */
  lemma SameRequest(s: State, p: nat, q: nat)
    requires History(s) && p < |s.published| && q < |s.published| && s.published[p] == s.published[q]
    requires p !in s.completed && q !in s.completed
    ensures p == q
  {
    hide NoDuplicates;
  }

  lemma CompleteMarks(s: State, s': State, h: nat)
    requires Shaped(s) && Shaped(s') && MarksExact(s) && Synced(s) && History(s)
    requires s'.num == s.num && s'.area == s.area && s.area.batchHead == h && s'.fetched == s.fetched
    requires |s'.completed| == |s.completed| + 1 && s'.open == s.open - {h}
    requires s'.usedMem == Low16(|s'.completed|) && s.area.version != 0
    ensures MarksExact(s') && !Synced(s')
  {
    hide RingSize, NoDuplicates;
  }

  lemma CompleteList(s: State, s': State, h: nat)
    requires Running(s) && h in s.pv.held
    requires s'.open == s.open - {h} && s'.area == s.area && s'.usedMem == s'.pv.usedIdx
    requires s'.pv.held == s.pv.held - {h} && s'.pv.resubmit == s.pv.resubmit
    ensures Running(s')
  {
    hide NoDuplicates;
    forall x | x in Waiting(s'.pv) ensures x in s'.open.Keys {
      assert x in Waiting(s.pv);
    }
    forall x | x in s'.open.Keys ensures x in Waiting(s'.pv) {
      assert x in Waiting(s.pv);
    }
  }

  lemma IndexedKeeps(s: State)
    requires Inv(s) && s.pc.Indexed?
    ensures Inv(Next(s, Continue))
  {
    hide RingSize, Slot, Low16, RingHolds, History, OpenExact, Running;
    var s' := Next(s, Continue);
    RingDepends(s, s');
    HistoryDepends(s, s');
    RunningDepends(s, s');
  }

  lemma UnmarkedKeeps(s: State)
    requires Inv(s) && s.pc.Unmarked?
    ensures Inv(Next(s, Continue))
  {
    hide RingSize, Slot, Low16, RingHolds, History, OpenExact, ListSane, Waiting;
    var s' := Next(s, Continue);
    RingDepends(s, s');
    HistoryDepends(s, s');
  }

  // -- Recovering

  lemma ConnectKeeps(s: State)
    requires Inv(s) && s.pc.Connect?
    ensures Inv(Next(s, Continue))
  {
    hide RingSize, Slot, RingHolds, NoDuplicates, Low16, History, OpenExact, ListSane, Waiting, MarksExact;
    var s' := Next(s, Continue);
    RingDepends(s, s');
    HistoryDepends(s, s');
    if s.area.version == 0 {
      AttachMarks(s, s');
      FreshList();
      assert |s.open| == 0;
      assert s.open.Keys == {};
      NothingFetched(s);
    } else if Synced(s) {
      MarksDepend(s, s');
    } else {
      ClearMarks(s, s');
    }
  }

  lemma AttachMarks(s: State, t: State)
    requires Shaped(s) && Shaped(t) && MarksExact(s) && s.area.version == 0
    requires t.num == s.num && t.open == s.open && t.area == s.area.(version := INFLIGHT_VERSION)
    requires t.usedMem == s.usedMem && t.completed == s.completed && t.fetched == s.fetched
    ensures MarksExact(t) && Synced(t) && s.open == map[] && s.usedMem == 0
  {
    hide RingSize, Slot, Low16;
  }

  lemma ClearMarks(s: State, t: State)
    requires Shaped(s) && Shaped(t) && MarksExact(s) && !Synced(s) && s.area.version != 0
    requires t.num == s.num && t.open == s.open && t.area == ClearBatch(s.area)
    requires t.usedMem == s.usedMem && t.completed == s.completed && t.fetched == s.fetched
    ensures MarksExact(t) && t.area.desc[t.area.batchHead].inflight == 0
  {
    hide RingSize, Slot, Low16;
  }

  /** No completed request behind a zero index with nothing open: the fetch counter reads zero too. */
  lemma NothingFetched(s: State)
    requires History(s) && OpenExact(s) && s.open == map[] && s.usedMem == 0
    ensures Low16(s.fetched) == 0
  {
    hide NoDuplicates;
  }

  lemma FreshList()
    ensures forall usedMem :: ListSane(Restarted(usedMem)) && Waiting(Restarted(usedMem)) == {}
  {
  }

  lemma ClearedKeeps(s: State)
    requires Inv(s) && s.pc.Cleared?
    ensures Inv(Next(s, Continue))
  {
    hide RingSize, Slot, Low16, RingHolds, History, OpenExact;
    var s' := Next(s, Continue);
    RingDepends(s, s');
    HistoryDepends(s, s');
  }

  /** With the area repaired, the scan finds exactly the open heads. */
  lemma ScanFindsOpen(s: State)
    requires Shaped(s) && MarksExact(s) && Synced(s)
    ensures MarkedHeads(s.area.desc) == s.open.Keys && CountOnes(s.area.desc) == |s.open|
  {
    hide RingSize;
    CountIsMarked(s.area.desc);
    assert MarkedHeads(s.area.desc) == s.open.Keys;
    assert |s.open.Keys| == |s.open|;
  }

  /** The recovered list names every marked head once, in whatever order it was sorted. */
  lemma ListNamesMarked(area: Area, usedMem: U16, pv: Private)
    requires forall h :: 0 <= h < |area.desc| ==> area.desc[h].inflight <= 1
    requires pv.resubmit == Indexes(Scan(area, usedMem, 0).resubmit) && pv.held == {}
    ensures ListSane(pv) && Waiting(pv) == MarkedHeads(area.desc)
  {
    hide Sort, Collect, CountOnes, Waiting, MarkedHeads, Low16, NoDuplicates;
    var c := Collect(area.desc);
    var list := Scan(area, usedMem, 0).resubmit;
    CollectCounts(area.desc);
    NothingSorted();
    assert list == Sort(c);
    SameMembers(list, c);
    OncePerIndex(c, list);
    ListMembers(area, c, list, pv);
  }

  lemma ListMembers(area: Area, c: seq<Entry>, list: seq<Entry>, pv: Private)
    requires forall h :: 0 <= h < |area.desc| ==> area.desc[h].inflight <= 1
    requires c == Collect(area.desc) && pv.resubmit == Indexes(list) && pv.held == {}
    requires forall e :: e in c <==> e in list
    ensures Waiting(pv) == MarkedHeads(area.desc)
  {
    hide NoDuplicates;
    forall h | h in MarkedHeads(area.desc) ensures h in Waiting(pv) {
      var e := Entry(h, area.desc[h].counter);
      assert e in c && e in list;
      var k :| 0 <= k < |list| && list[k] == e;
      assert pv.resubmit[k] == h;
    }
    forall h | h in Waiting(pv) ensures h in MarkedHeads(area.desc) {
      var k :| 0 <= k < |pv.resubmit| && pv.resubmit[k] == h;
      assert list[k] in c;
    }
  }

  lemma NothingSorted()
    ensures Sort([]) == []
  {
  }

  /** A permutation of a list with distinct indices has distinct indices. */
  lemma OncePerIndex(c: seq<Entry>, list: seq<Entry>)
    requires multiset(c) == multiset(list)
    requires forall i, j :: 0 <= i < j < |c| ==> c[i].index < c[j].index
    ensures NoDuplicates(Indexes(list))
  {
    SameMembers(c, list);
    forall i, j | 0 <= i < j < |list| ensures list[i].index != list[j].index {
      if list[i].index == list[j].index {
        assert list[i] in c && list[j] in c;
        assert list[i] == list[j];
        TwiceIn(list, i, j);
        OnceIn(c, list[i]);
      }
    }
  }

  lemma OnceIn(c: seq<Entry>, e: Entry)
    requires forall i, j :: 0 <= i < j < |c| ==> c[i].index < c[j].index
    ensures multiset(c)[e] <= 1
  {
    if e in c {
      var k :| 0 <= k < |c| && c[k] == e;
      assert c == c[..k] + [c[k]] + c[k + 1..];
      assert e !in c[..k] && e !in c[k + 1..];
    }
  }

  /** The end of recovery: exactly the open heads are resubmitted and the fetch counter is the true one. */
  lemma RepairedKeeps(s: State)
    requires Inv(s) && s.pc.Repaired?
    ensures Inv(Next(s, Continue))
  {
    hide RingSize, Slot, RingHolds, NoDuplicates, Sort, Collect, CountOnes, Low16, ListSane, Waiting, MarkedHeads,
      History;
    var s' := Next(s, Continue);
    RingDepends(s, s');
    HistoryDepends(s, s');
    MarksDepend(s, s');
    ScanFindsOpen(s);
    ListNamesMarked(s.area, s.usedMem, s'.pv);
    UsedIsCompleted(s);
    ScanRestoresExactly(s.area, |s.completed|, s.fetched, 0);
    ZeroWord();
  }

  lemma ZeroWord()
    ensures Low16(0) == 0
  {
  }

  lemma UsedIsCompleted(s: State)
    requires History(s)
    ensures s.usedMem == Low16(|s.completed|)
  {
    hide Low16;
  }

  // -- Failing to allocate

  /** Position `p` is among those the backend has yet to read from the ring: the last ones, as many as the
      16-bit index is behind. */
  predicate ToRead(s: State, p: nat) {
    p < |s.published| <= p + Low16(|s.published| - s.pv.lastAvail)
  }

  /** An idle backend owes every published request exactly one service: none if it is completed, and
      otherwise one, because it holds or will resubmit its head, or because it will read it from the ring. */
  ghost predicate EachDueOnce(s: State) {
    && (forall p :: 0 <= p < |s.published| && p in s.completed ==> !ToRead(s, p))
    && (forall p :: 0 <= p < |s.published| && p !in s.completed ==>
          (s.published[p] in Waiting(s.pv) <==> !ToRead(s, p)))
    && (forall h :: h in Waiting(s.pv) ==> Outstanding(s, h))
  }

  lemma Behind(n: nat, c: nat)
    requires c <= n < c + WORD16
    ensures Low16(n - Low16(c)) == n - c
  {
  }

  lemma IdleDueOnce(s: State)
    requires Inv(s) && s.pc.Idle?
    ensures EachDueOnce(s)
  {
    hide RingSize, Slot, Low16, NoDuplicates, MarksExact, RingHolds, Waiting, ListSane;
    assert |s.published| < s.fetched + WORD16 by { SmallRing(s.num); }
    Behind(|s.published|, s.fetched);
    forall p | 0 <= p < |s.published| && p !in s.completed
      ensures s.published[p] in Waiting(s.pv) <==> !ToRead(s, p)
    {
      WaitingIsFetched(s, p);
    }
    forall h | h in Waiting(s.pv) ensures Outstanding(s, h) {
      assert s.published[s.open[h]] == h;
    }
  }

  lemma SmallRing(num: nat)
    requires RingSize(num)
    ensures num <= 0x8000
  {
  }

  /** Of the uncompleted requests, the fetched ones have an open head. */
  lemma WaitingIsFetched(s: State, p: nat)
    requires History(s) && OpenExact(s) && p < |s.published| && p !in s.completed
    ensures s.published[p] in s.open <==> p < s.fetched
  {
    hide NoDuplicates;
    if s.published[p] in s.open {
      SameRequest(s, p, s.open[s.published[p]]);
    }
  }

  /** A failed allocation leaves a request that is owed no service any more, though it is not completed. */
  lemma FailBreaks(s: State, step: Step)
    requires Inv(s) && Enabled(s, step) && Fails(step)
    ensures Next(s, step).pc.Idle? && !EachDueOnce(Next(s, step)) && !Inv(Next(s, step))
  {
    hide RingSize, Slot, Low16, NoDuplicates, MarksExact, RingHolds, Waiting, ListSane, EachDueOnce;
    var s' := Next(s, step);
    if step.FailPop? {
      SkippedByRing(s);
      NotDue(s', s.fetched);
    } else {
      var p := SkippedByList(s);
      NotDue(s', p);
    }
    if Inv(s') {
      IdleDueOnce(s');
    }
  }

  lemma NotDue(s: State, p: nat)
    requires p < |s.published| && p !in s.completed && s.published[p] !in Waiting(s.pv) && !ToRead(s, p)
    ensures !EachDueOnce(s)
  {
    hide Waiting, Low16, NoDuplicates;
  }

  lemma SkippedByRing(s: State)
    requires Inv(s) && Enabled(s, FailPop)
    ensures var s' := Next(s, FailPop);
            s.fetched < |s.published| && s.fetched !in s.completed
            && s.published[s.fetched] !in Waiting(s'.pv) && !ToRead(s', s.fetched)
  {
    hide RingSize, Slot, Low16, NoDuplicates, MarksExact, RingHolds, ListSane, Waiting, OpenExact, ToRead;
    var s' := Next(s, FailPop);
    PopFindsNext(s);
    NextNotOpen(s);
    SameWaiting(s.pv, s'.pv);
    SmallRing(s.num);
    Low16Step(s.fetched, 1);
    PassedOver(s', s.fetched);
  }

  lemma SameWaiting(a: Private, b: Private)
    requires a.held == b.held && a.resubmit == b.resubmit
    ensures Waiting(a) == Waiting(b)
  {
  }

  lemma PassedOver(s: State, p: nat)
    requires p < |s.published| <= p + 0x8000 && s.pv.lastAvail == Low16(p + 1)
    ensures !ToRead(s, p)
  {
    hide Low16;
    Behind(|s.published|, p + 1);
  }

  lemma SkippedByList(s: State) returns (p: nat)
    requires Inv(s) && Enabled(s, FailResubmitted)
    ensures var s' := Next(s, FailResubmitted);
            p < |s.published| && p !in s.completed && s.published[p] !in Waiting(s'.pv) && !ToRead(s', p)
  {
    hide RingSize, Slot, Low16, MarksExact, RingHolds, ListSane, Waiting, NoDuplicates;
    DropLast(s.pv);
    p := s.open[s.pv.resubmit[|s.pv.resubmit| - 1]];
    SmallRing(s.num);
    Behind(|s.published|, s.fetched);
  }

  lemma DropLast(pv: Private)
    requires ListSane(pv) && pv.resubmit != []
    ensures var last := |pv.resubmit| - 1;
            pv.resubmit[last] in Waiting(pv)
            && pv.resubmit[last] !in Waiting(pv.(resubmit := pv.resubmit[..last]))
  {
  }

  /** Every step keeps the invariant, except a pop with an entry at hand that cannot allocate. */
  lemma StepKeeps(s: State, step: Step)
    requires Inv(s) && Enabled(s, step)
    ensures Inv(Next(s, step)) <==> !Fails(step)
  {
    hide Inv, Outstanding, RingSize, Slot, Low16;
    match step
    case Publish(h) => PublishKeeps(s, h);
    case Crash => StopStartKeep(s, step);
    case Restart => StopStartKeep(s, step);
    case TakeResubmitted => TakeResubmittedKeeps(s);
    case BeginPop => BeginPopKeeps(s);
    case BeginPush(h) => BeginPushKeeps(s, h);
    case FailResubmitted => FailBreaks(s, step);
    case FailPop => FailBreaks(s, step);
    case Continue =>
      match s.pc
      case Connect => ConnectKeeps(s);
      case Cleared => ClearedKeeps(s);
      case Repaired => RepairedKeeps(s);
      case Got(_) => GotKeeps(s);
      case Counted(_) => CountedKeeps(s);
      case Filled(_) => FilledKeeps(s);
      case Tagged(_) => TaggedKeeps(s);
      case Indexed(_) => IndexedKeeps(s);
      case Unmarked(_) => UnmarkedKeeps(s);
  }

  // ---- Whole runs -----------------------------------------------------------------------------------------

  /** Steps of the driver, the device, crashes and restarts, in any order. */
  ghost predicate IsRun(run: seq<State>, steps: seq<Step>) {
    && |run| == |steps| + 1
    && forall i :: 0 <= i < |steps| ==> Enabled(run[i], steps[i]) && run[i + 1] == Next(run[i], steps[i])
  }

  /** No pop among the first `n` steps fails to allocate with an entry at hand. */
  predicate Allocates(steps: seq<Step>, n: nat) {
    forall i :: 0 <= i < n && i < |steps| ==> !Fails(steps[i])
  }

  lemma {:induction false} RunKeeps(run: seq<State>, steps: seq<Step>, n: nat)
    requires IsRun(run, steps) && Start(run[0]) && run[0].usedMem == 0 && n < |run| && Allocates(steps, n)
    ensures Inv(run[n])
  {
    hide Inv, Next, Enabled, Start;
    if n == 0 {
      StartHolds(run[0]);
    } else {
      RunKeeps(run, steps, n - 1);
      assert Enabled(run[n - 1], steps[n - 1]) && run[n] == Next(run[n - 1], steps[n - 1]);
      StepKeeps(run[n - 1], steps[n - 1]);
    }
  }

  /** Exactly once, and exactly when: over a whole run every published request is owed one service at every
      idle point if and only if no pop with an entry at hand ever fails to allocate. */
  lemma DueOnceIffAllocates(run: seq<State>, steps: seq<Step>)
    requires IsRun(run, steps) && Start(run[0]) && run[0].usedMem == 0
    ensures (forall n :: 0 <= n < |run| && run[n].pc.Idle? ==> EachDueOnce(run[n])) <==> Allocates(steps, |steps|)
  {
    hide IsRun, Inv, Next, Start, Enabled, EachDueOnce;
    if Allocates(steps, |steps|) {
      forall n | 0 <= n < |run| && run[n].pc.Idle? ensures EachDueOnce(run[n]) {
        RunKeeps(run, steps, n);
        IdleDueOnce(run[n]);
      }
    } else {
      var i := FirstFailure(steps, |steps|);
      RunLength(run, steps, i);
      RunKeeps(run, steps, i);
      FailBreaks(run[i], steps[i]);
      assert run[i + 1].pc.Idle? && !EachDueOnce(run[i + 1]);
    }
  }

  lemma RunLength(run: seq<State>, steps: seq<Step>, i: nat)
    requires IsRun(run, steps) && i < |steps|
    ensures |run| == |steps| + 1 && Enabled(run[i], steps[i]) && run[i + 1] == Next(run[i], steps[i])
  {
    hide Enabled, Next;
  }

  lemma {:induction false} FirstFailure(steps: seq<Step>, n: nat) returns (i: nat)
    requires n <= |steps| && !Allocates(steps, n)
    ensures i < n && Fails(steps[i]) && Allocates(steps, i)
  {
    if Allocates(steps, n - 1) {
      i := n - 1;
    } else {
      i := FirstFailure(steps, n - 1);
    }
  }

  /** The request is completed, or the area records its head as in flight, or it waits on the
      available ring behind the true fetch counter. */
  ghost predicate AccountedFor(s: State, p: nat)
    requires Shaped(s) && p < |s.published|
  {
    || p in s.completed
    || (p < s.fetched && s.published[p] < s.num && s.area.desc[s.published[p]].inflight == 1)
    || (s.fetched <= p && s.ring[Slot(p, s.num)] == s.published[p])
  }

  /** Exactly once: at every point of every run no request is completed twice, none is lost, and none is
      completed before it was fetched. */
  lemma ExactlyOnce(run: seq<State>, steps: seq<Step>, n: nat)
    requires IsRun(run, steps) && Start(run[0]) && run[0].usedMem == 0 && n < |run| && Allocates(steps, n)
    ensures Shaped(run[n]) && NoDuplicates(run[n].completed)
    ensures forall p :: p in run[n].completed ==> p < run[n].fetched <= |run[n].published|
    ensures forall p :: 0 <= p < |run[n].published| ==> AccountedFor(run[n], p)
  {
    hide IsRun, Start, RingSize, Slot, Low16, NoDuplicates, BackendExact;
    RunKeeps(run, steps, n);
    var s := run[n];
    forall p | 0 <= p < |s.published| ensures AccountedFor(s, p) {
      if p !in s.completed && p < s.fetched {
        assert s.published[p] in s.open;
      }
    }
  }

  /** Recovery is exact: it ends with the resubmit list naming, once each, exactly the heads fetched and
      not on the used ring, with `last_avail_idx` at the true fetch counter. */
  lemma RecoveryExact(run: seq<State>, steps: seq<Step>, n: nat)
    requires IsRun(run, steps) && Start(run[0]) && run[0].usedMem == 0 && n < |run| && Allocates(steps, n)
    requires run[n].pc.Repaired?
    ensures var s, s' := run[n], Next(run[n], Continue);
            s'.pc.Idle? && s'.pv.lastAvail == Low16(s.fetched) && s'.pv.inuse == s.fetched - |s.completed|
            && NoDuplicates(s'.pv.resubmit)
            && forall h :: h in s'.pv.resubmit <==>
                 exists p :: 0 <= p < s.fetched <= |s.published| && p !in s.completed && s.published[p] == h
  {
    hide IsRun, Start, RingSize, Slot, Low16, NoDuplicates, MarksExact, RingHolds, Scan, OpenExact, History;
    RunKeeps(run, steps, n);
    RepairedKeeps(run[n]);
    var s, s' := run[n], Next(run[n], Continue);
    OnlyListed(s'.pv);
    OpenAreFetched(s);
    assert s'.open == s.open;
  }

  lemma OnlyListed(pv: Private)
    requires pv.held == {}
    ensures forall h :: h in pv.resubmit <==> h in Waiting(pv)
  {
    forall h | h in Waiting(pv) ensures h in pv.resubmit {
      var k :| 0 <= k < |pv.resubmit| && pv.resubmit[k] == h;
    }
  }

  lemma OpenAreFetched(s: State)
    requires OpenExact(s)
    ensures forall h :: h in s.open.Keys <==>
      exists p :: 0 <= p < s.fetched <= |s.published| && p !in s.completed && s.published[p] == h
    ensures |s.open| == s.fetched - |s.completed|
  {
    forall h | h in s.open
      ensures exists p :: 0 <= p < s.fetched <= |s.published| && p !in s.completed && s.published[p] == h
    {
      assert s.published[s.open[h]] == h;
    }
  }

  /** Between recovery and the next crash the device can finish every fetched request: each is held or
      still to be handed out. */
  lemma NothingForgotten(run: seq<State>, steps: seq<Step>, n: nat, p: nat)
    requires IsRun(run, steps) && Start(run[0]) && run[0].usedMem == 0 && n < |run| && Allocates(steps, n)
    requires run[n].pc.Idle? && p < run[n].fetched && p !in run[n].completed
    ensures p < |run[n].published|
    ensures run[n].published[p] in run[n].pv.held || run[n].published[p] in run[n].pv.resubmit
  {
    hide IsRun, Start, RingSize, Slot, Low16, NoDuplicates, MarksExact, RingHolds;
    RunKeeps(run, steps, n);
    var s := run[n];
    assert s.published[p] in s.open.Keys;
    assert s.published[p] in Waiting(s.pv);
  }
}
