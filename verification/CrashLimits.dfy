// Where exactly-once ends: what a failed allocation and a nonzero start do to whole runs.

module CrashLimits {
  import opened Words
  import opened Inflight
  import opened Crash
  import opened Sets

  /** A run from `s` to `t` in which no allocation fails. */
  ghost predicate Leads(run: seq<State>, steps: seq<Step>, s: State, t: State) {
    IsRun(run, steps) && run[0] == s && run[|steps|] == t && Allocates(steps, |steps|)
  }

  ghost predicate Reaches(s: State, t: State) {
    exists run: seq<State>, steps: seq<Step> :: Leads(run, steps, s, t)
  }

  lemma ReachSelf(s: State)
    ensures Reaches(s, s)
  {
    assert Leads([s], [], s, s);
  }

  lemma ReachStep(s: State, t: State, step: Step)
    requires Reaches(s, t) && Enabled(t, step) && !Fails(step)
    ensures Reaches(s, Next(t, step))
  {
    hide Enabled, Next, Leads;
    var run: seq<State>, steps: seq<Step> :| Leads(run, steps, s, t);
    Extend(run, steps, s, t, step);
  }

  lemma Extend(run: seq<State>, steps: seq<Step>, s: State, t: State, step: Step)
    requires Leads(run, steps, s, t) && Enabled(t, step) && !Fails(step)
    ensures Leads(run + [Next(t, step)], steps + [step], s, Next(t, step))
  {
    hide Enabled, Next;
    var run', steps' := run + [Next(t, step)], steps + [step];
    forall i | 0 <= i < |steps'| ensures Enabled(run'[i], steps'[i]) && run'[i + 1] == Next(run'[i], steps'[i]) {
      if i < |steps| {
        assert Enabled(run[i], steps[i]) && run[i + 1] == Next(run[i], steps[i]);
      }
    }
  }

  // ---- Longer steps --------------------------------------------------------------------------------------

  /** After a whole pop of head `b` from the ring. */
  function Popped(t: State, b: nat): State
    requires b < |t.area.desc|
  {
    t.(area := StoreMark(StoreCounter(t.area, b, t.pv.counter), b),
       fetched := t.fetched + 1, open := t.open[b := t.fetched],
       pv := t.pv.(lastAvail := Low16(t.pv.lastAvail + 1), inuse := t.pv.inuse + 1, counter := t.pv.counter + 1,
                   held := t.pv.held + {b}))
  }

  lemma PopReaches(s: State, t: State, b: nat)
    requires Reaches(s, t) && Shaped(t) && EntryAtHand(t) && b == t.ring[Slot(t.pv.lastAvail, t.num)]
    ensures Shaped(Popped(t, b)) && Reaches(s, Popped(t, b))
  {
    hide RingSize, Slot, Low16, Reaches;
    var t1 := Next(t, BeginPop);
    ReachStep(s, t, BeginPop);
    assert t1 == t.(pc := Got(b), pv := t.pv.(lastAvail := Low16(t.pv.lastAvail + 1)));
    var t2 := Next(t1, Continue);
    ReachStep(s, t1, Continue);
    assert t2 == t1.(area := StoreCounter(t.area, b, t.pv.counter), pc := Counted(b),
                     pv := t1.pv.(inuse := t.pv.inuse + 1, counter := t.pv.counter + 1));
    ReachStep(s, t2, Continue);
    assert Next(t2, Continue) == Popped(t, b);
  }

  /** After a crash, a restart and the whole of recovery. */
  ghost function Recovered(t: State): State
    requires Shaped(t)
  {
    var area := Repair(t.area, t.usedMem);
    var r := Scan(area, t.usedMem, 0);
    t.(area := area, pc := Idle, pv := Private(r.lastAvail, r.usedIdx, r.inuse, r.counter, Indexes(r.resubmit), {}))
  }

  lemma RecoveryReaches(s: State, t: State)
    requires Reaches(s, t) && Shaped(t) && !t.pc.Down? && t.area.version != 0
    ensures Reaches(s, Recovered(t))
  {
    hide RingSize, Slot, Low16, Reaches, Scan;
    var t1 := Next(t, Step.Crash);
    ReachStep(s, t, Step.Crash);
    var t2 := Next(t1, Restart);
    ReachStep(s, t1, Restart);
    assert t2 == t.(pc := Connect, pv := Restarted(t.usedMem));
    var t3 := Next(t2, Continue);
    ReachStep(s, t2, Continue);
    if t.area.loggedUsed != t.usedMem {
      assert t3 == t2.(area := ClearBatch(t.area), pc := Cleared);
      var t4 := Next(t3, Continue);
      ReachStep(s, t3, Continue);
      assert t4 == t2.(area := Repair(t.area, t.usedMem), pc := Repaired);
      ReachStep(s, t4, Continue);
      assert Next(t4, Continue) == Recovered(t);
    } else {
      assert t3 == t2.(pc := Repaired);
      ReachStep(s, t3, Continue);
      assert Next(t3, Continue) == Recovered(t);
    }
  }

  /** What recovery makes of the marks. */
  lemma RecoveredOwes(t: State)
    requires Shaped(t) && forall h :: 0 <= h < t.num ==> t.area.desc[h].inflight <= 1
    ensures var r := Recovered(t);
            Waiting(r.pv) == MarkedHeads(r.area.desc)
            && r.pv.lastAvail == Low16(|MarkedHeads(r.area.desc)| + t.usedMem)
  {
    hide RingSize, Slot, Low16, Waiting, MarkedHeads;
    var r := Recovered(t);
    ListNamesMarked(r.area, t.usedMem, r.pv);
    CountIsMarked(r.area.desc);
  }

  // ---- A failed allocation ---------------------------------------------------------------------------------

  /** A crash before anything else is fetched forgives a failed allocation: nothing that survives has changed. */
  lemma CrashForgives(s: State, step: Step)
    requires Inv(s) && Enabled(s, step) && Fails(step)
    ensures Next(Next(s, step), Step.Crash) == Next(s, Step.Crash) && Inv(Next(s, Step.Crash))
  {
    hide RingSize, Slot, Low16, Inv, Outstanding;
    assert Shaped(s) && s.pc.Idle?;
    StopStartKeep(s, Step.Crash);
  }

  /** A skipped entry, another pop and a crash: the skipped request is never served, and the one behind it
      is both resubmitted and read from the ring again. */
  lemma SkipSurvivesCrash(s: State) returns (t: State)
    requires Inv(s) && Enabled(s, FailPop) && s.fetched + 1 < |s.published|
    ensures Reaches(Next(s, FailPop), t) && t.pc.Idle?
    ensures t.published == s.published && t.completed == s.completed
    ensures s.fetched !in t.completed && s.published[s.fetched] !in Waiting(t.pv) && !ToRead(t, s.fetched)
    ensures s.published[s.fetched + 1] in Waiting(t.pv) && ToRead(t, s.fetched + 1)
  {
    hide RingSize, Slot, Low16, Reaches, Recovered, Waiting, NoDuplicates, MarksExact, RingHolds, ToRead, OpenExact,
      MarkedHeads;
    var s1 := Next(s, FailPop);
    var b := s.published[s.fetched + 1];
    SecondAtHand(s);
    ReachSelf(s1);
    PopReaches(s1, s1, b);
    var u := Popped(s1, b);
    RecoveryReaches(s1, u);
    t := Recovered(u);
    SkipMarks(s, u);
    RecoveredOwes(u);
    RecoveredKeeps(u);
    SkipOwes(s, t);
  }

  lemma RecoveredKeeps(u: State)
    requires Shaped(u)
    ensures var t := Recovered(u);
            t.published == u.published && t.completed == u.completed && t.pc.Idle? && t.fetched == u.fetched
  {
    hide Scan;
  }

  lemma SecondAtHand(s: State)
    requires Inv(s) && Enabled(s, FailPop) && s.fetched + 1 < |s.published|
    ensures var s1 := Next(s, FailPop);
            Shaped(s1) && EntryAtHand(s1) && s1.ring[Slot(s1.pv.lastAvail, s1.num)] == s.published[s.fetched + 1]
  {
    hide RingSize, Slot, Low16, NoDuplicates, MarksExact, Running;
    var f := s.fetched + 1;
    Low16Step(s.fetched, 1);
    SmallRing(s.num);
    SlotOfWrapped(f, s.num);
    StillBehind(|s.published|, f);
  }

  lemma StillBehind(n: nat, c: nat)
    requires c < n < c + WORD16
    ensures Low16(n) != Low16(c)
  {
  }

  /** The marks after the second pop: the open heads and the new one. */
  lemma SkipMarks(s: State, u: State)
    requires Inv(s) && Enabled(s, FailPop) && s.fetched + 1 < |s.published|
    requires var b := s.published[s.fetched + 1]; b < |s.area.desc| && u == Popped(Next(s, FailPop), b)
    ensures Shaped(u) && (forall h :: 0 <= h < u.num ==> u.area.desc[h].inflight <= 1)
    ensures Recovered(u).area == u.area && u.usedMem == Low16(|s.completed|)
    ensures s.published[s.fetched] !in s.open && s.published[s.fetched] != s.published[s.fetched + 1]
    ensures MarkedHeads(u.area.desc) == s.open.Keys + {s.published[s.fetched + 1]}
    ensures |MarkedHeads(u.area.desc)| == s.fetched + 1 - |s.completed|
  {
    hide RingSize, Slot, Low16, NoDuplicates, RingHolds, Running, Scan, OpenExact, History;
    TwoPending(s);
    OpenMarked(s);
    OpenAreFetched(s);
    var b := s.published[s.fetched + 1];
    assert u.area.desc == s.area.desc[b := HeadState(1, s.pv.counter)];
    MarkOneMore(s.area.desc, b, s.pv.counter);
    UsedIsCompleted(s);
  }

  lemma OpenMarked(s: State)
    requires Shaped(s) && MarksExact(s) && Synced(s)
    ensures MarkedHeads(s.area.desc) == s.open.Keys && |MarkedHeads(s.area.desc)| == |s.open|
  {
    hide RingSize;
    ScanFindsOpen(s);
    assert |s.open.Keys| == |s.open|;
  }

  lemma MarkOneMore(desc: seq<HeadState>, b: nat, counter: nat)
    requires b < |desc| && b !in MarkedHeads(desc)
    ensures MarkedHeads(desc[b := HeadState(1, counter)]) == MarkedHeads(desc) + {b}
    ensures |MarkedHeads(desc[b := HeadState(1, counter)])| == |MarkedHeads(desc)| + 1
  {
    assert MarkedHeads(desc[b := HeadState(1, counter)]) == MarkedHeads(desc) + {b};
  }

  lemma TwoPending(s: State)
    requires History(s) && OpenExact(s) && s.fetched + 1 < |s.published|
    ensures s.published[s.fetched] !in s.open && s.published[s.fetched + 1] !in s.open
    ensures s.published[s.fetched] != s.published[s.fetched + 1]
  {
    hide NoDuplicates;
    PendingApart(s);
    assert s.published[s.fetched] in Pending(s, s.fetched) && s.published[s.fetched + 1] in Pending(s, s.fetched);
    assert s.fetched !in s.completed;
  }

  lemma SkipOwes(s: State, t: State)
    requires History(s) && RingSize(s.num) && s.fetched + 1 < |s.published| && t.published == s.published
    requires s.published[s.fetched] !in s.open && s.published[s.fetched] != s.published[s.fetched + 1]
    requires Waiting(t.pv) == s.open.Keys + {s.published[s.fetched + 1]}
    requires t.pv.lastAvail == Low16(s.fetched + 1 - |s.completed| + Low16(|s.completed|))
    ensures s.fetched !in s.completed && s.published[s.fetched] !in Waiting(t.pv) && !ToRead(t, s.fetched)
    ensures s.published[s.fetched + 1] in Waiting(t.pv) && ToRead(t, s.fetched + 1)
  {
    hide RingSize, Low16, NoDuplicates, Waiting;
    SmallRing(s.num);
    Low16Step(|s.completed|, s.fetched + 1 - |s.completed|);
    Behind(|s.published|, s.fetched + 1);
  }

  // ---- A nonzero used index at the start --------------------------------------------------------------------

  /** A fetched, uncompleted request that the idle backend neither holds nor will resubmit. */
  ghost predicate Lost(s: State, p: nat) {
    && s.pc.Idle? && p < s.fetched <= |s.published| && p !in s.completed
    && s.published[p] !in Waiting(s.pv)
  }

  /** Attached, with more published since. */
  ghost predicate Supplied(s: State, t: State) {
    && Shaped(t) && History(t) && RingHolds(t)
    && t == s.(published := t.published, ring := t.ring, area := s.area.(version := INFLIGHT_VERSION), pc := Idle)
    && s.published <= t.published
  }

  lemma Attach(s: State) returns (t: State)
    requires Start(s)
    ensures Reaches(s, t) && Supplied(s, t)
  {
    hide RingSize, Slot, Low16, NoDuplicates, Reaches;
    ReachSelf(s);
    ReachStep(s, s, Continue);
    t := Next(s, Continue);
    RingDepends(s, t);
  }

  /** While there is room some head is free, and the driver may publish it. */
  lemma Supply(s: State, t: State) returns (t': State)
    requires Start(s) && Reaches(s, t) && Supplied(s, t) && |t.published| < s.fetched + s.num
    ensures Reaches(s, t') && Supplied(s, t') && |t'.published| == |t.published| + 1
  {
    hide RingSize, Slot, Low16, NoDuplicates, Reaches, RingHolds;
    var h := FreeHead(t);
    ReachStep(s, t, Publish(h));
    t' := Next(t, Publish(h));
    PublishRing(t, h);
    PublishHistory(t, h);
  }

  lemma FreeHead(t: State) returns (h: nat)
    requires Shaped(t) && History(t) && t.fetched == |t.completed| && t.open == map[]
    requires |t.published| < t.fetched + t.num && t.pc.Idle?
    ensures Enabled(t, Publish(h)) && OpenExact(t)
  {
    hide RingSize, Slot, Low16, NoDuplicates;
    AllFetched(t);
    PendingSize(t, t.fetched);
    var free := Below(t.num) - Pending(t, t.fetched);
    if free == {} {
      SubsetSize(Below(t.num), Pending(t, t.fetched));
      assert false;
    }
    h :| h in free;
    forall p | 0 <= p < |t.published| && p !in t.completed ensures t.published[p] != h {
      assert t.published[p] in Pending(t, t.fetched);
    }
  }

  lemma SupplyTo(s: State, k: nat) returns (t: State)
    requires Start(s) && k <= s.num
    ensures Reaches(s, t) && Supplied(s, t) && |t.published| >= s.fetched + k
    decreases k
  {
    hide Reaches, Supplied, Start;
    if k == 0 {
      t := Attach(s);
      SuppliedLonger(s, t);
    } else {
      t := SupplyTo(s, k - 1);
      if |t.published| < s.fetched + k {
        t := Supply(s, t);
      }
    }
  }

  lemma SuppliedLonger(s: State, t: State)
    requires Start(s) && Supplied(s, t)
    ensures |t.published| >= s.fetched
  {
    hide RingSize, Slot, Low16, NoDuplicates, RingHolds;
  }

  /** Position `f + i` is next to be popped after `i` pops. */
  lemma NextAtHand(t: State, f: nat)
    requires Shaped(t) && History(t) && RingHolds(t) && t.pc.Idle? && t.pv.resubmit == [] && t.pv.inuse < t.num
    requires t.pv.lastAvail == Low16(f) && |t.completed| <= f < |t.published|
    ensures EntryAtHand(t) && t.ring[Slot(t.pv.lastAvail, t.num)] == t.published[f]
  {
    hide RingSize, Slot, Low16, NoDuplicates;
    SmallRing(t.num);
    SlotOfWrapped(f, t.num);
    StillBehind(|t.published|, f);
  }

  /** The completion of `a` is begun, up to the store of `last_batch_head`. */
  function Named(u: State, a: nat): State
    requires RingSize(u.num) && |u.used| == u.num && a < WORD16
  {
    u.(used := u.used[Slot(u.pv.usedIdx, u.num) := a], area := StoreBatch(u.area, a), pc := Tagged(a))
  }

  lemma NameReaches(s: State, u: State, a: nat)
    requires Reaches(s, u) && Shaped(u) && u.pc.Idle? && a in u.pv.held && a < u.num && a in u.published
    ensures a < WORD16 && Shaped(Named(u, a)) && Reaches(s, Named(u, a))
  {
    hide Slot, Low16, Reaches;
    var u1 := Next(u, BeginPush(a));
    ReachStep(s, u, BeginPush(a));
    assert u1 == u.(used := u.used[Slot(u.pv.usedIdx, u.num) := a], pc := Filled(a));
    ReachStep(s, u1, Continue);
    assert Next(u1, Continue) == Named(u, a);
  }

  /** Pops `k` requests, one or two, begins to complete the first and crashes: `used->idx` has not moved, but
      the attached area never knew it, so recovery takes the completion for done and clears the mark. */
  lemma CrashForgetsFirst(s: State, k: nat) returns (t: State)
    requires Start(s) && s.usedMem != 0 && 1 <= k <= 2 && k <= s.num
    ensures Reaches(s, t) && t.pc.Idle? && t.completed == s.completed && t.fetched == s.fetched + k <= |t.published|
    ensures s.published <= t.published && s.fetched !in t.completed
    ensures |t.published| <= s.fetched + s.num
    ensures k == 2 ==> t.published[s.fetched] != t.published[s.fetched + 1]
    ensures Waiting(t.pv) == if k == 1 then {} else {t.published[s.fetched + 1]}
    ensures t.pv.lastAvail == Low16(s.fetched + k - 1)
  {
    hide RingSize, Slot, Low16, NoDuplicates, Reaches, Supplied, Start, Recovered, Waiting, MarkedHeads, History,
      RingHolds,
      Named, Popped, EntryAtHand;
    var t0 := SupplyTo(s, k);
    var f, a := s.fetched, t0.published[s.fetched];
    SuppliedFacts(s, t0, k);
    NextAtHand(t0, f);
    PopReaches(s, t0, a);
    var u := Popped(t0, a);
    if k == 2 {
      var b := t0.published[f + 1];
      SecondPop(t0, u, f);
      PopReaches(s, u, b);
      u := Popped(u, b);
    }
    PoppedFacts(t0, u, f, k);
    NameReaches(s, u, a);
    var v := Named(u, a);
    NamedMarks(t0, u, v, f, k);
    RecoveryReaches(s, v);
    RecoveredOwes(v);
    RecoveredKeeps(v);
    t := Recovered(v);
    Low16Step(f, k - 1);
  }

  lemma SuppliedFacts(s: State, t: State, k: nat)
    requires Start(s) && Supplied(s, t) && |t.published| >= s.fetched + k && 1 <= k <= 2
    ensures Shaped(t) && History(t) && RingHolds(t) && t.pc.Idle? && t.pv == Restarted(s.usedMem)
    ensures t.fetched == s.fetched == |t.completed| && t.completed == s.completed
    ensures t.usedMem == s.usedMem == Low16(s.fetched)
    ensures s.published <= t.published && |t.published| <= s.fetched + s.num && s.fetched !in t.completed
    ensures t.num == s.num
    ensures t.published[s.fetched] < t.num
    ensures k == 2 ==> t.published[s.fetched] != t.published[s.fetched + 1] && t.published[s.fetched + 1] < t.num
    ensures t.area.version != 0 && t.area.loggedUsed == 0
    ensures forall h :: 0 <= h < t.num ==> t.area.desc[h].inflight == 0
  {
    hide RingSize, Slot, Low16, NoDuplicates;
  }

  lemma SecondPop(t: State, u: State, f: nat)
    requires Shaped(t) && History(t) && RingHolds(t) && t.pc.Idle? && t.pv.resubmit == [] && t.pv.inuse == 0
    requires f + 1 < |t.published| && |t.completed| == f && t.pv.lastAvail == Low16(f) && t.num >= 2
    requires t.published[f] < t.num && u == Popped(t, t.published[f]) && Shaped(u)
    ensures EntryAtHand(u) && u.ring[Slot(u.pv.lastAvail, u.num)] == t.published[f + 1] < |u.area.desc|
  {
    hide RingSize, Slot, Low16, NoDuplicates;
    Low16Step(f, 1);
    SmallRing(t.num);
    SlotOfWrapped(f + 1, t.num);
    StillBehind(|t.published|, f + 1);
  }

  lemma PoppedFacts(t: State, u: State, f: nat, k: nat)
    requires Shaped(t) && Shaped(u) && t.pc.Idle? && 1 <= k <= 2 && f + k <= |t.published| && t.fetched == f
    requires t.pv == Restarted(t.usedMem) && t.published[f] < t.num
    requires k == 2 ==> t.published[f + 1] < t.num
    requires u == if k == 1 then Popped(t, t.published[f]) else Popped(Popped(t, t.published[f]), t.published[f + 1])
    ensures u.pc.Idle? && t.published[f] in u.pv.held && t.published[f] in u.published
    ensures u.published == t.published && u.completed == t.completed && u.fetched == f + k && u.usedMem == t.usedMem
    ensures u.num == t.num && u.pv.usedIdx == t.usedMem
  {
    hide RingSize, Slot, Low16;
  }

  /** What the repaired area still marks: the requests popped after the first. */
  lemma NamedMarks(t: State, u: State, v: State, f: nat, k: nat)
    requires Shaped(t) && Shaped(u) && Shaped(v) && 1 <= k <= 2 && f + k <= |t.published|
    requires t.published[f] < t.num && (k == 2 ==> t.published[f + 1] < t.num && t.published[f] != t.published[f + 1])
    requires t.area.version != 0 && t.area.loggedUsed == 0 != t.usedMem
    requires forall h :: 0 <= h < t.num ==> t.area.desc[h].inflight == 0
    requires u == if k == 1 then Popped(t, t.published[f]) else Popped(Popped(t, t.published[f]), t.published[f + 1])
    requires t.published[f] < WORD16 && v == Named(u, t.published[f])
    ensures v.usedMem == t.usedMem && v.area.version != 0 && !v.pc.Down?
    ensures v.published == t.published && v.completed == t.completed && v.fetched == u.fetched
    ensures forall h :: 0 <= h < v.num ==> v.area.desc[h].inflight <= 1
    ensures MarkedHeads(Recovered(v).area.desc) == if k == 1 then {} else {t.published[f + 1]}
  {
    hide RingSize, Slot, Low16, Scan;
  }

  lemma NeverLost(run: seq<State>, steps: seq<Step>, n: nat, p: nat)
    requires IsRun(run, steps) && Start(run[0]) && run[0].usedMem == 0 && n < |run| && Allocates(steps, n)
    ensures !Lost(run[n], p)
  {
    hide IsRun, Start;
    var s := run[n];
    if s.pc.Idle? && p < s.fetched && p !in s.completed {
      NothingForgotten(run, steps, n, p);
      if s.published[p] in s.pv.resubmit {
        var k :| 0 <= k < |s.pv.resubmit| && s.pv.resubmit[k] == s.published[p];
      }
    }
  }

  lemma NeverLostFrom(s: State, t: State, p: nat)
    requires Start(s) && s.usedMem == 0 && Reaches(s, t)
    ensures !Lost(t, p)
  {
    hide Enabled, Next, Start, Lost;
    var run: seq<State>, steps: seq<Step> :| Leads(run, steps, s, t);
    RunSize(run, steps);
    NeverLost(run, steps, |steps|, p);
  }

  lemma RunSize(run: seq<State>, steps: seq<Step>)
    requires IsRun(run, steps)
    ensures |run| == |steps| + 1
  {
    hide Enabled, Next;
  }

  /** Recovery forgets nothing exactly when `used->idx` is zero as the area is first attached: from every
      start a run without failed allocations that loses a fetched request exists if and only if it is not. */
  lemma ZeroUsedNeeded(s: State)
    requires Start(s)
    ensures s.usedMem != 0 <==> exists t, p :: Reaches(s, t) && Lost(t, p)
  {
    hide Start, Reaches;
    if s.usedMem != 0 {
      SomeRoom(s);
      var t := CrashForgetsFirst(s, 1);
      assert Lost(t, s.fetched);
    } else {
      forall t, p | Reaches(s, t) ensures !Lost(t, p) {
        NeverLostFrom(s, t, p);
      }
    }
  }

  lemma SomeRoom(s: State)
    requires Start(s)
    ensures s.num >= 1
  {
  }

  lemma DueOnceFrom(s: State, t: State)
    requires Start(s) && s.usedMem == 0 && Reaches(s, t) && t.pc.Idle?
    ensures EachDueOnce(t)
  {
    hide Enabled, Next, Start, EachDueOnce, Inv;
    var run: seq<State>, steps: seq<Step> :| Leads(run, steps, s, t);
    RunSize(run, steps);
    RunKeeps(run, steps, |steps|);
    IdleDueOnce(t);
  }

  // ---- Rings of one entry -------------------------------------------------------------------------------------

  /** All requests have head 0; the completed ones are the first, and at most one is left. */
  ghost predicate SingleHistory(s: State) {
    && Shaped(s) && s.num == 1
    && |s.completed| <= |s.published| <= |s.completed| + 1
    && NoDuplicates(s.completed) && (forall p :: p in s.completed ==> p < |s.completed|)
    && (forall p :: 0 <= p < |s.published| ==> s.published[p] == 0)
    && s.usedMem == Low16(|s.completed|)
  }

  ghost predicate Owed(s: State) {
    |s.published| == |s.completed| + 1
  }

  /** A mark that recovery would believe stands for the request that is left. */
  ghost predicate SingleMark(s: State)
    requires Shaped(s) && s.num == 1
  {
    && s.area.desc[0].inflight <= 1
    && (s.area.desc[0].inflight == 1 && Synced(s) ==> Owed(s))
  }

  /** The backend has the request, and its index is past it; or it has not, and the index is at it. */
  ghost predicate SingleBackend(s: State, has: bool) {
    && s.pv.usedIdx == s.usedMem && ListSane(s.pv) && s.area.version != 0
    && Waiting(s.pv) == (if has then {0} else {})
    && s.pv.lastAvail == Low16(|s.completed| + if has then 1 else 0)
    && (has ==> Owed(s))
  }

  /** The next completion will not move `used->idx` to where the area already thinks it is. */
  ghost predicate NotAhead(s: State) {
    s.area.loggedUsed != Low16(|s.completed| + 1)
  }

  ghost predicate Single(s: State) {
    && SingleHistory(s) && SingleMark(s)
    && match s.pc
       case Down => Unattached(s)
       case Connect => Unattached(s) && s.pv == Restarted(s.usedMem)
       case Cleared => s.pv == Restarted(s.usedMem) && s.area.version != 0 && s.area.desc[0].inflight == 0
       case Repaired => s.pv == Restarted(s.usedMem) && s.area.version != 0 && Synced(s)
       case Idle => NotAhead(s) && (SingleBackend(s, false) || SingleBackend(s, true))
       case Got(h) => SingleFetching(s, h)
       case Counted(h) => SingleFetching(s, h)
       case Filled(h) => NotAhead(s) && SingleBackend(s, true) && h == 0 && s.used[0] == 0 && 0 in s.pv.held
       case Tagged(h) => NotAhead(s) && SingleBackend(s, true) && h == 0 && s.used[0] == 0 && 0 in s.pv.held
       case Indexed(h) => SingleBackend(s, false) && h == 0 && !Synced(s)
       case Unmarked(h) => SingleBackend(s, false) && h == 0 && s.area.desc[0].inflight == 0
  }

  ghost predicate Unattached(s: State)
    requires Shaped(s) && s.num == 1
  {
    s.area.version == 0 ==> s.area.desc[0].inflight == 0 && NotAhead(s)
  }

  ghost predicate SingleFetching(s: State, h: nat) {
    && NotAhead(s) && h == 0 && Owed(s) && s.pv.usedIdx == s.usedMem && s.area.version != 0
    && s.pv.resubmit == [] && s.pv.held == {} && s.pv.lastAvail == Low16(|s.completed| + 1)
  }

  lemma OneSlot(p: nat)
    ensures Slot(p, 1) == 0
  {
  }

  lemma SingleStart(s: State)
    requires Start(s) && s.num == 1 && s.usedMem != 0xFFFF
    ensures Single(s)
  {
    hide RingSize, Slot, RingHolds;
    FreshList();
    assert Low16(|s.completed| + 1) != 0;
  }

  lemma NotOwed(s: State, h: nat)
    requires SingleHistory(s) && h < s.num && !Outstanding(s, h)
    ensures !Owed(s)
  {
    hide NoDuplicates;
    if Owed(s) {
      LeftOver(s);
      assert false;
    }
  }

  lemma LeftOver(s: State)
    requires SingleHistory(s) && Owed(s)
    ensures Outstanding(s, 0)
  {
    hide NoDuplicates;
    assert s.published[|s.completed|] == 0;
  }

  lemma SingleDriver(s: State, h: nat)
    requires Single(s) && Enabled(s, Publish(h))
    ensures Single(Next(s, Publish(h)))
  {
    hide RingSize, Slot, Low16, NoDuplicates, ListSane, Waiting;
    var s' := Next(s, Publish(h));
    NotOwed(s, h);
    assert SingleHistory(s') && SingleMark(s');
  }

  lemma SingleStop(s: State, step: Step)
    requires Single(s) && Enabled(s, step) && (step.Crash? || step.Restart?)
    ensures Single(Next(s, step))
  {
    hide RingSize, Slot, Low16, NoDuplicates, ListSane, Waiting;
  }

  lemma SingleTake(s: State)
    requires Single(s) && Enabled(s, TakeResubmitted)
    ensures Single(Next(s, TakeResubmitted))
  {
    hide RingSize, Slot, Low16, NoDuplicates, ListSane, Waiting;
    ListStep(s.pv);
  }

  lemma SingleBeginPop(s: State)
    requires Single(s) && Enabled(s, BeginPop)
    ensures Single(Next(s, BeginPop))
  {
    hide RingSize, Slot, Low16, NoDuplicates;
    Low16Step(|s.completed|, 1);
    if SingleBackend(s, true) {
      assert false;
    }
    assert s.pv.held == {} by {
      forall h ensures h !in s.pv.held {
        assert h in s.pv.held ==> h in Waiting(s.pv);
      }
    }
  }

  lemma SingleFetch(s: State)
    requires Single(s) && (s.pc.Got? || s.pc.Counted?)
    ensures Single(Next(s, Continue))
  {
    hide RingSize, Slot, Low16;
    if s.pc.Counted? {
      var s' := Next(s, Continue);
      assert Waiting(s'.pv) == {0};
    }
  }

  lemma SingleBeginPush(s: State, h: nat)
    requires Single(s) && Enabled(s, BeginPush(h))
    ensures Single(Next(s, BeginPush(h)))
  {
    hide RingSize, Slot, Low16, NoDuplicates, ListSane;
    OneSlot(s.pv.usedIdx);
    assert h in Waiting(s.pv);
  }

  lemma SingleComplete(s: State)
    requires Single(s) && s.pc.Tagged?
    ensures Single(Next(s, Continue))
  {
    hide RingSize, Slot, Low16, NoDuplicates;
    OneSlot(s.pv.usedIdx);
    Low16Step(|s.completed|, 1);
    var s' := Next(s, Continue);
    assert s'.completed == s.completed + [|s.completed|];
    AppendNew(s.completed);
    HeldOnly(s.pv);
    assert s'.pv == s.pv.(usedIdx := s'.usedMem, inuse := s'.pv.inuse, held := s.pv.held - {0});
  }

  lemma AppendNew(c: seq<nat>)
    requires NoDuplicates(c) && forall p :: p in c ==> p < |c|
    ensures NoDuplicates(c + [|c|]) && forall p :: p in c + [|c|] ==> p < |c| + 1
  {
    forall i | 0 <= i < |c| ensures c[i] != |c| {
      assert c[i] in c;
    }
  }

  lemma FirstWaits(pv: Private)
    requires pv.resubmit != []
    ensures pv.resubmit[0] in Waiting(pv)
  {
  }

  lemma HeldOnly(pv: Private)
    requires ListSane(pv) && Waiting(pv) == {0} && 0 in pv.held
    ensures pv.resubmit == [] && pv.held == {0}
  {
    if pv.resubmit != [] {
      FirstWaits(pv);
      assert false;
    }
    forall h | h in pv.held ensures h == 0 {
      assert h in Waiting(pv);
    }
  }

  lemma SingleFilled(s: State)
    requires Single(s) && s.pc.Filled?
    ensures Single(Next(s, Continue))
  {
    hide RingSize, Slot, NoDuplicates, ListSane, Waiting, Low16;
    LeftOver(s);
    OneSlot(s.pv.usedIdx);
  }

  lemma SingleIndexed(s: State)
    requires Single(s) && s.pc.Indexed?
    ensures Single(Next(s, Continue))
  {
    hide RingSize, Slot, NoDuplicates, ListSane, Waiting, Low16;
  }

  lemma SingleUnmarked(s: State)
    requires Single(s) && s.pc.Unmarked?
    ensures Single(Next(s, Continue))
  {
    hide RingSize, Slot, NoDuplicates, ListSane, Waiting;
    Unequal16(|s.completed|);
    hide Low16;
  }

  lemma Unequal16(n: nat)
    ensures Low16(n) != Low16(n + 1)
  {
  }

  lemma SingleConnect(s: State)
    requires Single(s) && s.pc.Connect?
    ensures Single(Next(s, Continue))
  {
    hide RingSize, Slot, NoDuplicates, ListSane, Waiting, Scan, Low16;
    FreshList();
  }

  lemma SingleRepair(s: State)
    requires Single(s) && s.pc.Cleared?
    ensures Single(Next(s, Continue))
  {
    hide RingSize, Slot, NoDuplicates, ListSane, Waiting, Scan, Low16;
  }

  lemma SingleRebuild(s: State)
    requires Single(s) && s.pc.Repaired?
    ensures Single(Next(s, Continue))
  {
    hide RingSize, Slot, NoDuplicates, ListSane, Waiting, Scan;
    var s' := Next(s, Continue);
    ListNamesMarked(s.area, s.usedMem, s'.pv);
    assert MarkedHeads(s.area.desc) == if s.area.desc[0].inflight == 1 then {0} else {};
    ScanFields(s.area, s.usedMem);
    Low16Step(|s.completed|, 1);
    Low16Step(|s.completed|, 0);
    Unequal16(|s.completed|);
    hide Low16;
  }

  lemma ScanFields(area: Area, usedMem: U16)
    ensures var r := Scan(area, usedMem, 0);
            r.usedIdx == usedMem && r.lastAvail == Low16(usedMem + |MarkedHeads(area.desc)|)
  {
    hide Sort, Collect, Low16;
    CountIsMarked(area.desc);
  }

  lemma SingleStep(s: State, step: Step)
    requires Single(s) && Enabled(s, step) && !Fails(step)
    ensures Single(Next(s, step))
  {
    hide Single, Next, Outstanding, RingSize, Slot, Low16;
    match step
    case Publish(h) => SingleDriver(s, h);
    case Crash => SingleStop(s, step);
    case Restart => SingleStop(s, step);
    case TakeResubmitted => SingleTake(s);
    case BeginPop => SingleBeginPop(s);
    case BeginPush(h) => SingleBeginPush(s, h);
    case Continue =>
      match s.pc
      case Connect => SingleConnect(s);
      case Cleared => SingleRepair(s);
      case Repaired => SingleRebuild(s);
      case Got(_) => SingleFetch(s);
      case Counted(_) => SingleFetch(s);
      case Filled(_) => SingleFilled(s);
      case Tagged(_) => SingleComplete(s);
      case Indexed(_) => SingleIndexed(s);
      case Unmarked(_) => SingleUnmarked(s);
  }

  lemma {:induction false} SingleRun(run: seq<State>, steps: seq<Step>, n: nat)
    requires IsRun(run, steps) && Single(run[0]) && n < |run| && Allocates(steps, n)
    ensures Single(run[n])
  {
    hide Single, Next, Enabled;
    if n > 0 {
      SingleRun(run, steps, n - 1);
      assert Enabled(run[n - 1], steps[n - 1]) && run[n] == Next(run[n - 1], steps[n - 1]);
      SingleStep(run[n - 1], steps[n - 1]);
    }
  }

  lemma SingleDueOnce(s: State)
    requires Single(s) && s.pc.Idle?
    ensures EachDueOnce(s)
  {
    hide RingSize, Slot, Low16, NoDuplicates, Waiting, ListSane, SingleMark;
    var c := |s.completed|;
    FillsUp(s.completed);
    Behind(|s.published|, c);
    if SingleBackend(s, true) {
      Behind(|s.published|, c + 1);
      LeftOver(s);
    }
  }

  // ---- One service, exactly when ------------------------------------------------------------------------------

  /** The index wraps to the zero that the area still shows: the completed request is taken for open. */
  lemma WrapRevives(s: State) returns (t: State)
    requires Start(s) && s.num == 1 && s.usedMem == 0xFFFF
    ensures Reaches(s, t) && t.pc.Idle? && !EachDueOnce(t)
  {
    hide RingSize, Slot, Low16, NoDuplicates, Reaches, Supplied, Start, Recovered, Waiting, MarkedHeads, History,
      RingHolds,
      Named, Popped, EntryAtHand, EachDueOnce;
    var f := s.fetched;
    var t0 := SupplyTo(s, 1);
    SuppliedFacts(s, t0, 1);
    NextAtHand(t0, f);
    PopReaches(s, t0, 0);
    var u := Popped(t0, 0);
    PoppedFacts(t0, u, f, 1);
    NameReaches(s, u, 0);
    var v := Named(u, 0);
    var w := Next(v, Continue);
    ReachNamed(s, t0, u, v, w, f);
    RecoveryReaches(s, w);
    RecoveredOwes(w);
    RecoveredKeeps(w);
    t := Recovered(w);
    Revived(t);
  }

  lemma ReachNamed(s: State, t: State, u: State, v: State, w: State, f: nat)
    requires Shaped(t) && History(t) && t.num == 1 && t.area.version != 0 && t.area.loggedUsed == 0
    requires t.usedMem == 0xFFFF && t.pv == Restarted(t.usedMem) && f == t.fetched == |t.completed|
    requires |t.published| == f + 1
    requires t.published[f] == 0 && u == Popped(t, 0) && Shaped(v) && v == Named(u, 0)
    requires Reaches(s, v) && w == Next(v, Continue)
    ensures Reaches(s, w) && Shaped(w) && !w.pc.Down? && w.area.version != 0
    ensures (forall h :: 0 <= h < w.num ==> w.area.desc[h].inflight <= 1) && MarkedHeads(Recovered(w).area.desc) == {0}
    ensures w.published == t.published && w.completed == t.completed + [f]
    ensures forall p :: 0 <= p < |w.published| ==> p in w.completed
  {
    hide RingSize, NoDuplicates, Reaches, Scan;
    ReachStep(s, v, Continue);
    OneSlot(v.pv.usedIdx);
    assert Latest(t.published, 0) == f;
    FillsUp(t.completed);
  }

  lemma Revived(t: State)
    requires t.pc.Idle? && 0 in Waiting(t.pv) && forall p :: 0 <= p < |t.published| ==> p in t.completed
    ensures !EachDueOnce(t)
  {
    hide Waiting, Low16, NoDuplicates;
    assert !Outstanding(t, 0);
  }

  /** What a nonzero start costs. With two entries or more the forgotten request is never read again, and a
      request can go without service or be served twice exactly when `used->idx` is not zero. A single entry
      is read again, and goes wrong only when the first completion wraps the index to zero. */
  lemma OneServiceExactly(s: State)
    requires Start(s)
    ensures (exists t :: Reaches(s, t) && t.pc.Idle? && !EachDueOnce(t))
      <==> s.usedMem != 0 && (s.num >= 2 || s.usedMem == 0xFFFF)
  {
    hide Start, Reaches, EachDueOnce;
    SomeRoom(s);
    if s.usedMem == 0 {
      forall t | Reaches(s, t) && t.pc.Idle? ensures EachDueOnce(t) {
        DueOnceFrom(s, t);
      }
    } else if s.num >= 2 {
      var t := FirstGoesUnserved(s);
    } else if s.usedMem == 0xFFFF {
      var t := WrapRevives(s);
    } else {
      forall t | Reaches(s, t) && t.pc.Idle? ensures EachDueOnce(t) {
        SingleFrom(s, t);
      }
    }
  }

  lemma FirstGoesUnserved(s: State) returns (t: State)
    requires Start(s) && s.num >= 2 && s.usedMem != 0
    ensures Reaches(s, t) && t.pc.Idle? && !EachDueOnce(t)
  {
    hide Start, Reaches, EachDueOnce, Waiting, Low16, NoDuplicates;
    t := CrashForgetsFirst(s, 2);
    assert RingSize(s.num) by {
      StartRing(s);
    }
    SmallRing(s.num);
    assert !ToRead(t, s.fetched) by {
      Behind(|t.published|, s.fetched + 1);
    }
    NotDue(t, s.fetched);
  }

  lemma StartRing(s: State)
    requires Start(s)
    ensures RingSize(s.num)
  {
  }

  lemma SingleFrom(s: State, t: State)
    requires Start(s) && s.num == 1 && s.usedMem != 0xFFFF && Reaches(s, t) && t.pc.Idle?
    ensures EachDueOnce(t)
  {
    hide Enabled, Next, Start, EachDueOnce, Single;
    var run: seq<State>, steps: seq<Step> :| Leads(run, steps, s, t);
    RunSize(run, steps);
    SingleStart(s);
    SingleRun(run, steps, |steps|);
    SingleDueOnce(t);
  }
}
