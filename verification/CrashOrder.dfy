// Resubmission in fetch order across crashes.

module CrashOrder {
  import opened Words
  import opened Inflight
  import opened Crash
  import opened Sets

  /** Later requests carry larger counters in the area, but no further apart than the requests are. */
  ghost predicate CountersOrdered(s: State)
    requires Shaped(s)
  {
    forall h, k :: h in s.open && k in s.open && h < s.num && k < s.num && s.open[h] < s.open[k]
      ==> 0 < s.area.desc[k].counter - s.area.desc[h].counter <= s.open[k] - s.open[h]
  }

  /** The next counter exceeds every one in use, by no more than the fetches since. */
  ghost predicate CounterAhead(s: State)
    requires Shaped(s)
  {
    match s.pc
    case Down => true
    case Connect => true
    case Cleared => true
    case Repaired => true
    case Counted(x) =>
      s.area.desc[x].counter + 1 == s.pv.counter
      && forall h :: h in s.open && h < s.num ==>
           0 < s.area.desc[x].counter - s.area.desc[h].counter <= s.fetched - s.open[h]
    case _ =>
      forall h :: h in s.open && h < s.num ==> 0 < s.pv.counter - s.area.desc[h].counter <= s.fetched - s.open[h]
  }

  /** The resubmit list, popped from its end, runs from the oldest request to the newest. */
  ghost predicate ListOrdered(s: State) {
    && (forall i :: 0 <= i < |s.pv.resubmit| ==> s.pv.resubmit[i] in s.open)
    && (forall i, j :: 0 <= i < j < |s.pv.resubmit| ==> s.open[s.pv.resubmit[i]] > s.open[s.pv.resubmit[j]])
  }

  ghost predicate Ordered(s: State)
    requires Shaped(s)
  {
    CountersOrdered(s) && CounterAhead(s) && ListOrdered(s)
  }

  /** No request in flight was fetched 2048 or more fetches before another one. */
  ghost predicate NearEnough(s: State) {
    forall h, k :: h in s.open && k in s.open ==> s.open[h] < s.open[k] + 2048
  }

  /** The in-flight counters recovery finds span less than the comparator can order. */
  ghost predicate SpanOk(s: State)
    requires Shaped(s)
  {
    forall h, k :: h < s.num && k < s.num && h in s.open && k in s.open
      ==> s.area.desc[h].counter < s.area.desc[k].counter + COUNTER_SPAN
  }

  /** Counters are no further apart than fetches. */
  lemma NearMeansSpan(s: State)
    requires Shaped(s) && CountersOrdered(s) && OpenExact(s) && NearEnough(s)
    ensures SpanOk(s)
  {
    hide RingSize, OpenExact;
    forall h, k | h < s.num && k < s.num && h in s.open && k in s.open
      ensures s.area.desc[h].counter < s.area.desc[k].counter + COUNTER_SPAN
    {
      if h != k {
        OpenApart(s, h, k);
      }
    }
  }

  /** A device that completes in fetch order is always near enough, in rings of up to 2048 entries. */
  lemma InOrderIsNear(s: State)
    requires Inv(s) && s.num <= COUNTER_SPAN
    requires forall p, q :: 0 <= p < q && q in s.completed ==> p in s.completed
    ensures NearEnough(s)
  {
    hide RingSize, Slot, RingHolds, MarksExact, BackendExact;
    FirstOnes(s);
    forall h, k | h in s.open && k in s.open ensures s.open[h] < s.open[k] + COUNTER_SPAN {
      assert s.open[k] !in s.completed && s.open[k] >= |s.completed|;
    }
  }

  /** Completions without gaps are the first requests. */
  lemma FirstOnes(s: State)
    requires History(s) && forall p, q :: 0 <= p < q && q in s.completed ==> p in s.completed
    ensures forall p :: 0 <= p < |s.completed| ==> p in s.completed
  {
    hide Low16;
    CountDistinct(s.completed);
    forall p | 0 <= p < |s.completed| ensures p in s.completed {
      if p !in s.completed {
        forall q | q in Members(s.completed) ensures q in Below(p) {
          assert q in s.completed;
        }
        SubsetSize(Members(s.completed), Below(p));
      }
    }
  }

  lemma StartOrdered(s: State)
    requires Start(s)
    ensures Ordered(s)
  {
    hide RingSize, Slot, Low16, NoDuplicates, History, RingHolds;
  }

  /** Steps that leave requests, counters and list alone. */
  lemma OrderedDepends(s: State, t: State)
    requires Shaped(s) && Shaped(t) && CountersOrdered(s) && ListOrdered(s)
    requires t.num == s.num && t.open == s.open && t.pv.resubmit == s.pv.resubmit
    requires forall h :: 0 <= h < s.num && h in s.open ==> t.area.desc[h].counter == s.area.desc[h].counter
    ensures CountersOrdered(t) && ListOrdered(t)
  {
  }

  lemma CountedOrdered(s: State)
    requires Inv(s) && Ordered(s) && s.pc.Counted?
    ensures Shaped(Next(s, Continue)) && Ordered(Next(s, Continue))
  {
    hide RingSize, Slot, Low16, RingHolds, History, MarksExact, ListSane, Waiting;
  }

  lemma TaggedOrdered(s: State)
    requires Inv(s) && Ordered(s) && s.pc.Tagged?
    ensures Shaped(Next(s, Continue)) && Ordered(Next(s, Continue))
  {
    hide RingSize, Slot, Low16, RingHolds, History, MarksExact, Waiting, NoDuplicates, OpenExact, Ordered;
    assert s.pc.head !in s.pv.resubmit by {
      HeldNotListed(s.pv, s.pc.head);
    }
    OpenLess(s, Next(s, Continue), s.pc.head);
  }

  lemma HeldNotListed(pv: Private, h: nat)
    requires ListSane(pv) && h in pv.held
    ensures h !in pv.resubmit
  {
    hide NoDuplicates;
  }

  /** A completed head leaves the others in order. */
  lemma OpenLess(s: State, t: State, h: nat)
    requires Shaped(s) && Shaped(t) && Ordered(s) && h !in s.pv.resubmit
    requires t.num == s.num && t.area == s.area && t.open == s.open - {h} && t.fetched == s.fetched
    requires t.pv.resubmit == s.pv.resubmit && t.pv.counter == s.pv.counter && s.pc.Tagged? && t.pc.Indexed?
    ensures Ordered(t)
  {
    hide RingSize, Slot;
  }

  lemma GotOrdered(s: State)
    requires Shaped(s) && Ordered(s) && s.pc.Got? && Shaped(Next(s, Continue)) && s.pc.head !in s.open
    ensures Ordered(Next(s, Continue))
  {
    hide RingSize, Slot, Low16, CountersOrdered, ListOrdered;
    OrderedDepends(s, Next(s, Continue));
  }

  lemma TakeOrdered(s: State)
    requires Inv(s) && Ordered(s) && Enabled(s, TakeResubmitted)
    ensures Shaped(Next(s, TakeResubmitted)) && Ordered(Next(s, TakeResubmitted))
  {
    hide RingSize, Slot, Low16, RingHolds, History, OpenExact, MarksExact, ListSane, Waiting;
  }

  lemma CollectedOpen(s: State)
    requires Shaped(s) && MarksExact(s) && Synced(s)
    ensures forall e :: e in Collect(s.area.desc) ==>
      e.index < s.num && e.index in s.open && e.counter == s.area.desc[e.index].counter
  {
    hide RingSize, Collect;
  }

  /** Distinct open heads carry distinct requests. */
  lemma OpenApart(s: State, h: nat, k: nat)
    requires OpenExact(s) && h in s.open && k in s.open && h != k
    ensures s.open[h] != s.open[k]
  {
    assert s.published[s.open[h]] == h && s.published[s.open[k]] == k;
  }

  /** Distinct requests, distinct counters: what the scan collects can be sorted. */
  lemma CollectedSortable(s: State)
    requires Shaped(s) && OpenExact(s) && MarksExact(s) && Synced(s) && CountersOrdered(s) && SpanOk(s)
    ensures DistinctCounters(Collect(s.area.desc)) && Spread(Collect(s.area.desc))
  {
    hide RingSize, Collect, MarksExact, OpenExact;
    CollectedOpen(s);
    var c := Collect(s.area.desc);
    forall i, j | 0 <= i < j < |c| ensures c[i].counter != c[j].counter {
      assert c[i] in c && c[j] in c;
      OpenApart(s, c[i].index, c[j].index);
    }
  }

  lemma RepairedOrdered(s: State)
    requires Inv(s) && Ordered(s) && NearEnough(s) && s.pc.Repaired?
    ensures Shaped(Next(s, Continue)) && Ordered(Next(s, Continue))
  {
    hide RingSize, Slot, Low16, RingHolds, History, DistinctCounters, Spread, Scan, ListSane, Waiting, MarksExact,
      OpenExact, Collect, CountOnes, Descending, SpanOk, CountersOrdered, NearEnough, MarkedHeads, Indexes;
    var s', r := Next(s, Continue), Scan(s.area, s.usedMem, 0);
    assert s'.area == s.area && s'.open == s.open && s'.num == s.num && s'.fetched == s.fetched;
    SmallMarks(s);
    NearMeansSpan(s);
    CollectedSortable(s);
    ScanFindsOpen(s);
    ScanReplaysFetchOrder(s.area, s.usedMem, 0);
    CountersDepend(s, s');
    OpenInRing(s);
    RestoredOrder(s, r.resubmit, s'.pv.resubmit);
    NextCounter(s, r.counter);
  }

  lemma CountersDepend(s: State, t: State)
    requires Shaped(s) && Shaped(t) && CountersOrdered(s) && t.num == s.num && t.open == s.open && t.area == s.area
    ensures CountersOrdered(t)
  {
  }

  lemma OpenInRing(s: State)
    requires Shaped(s) && MarksExact(s)
    ensures forall h :: h in s.open ==> h < s.num
  {
    hide RingSize;
  }

  /** One more than the newest counter in flight is ahead of all by no more than the fetches since. */
  lemma NextCounter(s: State, counter: nat)
    requires Shaped(s) && OpenExact(s) && CountersOrdered(s) && (forall h :: h in s.open ==> h < s.num)
    requires forall h :: h in s.open ==> s.area.desc[h].counter < counter
    requires s.open.Keys != {} ==> exists h :: h in s.open && counter == s.area.desc[h].counter + 1
    ensures forall h :: h in s.open && h < s.num ==> 0 < counter - s.area.desc[h].counter <= s.fetched - s.open[h]
  {
    hide RingSize, OpenExact;
    forall h | h in s.open && h < s.num
      ensures 0 < counter - s.area.desc[h].counter <= s.fetched - s.open[h]
    {
      var top :| top in s.open && counter == s.area.desc[top].counter + 1;
      OpenBefore(s, h);
      OpenBefore(s, top);
      if h != top {
        OpenApart(s, h, top);
      }
    }
  }

  lemma OpenBefore(s: State, h: nat)
    requires OpenExact(s) && h in s.open
    ensures s.open[h] < s.fetched
  {
  }

  lemma SmallMarks(s: State)
    requires Shaped(s) && MarksExact(s)
    ensures forall h :: 0 <= h < |s.area.desc| ==> s.area.desc[h].inflight <= 1
  {
    hide RingSize;
  }

  /** Descending counters are descending requests. */
  lemma RestoredOrder(s: State, list: seq<Entry>, heads: seq<nat>)
    requires Shaped(s) && OpenExact(s) && CountersOrdered(s) && Descending(list) && heads == Indexes(list)
    requires forall e :: e in list ==> e.index < s.num && e.index in s.open && e.counter == s.area.desc[e.index].counter
    ensures forall i :: 0 <= i < |heads| ==> heads[i] in s.open
    ensures forall i, j :: 0 <= i < j < |heads| ==> s.open[heads[i]] > s.open[heads[j]]
  {
    hide RingSize;
    forall i | 0 <= i < |heads| ensures heads[i] in s.open && s.published[s.open[heads[i]]] == heads[i] {
      assert list[i] in list;
    }
    forall i, j | 0 <= i < j < |heads| ensures s.open[heads[i]] > s.open[heads[j]] {
      assert list[i] in list && list[j] in list;
      assert list[i].counter > list[j].counter;
    }
  }

  lemma StepOrdered(s: State, step: Step)
    requires Inv(s) && Ordered(s) && Enabled(s, step)
    requires s.pc.Repaired? && step.Continue? ==> NearEnough(s)
    ensures Shaped(Next(s, step)) && Ordered(Next(s, step))
  {
    hide RingSize, Slot, Low16, RingHolds, History, OpenExact, MarksExact, ListSane, Waiting, Outstanding, Scan,
      Ordered, Next;
    if Fails(step) {
      FailOrdered(s, step);
      return;
    }
    StepKeeps(s, step);
    ShapedAfter(s, step);
    if step.TakeResubmitted? {
      TakeOrdered(s);
    } else if step.Continue? && s.pc.Repaired? {
      RepairedOrdered(s);
    } else if step.Continue? && s.pc.Tagged? {
      TaggedOrdered(s);
    } else if step.Continue? && s.pc.Counted? {
      CountedOrdered(s);
    } else if step.Continue? && s.pc.Got? {
      NotYetOpen(s);
      GotOrdered(s);
    } else if step.Crash? || step.Restart? {
      CrashOrdered(s, step);
    } else if step.Continue? {
      if s.pc.Connect? {
        ConnectFacts(s);
      }
      QuietOrdered(s);
    } else {
      OtherOrdered(s, step);
    }
  }

  /** A failed allocation shortens the list or moves the index; the order stays. */
  lemma FailOrdered(s: State, step: Step)
    requires Shaped(s) && Ordered(s) && Enabled(s, step) && Fails(step)
    ensures Shaped(Next(s, step)) && Ordered(Next(s, step))
  {
    hide RingSize, Slot, Low16;
  }

  lemma ShapedAfter(s: State, step: Step)
    requires Inv(Next(s, step))
    ensures Shaped(Next(s, step))
  {
    hide Shaped, History, RingHolds, OpenExact, MarksExact, BackendExact, Next;
  }

  lemma NotYetOpen(s: State)
    requires Inv(s) && s.pc.Got?
    ensures s.pc.head !in s.open
  {
    hide RingSize, Slot, Low16, RingHolds, MarksExact, Running, History, OpenExact;
    NextNotOpen(s);
  }

  lemma CrashOrdered(s: State, step: Step)
    requires Shaped(s) && Ordered(s) && Enabled(s, step) && Shaped(Next(s, step))
    requires step.Crash? || step.Restart?
    ensures Ordered(Next(s, step))
  {
    hide RingSize, Slot, Low16;
  }

  lemma OtherOrdered(s: State, step: Step)
    requires Shaped(s) && Ordered(s) && Enabled(s, step) && Shaped(Next(s, step))
    requires step.Publish? || step.BeginPop? || step.BeginPush?
    ensures Ordered(Next(s, step))
  {
    hide RingSize, Slot, Low16, Outstanding, CountersOrdered, ListOrdered;
    OrderedDepends(s, Next(s, step));
  }

  lemma QuietOrdered(s: State)
    requires Shaped(s) && Ordered(s) && Enabled(s, Continue) && Shaped(Next(s, Continue))
    requires s.pc.Connect? ==> s.pv == Restarted(s.usedMem) && (s.area.version == 0 ==> s.open == map[])
    requires !s.pc.Repaired? && !s.pc.Tagged? && !s.pc.Counted? && !s.pc.Got?
    ensures Ordered(Next(s, Continue))
  {
    hide RingSize, Slot, Low16, CountersOrdered, ListOrdered;
    OrderedDepends(s, Next(s, Continue));
  }

  lemma ConnectFacts(s: State)
    requires Inv(s) && s.pc.Connect?
    ensures s.pv == Restarted(s.usedMem) && (s.area.version == 0 ==> s.open == map[])
  {
    hide RingSize, Slot, Low16, History, RingHolds, OpenExact;
  }

  /** What each recovery of the run finds in flight was fetched within 2048 fetches. */
  ghost predicate RecoversNear(run: seq<State>, steps: seq<Step>)
    requires |run| == |steps| + 1
  {
    forall i :: 0 <= i < |steps| && steps[i].Continue? && run[i].pc.Repaired? ==> NearEnough(run[i])
  }

  /** A whole run of a device that completes in fetch order needs no such hypothesis. */
  lemma InOrderRecoversNear(run: seq<State>, steps: seq<Step>)
    requires IsRun(run, steps) && Start(run[0]) && run[0].usedMem == 0 && Allocates(steps, |steps|)
    requires run[0].num <= COUNTER_SPAN
    requires forall i, p, q :: 0 <= i < |run| && 0 <= p < q && q in run[i].completed ==> p in run[i].completed
    ensures RecoversNear(run, steps)
  {
    hide Start, Enabled, Next, NearEnough, Inv;
    forall i | 0 <= i < |steps| ensures NearEnough(run[i]) {
      RunKeeps(run, steps, i);
      NumStays(run, steps, i);
      InOrderIsNear(run[i]);
    }
  }

  lemma {:induction false} NumStays(run: seq<State>, steps: seq<Step>, n: nat)
    requires IsRun(run, steps) && n < |run|
    ensures run[n].num == run[0].num
  {
    hide Enabled, Next;
    if n > 0 {
      NumStays(run, steps, n - 1);
      assert run[n] == Next(run[n - 1], steps[n - 1]);
      StepNum(run[n - 1], steps[n - 1]);
    }
  }

  lemma StepNum(s: State, step: Step)
    ensures Next(s, step).num == s.num
  {
    hide RingSize, Slot, Low16, Scan, Outstanding;
  }

  lemma {:induction false} RunOrdered(run: seq<State>, steps: seq<Step>, n: nat)
    requires IsRun(run, steps) && Start(run[0]) && run[0].usedMem == 0 && RecoversNear(run, steps) && n < |run|
    requires Allocates(steps, n)
    ensures Inv(run[n]) && Shaped(run[n]) && Ordered(run[n])
  {
    hide Inv, Next, Enabled, Start, Ordered, NearEnough, Shaped;
    RunKeeps(run, steps, n);
    if n == 0 {
      ShapedStart(run[0]);
      StartOrdered(run[0]);
    } else {
      RunOrdered(run, steps, n - 1);
      assert Enabled(run[n - 1], steps[n - 1]) && run[n] == Next(run[n - 1], steps[n - 1]);
      StepOrdered(run[n - 1], steps[n - 1]);
    }
  }

  lemma ShapedStart(s: State)
    requires Start(s)
    ensures Shaped(s)
  {
    hide Shaped, History, RingHolds;
  }

  /** Resubmission replays fetch order: in every run whose recoveries see counters of small span, the
      head handed out next carries the oldest request on the list, and every request that will be popped
      from the ring later was published after all of them. */
  lemma ReplaysInFetchOrder(run: seq<State>, steps: seq<Step>, n: nat)
    requires IsRun(run, steps) && Start(run[0]) && run[0].usedMem == 0 && RecoversNear(run, steps) && n < |run|
    requires Allocates(steps, n)
    requires Enabled(run[n], TakeResubmitted)
    ensures var s := run[n];
            var last := |s.pv.resubmit| - 1;
            forall i :: 0 <= i <= last ==>
              s.pv.resubmit[i] in s.published && s.pv.resubmit[last] in s.published
              && Latest(s.published, s.pv.resubmit[last]) <= Latest(s.published, s.pv.resubmit[i]) < s.fetched
  {
    hide IsRun, Start, RecoversNear, RingSize, Slot, Low16, RingHolds, MarksExact, CountersOrdered, CounterAhead,
      BackendExact, NoDuplicates;
    RunOrdered(run, steps, n);
    var s := run[n];
    var last := |s.pv.resubmit| - 1;
    forall i | 0 <= i <= last
      ensures s.pv.resubmit[i] in s.published && s.pv.resubmit[last] in s.published
        && Latest(s.published, s.pv.resubmit[last]) <= Latest(s.published, s.pv.resubmit[i]) < s.fetched
    {
      OpenIsLatest(s, s.pv.resubmit[i]);
      OpenIsLatest(s, s.pv.resubmit[last]);
    }
  }
}
