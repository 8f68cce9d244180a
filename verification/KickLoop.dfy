// The kick protocol of the log backend: the driver publishes and may kick, the device consumes, publishes
// `avail_event` and re-checks. Every access to memory the two sides share is one step.

module KickLoop {
  import opened Words

  /** The device: waiting, about to read `avail->idx`, consuming up to the index read, about to store
      `avail_event`, about to re-check. `n` counts the chains of this turn of the loop. */
  datatype Device =
    | Idle
    | Read
    | Consume(target: nat, n: nat)
    | SetEvent(n: nat)
    | Recheck(n: nat)

  /** One queue. `avail`, `last` and `eventAt` are the free-running counters behind `avail->idx`,
      `last_avail` and `avail_event`; both sides only ever see their low 16 bits. `checked` is the index
      at the driver's last kick decision, `mustKick` a decision not yet carried out, `kicked` the sticky
      eventfd, `total` the chains of this call and `interrupted` whether it raised the interrupt;
      `wokeAt` is `last` when the call began, and `callable` says that there is a call descriptor. */
  datatype State = State(
    num: nat, eventIdx: bool,
    avail: nat, checked: nat, mustKick: bool,
    last: nat, eventAt: nat, dev: Device, total: nat,
    kicked: bool, interrupted: bool, wokeAt: nat, callable: bool)

  /** `Wake` is a kick read from the eventfd, `InBandKick` one that comes as a message and leaves it alone. */
  datatype Step = Publish(count: nat) | Decide | Kick | Wake | InBandKick | Work

  /** The driver keeps at most `num` entries outstanding and decides before 2^16 publications go by. */
  predicate Enabled(s: State, step: Step) {
    match step
    case Publish(k) => s.avail + k <= s.last + s.num && s.avail + k < s.checked + WORD16
    case Decide => !s.mustKick
    case Kick => s.mustKick
    case Wake => s.dev.Idle? && s.kicked
    case InBandKick => s.dev.Idle?
    case Work => !s.dev.Idle?
  }

  /** After its fence the driver reads `avail_event`; without the feature it kicks every time. */
  predicate WantsKick(s: State) {
    if s.eventIdx then NeedEvent(Low16(s.eventAt), Low16(s.avail), Low16(s.checked)) else s.checked < s.avail
  }

  /** One step of `tx_kick`. The handler's contract is to consume every chain visible when it read the
      index, advancing `last_avail` one by one, and to return how many there were. */
  function Work1(s: State): State
    requires !s.dev.Idle?
  {
    match s.dev
    case Read => s.(dev := Consume(s.avail, 0))
    case Consume(target, n) =>
      if Low16(s.last) != Low16(target) then s.(last := s.last + 1, dev := Consume(target, n + 1))
      else if s.eventIdx then s.(total := s.total + n, dev := SetEvent(n))
      else Leave(s.(total := s.total + n))
    case SetEvent(n) => s.(eventAt := s.last, dev := Recheck(n))
    case Recheck(n) =>
      if Low16(s.avail) == Low16(s.last) then Leave(s)
      else if n == 0 then Leave(s)
      else s.(dev := Read)
  }

  function Leave(s: State): State {
    s.(dev := Idle, interrupted := s.interrupted || (s.total > 0 && s.callable))
  }

  function Next(s: State, step: Step): State
    requires Enabled(s, step)
  {
    match step
    case Publish(k) => s.(avail := s.avail + k)
    case Decide => s.(checked := s.avail, mustKick := WantsKick(s))
    case Kick => s.(kicked := true, mustKick := false)
    case Wake => s.(kicked := false, dev := Read, total := 0, interrupted := false, wokeAt := s.last)
    case InBandKick => s.(dev := Read, total := 0, interrupted := false, wokeAt := s.last)
    case Work => Work1(s)
  }

  ghost predicate Start(s: State) {
    && 0 < s.num <= 0x8000 && s.avail == s.checked == s.last == s.eventAt
    && s.dev.Idle? && !s.mustKick && !s.kicked && !s.interrupted && s.wokeAt == s.last
  }

  // ---- Safety --------------------------------------------------------------------------------------------

  /** Nothing is waiting beyond `from`, or a kick is on its way: pending, decided, or certain to be decided
      because the driver has yet to look at `avail_event` for an entry that passes it. */
  predicate Covered(s: State, from: nat) {
    s.avail == from || s.kicked || s.mustKick || (if s.eventIdx then s.checked <= from else s.checked < s.avail)
  }

  predicate Inv(s: State) {
    && 0 < s.num <= 0x8000
    && s.eventAt <= s.last <= s.avail <= s.last + s.num
    && s.checked <= s.avail < s.checked + WORD16
    && s.wokeAt <= s.last
    && (match s.dev
        case Idle => s.interrupted == (s.callable && s.last > s.wokeAt)
        case Consume(_, n) => s.total + n == s.last - s.wokeAt && !s.interrupted
        case _ => s.total == s.last - s.wokeAt && !s.interrupted)
    && match s.dev
       case Idle => Covered(s, s.last) && (s.eventIdx ==> s.eventAt == s.last)
       case Read => s.eventIdx ==> s.eventAt == s.last
       case Consume(target, n) =>
         && s.last <= target <= s.avail && target <= s.last + s.num
         && (!s.eventIdx ==> Covered(s, target))
         && (s.eventIdx && n == 0 ==> s.eventAt == s.last && (target == s.last ==> Covered(s, s.last)))
       case SetEvent(n) => s.eventIdx && (n == 0 ==> s.eventAt == s.last && Covered(s, s.last))
       case Recheck(n) => s.eventIdx && s.eventAt == s.last && (n == 0 ==> Covered(s, s.last))
  }

  lemma StartHolds(s: State)
    requires Start(s)
    ensures Inv(s)
  {
  }

  /** A driver that has not looked since `from` decides to kick for any entry at or beyond it. */
  lemma UndecidedKicks(s: State, from: nat)
    requires s.eventIdx && s.eventAt == from && s.checked <= from < s.avail < s.checked + WORD16
    ensures WantsKick(s)
  {
    NeedEventExact(Low16(from), s.checked, s.avail);
    assert InWindow(Low16(from), s.checked, s.avail);
  }

  lemma DriverKeeps(s: State, step: Step)
    requires Inv(s) && Enabled(s, step) && (step.Publish? || step.Kick?)
    ensures Inv(Next(s, step))
  {
  }

  lemma DecideKeeps(s: State)
    requires Inv(s) && Enabled(s, Decide)
    ensures Inv(Next(s, Decide))
  {
    hide NeedEvent, Low16;
    if s.eventIdx && s.eventAt == s.last && s.checked <= s.last < s.avail {
      UndecidedKicks(s, s.last);
    }
  }

  lemma DeviceKeeps(s: State, step: Step)
    requires Inv(s) && Enabled(s, step) && (step.Wake? || step.InBandKick? || step.Work?)
    ensures Inv(Next(s, step))
  {
    hide Low16;
    match s.dev
    case Idle =>
    case Read =>
    case Consume(target, n) =>
      if Low16(s.last) == Low16(target) {
        Low16Injective(s.last, target);
      }
    case SetEvent(n) =>
    case Recheck(n) =>
      if Low16(s.avail) == Low16(s.last) {
        Low16Injective(s.last, s.avail);
      }
  }

  lemma StepKeeps(s: State, step: Step)
    requires Inv(s) && Enabled(s, step)
    ensures Inv(Next(s, step))
  {
    hide Inv, Next;
    match step
    case Publish(_) => DriverKeeps(s, step);
    case Decide => DecideKeeps(s);
    case Kick => DriverKeeps(s, step);
    case Wake => DeviceKeeps(s, step);
    case InBandKick => DeviceKeeps(s, step);
    case Work => DeviceKeeps(s, step);
  }

  ghost predicate IsRun(run: seq<State>, steps: seq<Step>) {
    && |run| == |steps| + 1
    && forall i :: 0 <= i < |steps| ==> Enabled(run[i], steps[i]) && run[i + 1] == Next(run[i], steps[i])
  }

  lemma {:induction false} RunKeeps(run: seq<State>, steps: seq<Step>, n: nat)
    requires IsRun(run, steps) && Inv(run[0]) && n < |run|
    ensures Inv(run[n])
  {
    hide Inv, Next;
    if n > 0 {
      RunKeeps(run, steps, n - 1);
      assert Enabled(run[n - 1], steps[n - 1]) && run[n] == Next(run[n - 1], steps[n - 1]);
      StepKeeps(run[n - 1], steps[n - 1]);
    }
  }

  /** No kick is lost: in every reachable state with the device idle and entries waiting, a kick is
      pending or decided, or the driver's next decision will be to kick, now and after any further
      publications. */
  lemma NoLostKick(run: seq<State>, steps: seq<Step>, n: nat, more: nat)
    requires IsRun(run, steps) && Start(run[0]) && n < |run|
    requires run[n].dev.Idle? && Low16(run[n].avail) != Low16(run[n].last)
    requires Enabled(run[n], Publish(more))
    ensures run[n].kicked || run[n].mustKick || WantsKick(Next(run[n], Publish(more)))
    ensures run[n].eventIdx ==> run[n].eventAt == run[n].last
  {
    hide IsRun, Start, NeedEvent, Low16;
    assert Inv(run[0]) by { StartHolds(run[0]); }
    RunKeeps(run, steps, n);
    var s := run[n];
    if !s.kicked && !s.mustKick && s.eventIdx {
      UndecidedKicks(Next(s, Publish(more)), s.last);
    }
  }

  /** The hypothesis on the start is needed: with `avail_event` anywhere but at `last_avail`, one
      publication can go unnoticed forever. */
  lemma StaleEventLosesKick(s: State)
    requires 0 < s.num <= 0x8000 && s.eventIdx && s.avail == s.checked == s.last
    requires s.dev.Idle? && !s.mustKick && !s.kicked
    ensures var s2 := Next(Next(s, Publish(1)), Decide);
            Enabled(s, Publish(1)) && Enabled(Next(s, Publish(1)), Decide)
            && s2.avail == s2.last + 1
            && (Low16(s.eventAt) != Low16(s.last) <==>
                  !s2.kicked && !s2.mustKick && s2.dev.Idle? && s2.checked == s2.avail)
  {
    NeedEventExact(Low16(s.eventAt), s.last, s.last + 1);
    if Low16(s.eventAt) == Low16(s.last) {
      assert InWindow(Low16(s.eventAt), s.last, s.last + 1);
    }
  }

  // ---- Progress ------------------------------------------------------------------------------------------

  /** Work left before both sides come to rest, if the driver publishes nothing more. */
  function Measure(s: State): nat
    requires Inv(s)
  {
    10 * (s.avail - s.last)
    + (match s.dev
       case Idle => 0
       case Read => if s.avail == s.last then 4 else 8
       case Consume(target, n) => if n > 0 then 14 else if target == s.last then 3 else 7
       case SetEvent(n) => if n == 0 then 2 else 13
       case Recheck(n) => if n == 0 then 1 else 12)
    + (if s.kicked then 9 else 0) + (if s.mustKick then 10 else 0) + (if s.checked < s.avail then 11 else 0)
  }

  /** A decision with nothing new to decide on changes nothing; an in-band kick is not needed for progress. */
  predicate Useful(s: State, step: Step) {
    !step.Publish? && !step.InBandKick? && (step.Decide? ==> s.checked < s.avail)
  }

  /** Every useful step brings the two sides closer to rest. */
  lemma MeasureFalls(s: State, step: Step)
    requires Inv(s) && Enabled(s, step) && Useful(s, step)
    ensures Inv(Next(s, step)) && Measure(Next(s, step)) < Measure(s)
  {
    hide Inv, Measure, Next;
    StepKeeps(s, step);
    match step
    case Work => WorkFalls(s);
    case _ => OtherFalls(s, step);
  }

  lemma OtherFalls(s: State, step: Step)
    requires Inv(s) && Enabled(s, step) && Useful(s, step) && !step.Work? && Inv(Next(s, step))
    ensures Measure(Next(s, step)) < Measure(s)
  {
    hide Low16, NeedEvent, Covered;
  }

  lemma WorkFalls(s: State)
    requires Inv(s) && Enabled(s, Work) && Inv(Next(s, Work))
    ensures Measure(Next(s, Work)) < Measure(s)
  {
    hide Low16, Covered;
    if s.dev.Consume? && Low16(s.last) == Low16(s.dev.target) {
      Low16Injective(s.last, s.dev.target);
    }
    if s.dev.Recheck? && Low16(s.avail) == Low16(s.last) {
      Low16Injective(s.last, s.avail);
    }
  }

  /** At rest, with no useful step left, everything published has been consumed. */
  lemma RestMeansDrained(s: State)
    requires Inv(s)
    requires forall step :: Enabled(s, step) ==> !Useful(s, step)
    ensures s.last == s.avail
  {
    assert !Useful(s, Wake) || !Enabled(s, Wake);
    assert !Useful(s, Work) || !Enabled(s, Work);
    assert !Useful(s, Kick) || !Enabled(s, Kick);
    assert !Useful(s, Decide) || !Enabled(s, Decide);
  }

  /** Hence every run of useful steps is at most `Measure` long, and from every reachable state such a run
      consumes everything published so far without any help. */
  lemma {:induction false} Drains(s: State) returns (run: seq<State>, steps: seq<Step>)
    requires Inv(s)
    ensures IsRun(run, steps) && run[0] == s && |steps| <= Measure(s)
    ensures forall i :: 0 <= i < |steps| ==> !steps[i].Publish? && !steps[i].InBandKick?
    ensures run[|steps|].last == run[|steps|].avail == s.avail
    decreases Measure(s)
  {
    hide Inv, Measure, Next, Enabled, Useful;
    if step :| Enabled(s, step) && Useful(s, step) {
      MeasureFalls(s, step);
      UsefulPublishesNothing(s, step);
      var run', steps' := Drains(Next(s, step));
      run, steps := [s] + run', [step] + steps';
    } else {
      RestMeansDrained(s);
      run, steps := [s], [];
    }
  }

  lemma UsefulPublishesNothing(s: State, step: Step)
    requires Enabled(s, step) && Useful(s, step)
    ensures !step.Publish? && !step.InBandKick? && Next(s, step).avail == s.avail
  {
    hide Low16, NeedEvent;
  }

  /** A call of `tx_kick` raises the interrupt exactly when it consumed something and can: in every
      reachable state with the device idle, the last call did iff `last_avail` moved during it. */
  lemma InterruptWhenConsumed(run: seq<State>, steps: seq<Step>, n: nat)
    requires IsRun(run, steps) && Start(run[0]) && n < |run| && run[n].dev.Idle?
    ensures run[n].interrupted <==> run[n].callable && run[n].last > run[n].wokeAt
  {
    hide IsRun, NeedEvent, Low16;
    StartHolds(run[0]);
    RunKeeps(run, steps, n);
  }
}
