// The backend's table of watched descriptors, and the kick descriptors and handlers of the queues.

module WatchTable {
  import opened Sets

  const MAXW := 32
  const VQ_TX := 1
  const NO_FD := -1

  /** `q` is the callback's data: the queue that a kick on `fd` runs. */
  datatype Watch = Watch(fd: int, q: nat)

  datatype Vq = Vq(kickFd: int, handler: bool, started: bool)

  datatype State = State(table: seq<Watch>, queues: seq<Vq>)

  /** Where `fd` is first found, or the length. */
  function Position(t: seq<Watch>, fd: int): (k: nat)
    ensures k <= |t| && (k < |t| ==> t[k].fd == fd) && forall i :: 0 <= i < k ==> t[i].fd != fd
  {
    if t == [] || t[0].fd == fd then 0
    else
      var k := Position(t[1..], fd);
      assert forall i :: 0 < i < k + 1 ==> t[i] == t[1..][i - 1];
      k + 1
  }

  /** Replaces the entry, appends it, or drops it when the table is full. */
  function Watching(t: seq<Watch>, fd: int, q: nat): seq<Watch> {
    var k := Position(t, fd);
    if k < |t| then t[k := Watch(fd, q)]
    else if |t| < MAXW then t + [Watch(fd, q)]
    else t
  }

  /** The last entry takes the removed one's place. */
  function Unwatching(t: seq<Watch>, fd: int): seq<Watch> {
    var k := Position(t, fd);
    if k < |t| then t[k := t[|t| - 1]][..|t| - 1] else t
  }

  /** `vu_set_queue_handler`. */
  function SetHandler(s: State, q: nat, on: bool): State
    requires q < |s.queues|
  {
    var fd := s.queues[q].kickFd;
    State(if fd < 0 then s.table else if on then Watching(s.table, fd, q) else Unwatching(s.table, fd),
          s.queues[q := s.queues[q].(handler := on)])
  }

  /** `queue_set_started`: only the transmit queue has a handler to switch. */
  function QueueSetStarted(s: State, q: nat, started: bool): State
    requires q < |s.queues|
  {
    if q == VQ_TX then SetHandler(s, q, started) else s
  }

  function Mark(s: State, q: nat, started: bool): State
    requires q < |s.queues|
  {
    s.(queues := s.queues[q := s.queues[q].(started := started)])
  }

  /** Stops watching the queue's kick descriptor and closes it. */
  function DropKick(s: State, q: nat): State
    requires q < |s.queues|
  {
    if s.queues[q].kickFd == NO_FD then s
    else State(Unwatching(s.table, s.queues[q].kickFd), s.queues[q := s.queues[q].(kickFd := NO_FD)])
  }

  /** A message with a bad index, or without its one descriptor, panics before anything changes. */
  predicate GoodMessage(s: State, index: nat, nofd: bool, fds: seq<int>) {
    index < |s.queues| && (nofd || |fds| == 1)
  }

  function SetKick(s: State, q: nat, fd: int): State
    requires q < |s.queues|
  {
    var d := DropKick(s, q);
    d.(queues := d.queues[q := d.queues[q].(kickFd := fd)])
  }

  function WatchKick(s: State, q: nat): State
    requires q < |s.queues|
  {
    if s.queues[q].kickFd != NO_FD && s.queues[q].handler
    then s.(table := Watching(s.table, s.queues[q].kickFd, q)) else s
  }

  function VringKick(s: State, index: nat, nofd: bool, fds: seq<int>): State {
    if !GoodMessage(s, index, nofd, fds) then s
    else
      var m := Mark(SetKick(s, index, if nofd then NO_FD else fds[0]), index, true);
      WatchKick(QueueSetStarted(m, index, true), index)
  }

  function GetVringBase(s: State, index: nat): State
    requires index < |s.queues|
  {
    DropKick(QueueSetStarted(Mark(s, index, false), index, false), index)
  }

  function InBandKick(s: State, index: nat): State {
    if index >= |s.queues| || s.queues[index].started then s
    else QueueSetStarted(Mark(s, index, true), index, true)
  }

  datatype Op =
    | VringKickMsg(index: nat, nofd: bool, fds: seq<int>)
    | GetVringBaseMsg(index: nat)
    | InBandKickMsg(index: nat)
    | HandlerChange(index: nat, on: bool)

  /** A descriptor that a message carries is open, so it is none of the queues' open descriptors. */
  predicate Allowed(s: State, op: Op) {
    match op
    case VringKickMsg(index, nofd, fds) =>
      GoodMessage(s, index, nofd, fds) && !nofd ==> fds[0] >= 0 && forall v <- s.queues :: v.kickFd != fds[0]
    case GetVringBaseMsg(index) => index < |s.queues|
    case InBandKickMsg(_) => true
    case HandlerChange(index, _) => index < |s.queues|
  }

  function Step(s: State, op: Op): State
    requires Allowed(s, op)
  {
    match op
    case VringKickMsg(index, nofd, fds) => VringKick(s, index, nofd, fds)
    case GetVringBaseMsg(index) => GetVringBase(s, index)
    case InBandKickMsg(index) => InBandKick(s, index)
    case HandlerChange(index, on) => SetHandler(s, index, on)
  }

  // ---- What the table should hold -------------------------------------------------------------------------

  /** Queue `w.q` has a handler, and `w.fd` is its valid kick descriptor. */
  predicate Armed(s: State, w: Watch) {
    w.q < |s.queues| && s.queues[w.q].handler && s.queues[w.q].kickFd == w.fd && w.fd >= 0
  }

  predicate DistinctFds(t: seq<Watch>) {
    forall i, j :: 0 <= i < j < |t| ==> t[i].fd != t[j].fd
  }

  /** The table holds each descriptor once, and exactly the armed ones. */
  ghost predicate Agrees(s: State) {
    DistinctFds(s.table) && forall w :: w in s.table <==> Armed(s, w)
  }

  /** Queue descriptors are valid or absent, two queues never share one, and the table fits its array. */
  predicate Orderly(s: State) {
    && |s.table| <= MAXW
    && (forall q :: 0 <= q < |s.queues| ==> s.queues[q].kickFd >= NO_FD)
    && (forall p, q :: 0 <= p < q < |s.queues| && s.queues[p].kickFd == s.queues[q].kickFd
          ==> s.queues[p].kickFd == NO_FD)
  }

  ghost function ArmedQueues(s: State): set<nat> {
    set q: nat | q < |s.queues| && Armed(s, Watch(s.queues[q].kickFd, q))
  }

  // ---- The two table operations ---------------------------------------------------------------------------

  lemma SetWatchMembers(t: seq<Watch>, fd: int, q: nat)
    requires DistinctFds(t)
    ensures DistinctFds(Watching(t, fd, q))
    ensures forall w :: w in Watching(t, fd, q) <==>
      || (w in t && w.fd != fd)
      || (w == Watch(fd, q) && (|t| < MAXW || exists v <- t :: v.fd == fd))
  {
    var k, r := Position(t, fd), Watching(t, fd, q);
    if k < |t| {
      assert t[k] in t && r[k] == Watch(fd, q);
      forall w | w in t && w.fd != fd ensures w in r {
        var i :| 0 <= i < |t| && t[i] == w;
        assert r[i] == w;
      }
    }
  }

  /** Swapping in the last entry loses nothing but the entry for `fd`. */
  lemma RemoveWatchMembers(t: seq<Watch>, fd: int)
    requires DistinctFds(t)
    ensures DistinctFds(Unwatching(t, fd))
    ensures forall w :: w in Unwatching(t, fd) <==> w in t && w.fd != fd
  {
    var k, r := Position(t, fd), Unwatching(t, fd);
    if k < |t| {
      var m := |t| - 1;
      forall w | w in t && w.fd != fd ensures w in r {
        var i :| 0 <= i < |t| && t[i] == w;
        assert r[if i == m then k else i] == w;
      }
    }
  }

  lemma SetWatchTwice(t: seq<Watch>, fd: int, q: nat)
    ensures Watching(Watching(t, fd, q), fd, q) == Watching(t, fd, q)
  {
    var r := Watching(t, fd, q);
    var k := Position(t, fd);
    if k < |t| {
      assert r[k].fd == fd;
      assert forall i :: 0 <= i < k ==> r[i] == t[i];
      assert Position(r, fd) == k;
    } else if |t| < MAXW {
      assert r[k].fd == fd;
      assert forall i :: 0 <= i < k ==> r[i] == t[i];
      assert Position(r, fd) == k;
    }
  }

  // ---- Counting --------------------------------------------------------------------------------------------

  ghost function QueuesOf(t: seq<Watch>): set<nat> {
    set w | w in t :: w.q
  }

  lemma {:induction false} CountQueues(t: seq<Watch>)
    requires forall i, j :: 0 <= i < j < |t| ==> t[i].q != t[j].q
    ensures |QueuesOf(t)| == |t|
  {
    if t != [] {
      var m := |t| - 1;
      CountQueues(t[..m]);
      assert t == t[..m] + [t[m]];
      assert QueuesOf(t) == QueuesOf(t[..m]) + {t[m].q};
    }
  }

  /** A table of armed descriptors has one entry for each of its queues. */
  lemma ArmedEntries(s: State)
    requires DistinctFds(s.table) && forall w :: w in s.table ==> Armed(s, w)
    ensures |QueuesOf(s.table)| == |s.table| && QueuesOf(s.table) <= ArmedQueues(s)
  {
    forall i, j | 0 <= i < j < |s.table| ensures s.table[i].q != s.table[j].q {
      assert s.table[i] in s.table && s.table[j] in s.table;
    }
    CountQueues(s.table);
  }

  // ---- Every step ------------------------------------------------------------------------------------------

  /** All entries are armed, and only queue `q` may be armed without one. */
  ghost predicate AgreesBut(s: State, q: nat) {
    && DistinctFds(s.table)
    && (forall w :: w in s.table ==> Armed(s, w))
    && (forall w :: Armed(s, w) && w.q != q ==> w in s.table)
  }

  /** Watching the missing queue completes the table exactly when the armed queues fit in it. */
  lemma WatchCompletes(s: State, q: nat)
    requires Orderly(s) && q < |s.queues| && AgreesBut(s, q) && Armed(s, Watch(s.queues[q].kickFd, q))
    ensures var s' := s.(table := Watching(s.table, s.queues[q].kickFd, q));
            Orderly(s') && (Agrees(s') <==> |ArmedQueues(s')| <= MAXW)
  {
    var fd := s.queues[q].kickFd;
    var s' := s.(table := Watching(s.table, fd, q));
    SetWatchMembers(s.table, fd, q);
    assert forall w :: Armed(s', w) == Armed(s, w);
    ArmedEntries(s);
    var armed := ArmedQueues(s);
    assert ArmedQueues(s') == armed;
    if Watch(fd, q) in s.table || |s.table| < MAXW {
      assert Watch(fd, q) in s'.table;
      forall w ensures w in s'.table <==> Armed(s', w) {
        if w.q == q && Armed(s, w) {
          assert w == Watch(fd, q);
        }
      }
      ArmedEntries(s');
      assert armed <= QueuesOf(s'.table) by {
        forall p | p in armed ensures p in QueuesOf(s'.table) {
          assert Watch(s.queues[p].kickFd, p) in s'.table;
        }
      }
      SubsetSize(armed, QueuesOf(s'.table));
    } else {
      assert forall v <- s.table :: v.fd != fd;
      assert Watch(fd, q) !in s'.table && Armed(s', Watch(fd, q));
      assert q !in QueuesOf(s.table);
      SubsetSize(QueuesOf(s.table) + {q}, armed);
    }
  }

  /** Agreement with no one missing: the count fits by itself. */
  lemma AgreesFits(s: State)
    requires Orderly(s) && Agrees(s)
    ensures |ArmedQueues(s)| <= MAXW
  {
    ArmedEntries(s);
    forall p | p in ArmedQueues(s) ensures p in QueuesOf(s.table) {
      assert Watch(s.queues[p].kickFd, p) in s.table;
    }
    SubsetSize(ArmedQueues(s), QueuesOf(s.table));
  }

  ghost predicate Exact(s: State) {
    Orderly(s) && (Agrees(s) <==> |ArmedQueues(s)| <= MAXW)
  }

  lemma SetHandlerExact(s: State, q: nat, on: bool)
    requires Orderly(s) && q < |s.queues| && (if on then AgreesBut(s, q) else Agrees(s))
    ensures Exact(SetHandler(s, q, on))
    ensures s.queues[q].kickFd < 0 || !on ==> Agrees(SetHandler(s, q, on))
  {
    hide Watching, Unwatching, ArmedQueues;
    var fd := s.queues[q].kickFd;
    var mid := s.(queues := s.queues[q := s.queues[q].(handler := on)]);
    assert forall w: Watch :: w.q != q ==> Armed(mid, w) == Armed(s, w);
    if fd < 0 {
      assert forall w: Watch :: w.q == q ==> !Armed(mid, w) && !Armed(s, w);
      AgreesFits(mid);
    } else if on {
      WatchCompletes(mid, q);
    } else {
      RemoveWatchMembers(s.table, fd);
      RemoveShorter(s.table, fd);
      var r := SetHandler(s, q, on);
      forall w ensures w in r.table <==> Armed(r, w) {
        if w in s.table && w.fd == fd {
          assert w.q == q;
        }
      }
      AgreesFits(r);
    }
  }

  lemma RemoveShorter(t: seq<Watch>, fd: int)
    ensures |Unwatching(t, fd)| <= |t|
  {
  }

  lemma DropKickAgrees(s: State, q: nat)
    requires Orderly(s) && Agrees(s) && q < |s.queues|
    ensures Orderly(DropKick(s, q)) && Agrees(DropKick(s, q))
    ensures DropKick(s, q).queues == s.queues[q := s.queues[q].(kickFd := NO_FD)]
  {
    hide Unwatching;
    var fd, r := s.queues[q].kickFd, DropKick(s, q);
    if fd != NO_FD {
      RemoveWatchMembers(s.table, fd);
      RemoveShorter(s.table, fd);
      forall w ensures w in r.table <==> Armed(r, w) {
        assert w.q != q ==> Armed(r, w) == Armed(s, w);
        if w in s.table && w.fd == fd {
          assert w.q == q;
        }
      }
    }
  }

  lemma MarkSame(s: State, q: nat, started: bool)
    requires q < |s.queues|
    ensures Orderly(Mark(s, q, started)) == Orderly(s)
    ensures Agrees(Mark(s, q, started)) == Agrees(s)
    ensures AgreesBut(Mark(s, q, started), q) == AgreesBut(s, q)
    ensures ArmedQueues(Mark(s, q, started)) == ArmedQueues(s)
  {
    var m := Mark(s, q, started);
    assert forall w :: Armed(m, w) == Armed(s, w);
    assert forall p :: 0 <= p < |s.queues| ==> m.queues[p].kickFd == s.queues[p].kickFd;
  }

  /** After the new descriptor is stored, only this queue may be armed without a watch. */
  lemma SetKickAlmost(s: State, q: nat, fd: int)
    requires Orderly(s) && Agrees(s) && q < |s.queues|
    requires fd == NO_FD || (fd >= 0 && forall v <- s.queues :: v.kickFd != fd)
    ensures Orderly(SetKick(s, q, fd)) && AgreesBut(SetKick(s, q, fd), q)
    ensures SetKick(s, q, fd).queues == s.queues[q := s.queues[q].(kickFd := fd)]
  {
    hide DropKick, Armed;
    DropKickAgrees(s, q);
    var d, r := DropKick(s, q), SetKick(s, q, fd);
    forall p | 0 <= p < |s.queues| && p != q ensures r.queues[p] == s.queues[p] && s.queues[p] in s.queues {
    }
    forall w: Watch ensures w.q != q ==> Armed(r, w) == Armed(d, w)
             ensures w.q == q ==> !Armed(d, w)
    {
      ArmedOther(d, q, fd, w);
    }
  }

  lemma ArmedOther(d: State, q: nat, fd: int, w: Watch)
    requires q < |d.queues| && d.queues[q].kickFd == NO_FD
    ensures var r := d.(queues := d.queues[q := d.queues[q].(kickFd := fd)]);
            w.q != q ==> Armed(r, w) == Armed(d, w)
    ensures w.q == q ==> !Armed(d, w)
  {
  }

  lemma VringKickExact(s: State, q: nat, nofd: bool, fds: seq<int>)
    requires Orderly(s) && Agrees(s) && Allowed(s, VringKickMsg(q, nofd, fds))
    ensures Exact(VringKick(s, q, nofd, fds))
  {
    hide SetKick, Mark, Watching, Agrees, AgreesBut, ArmedQueues, Orderly;
    if GoodMessage(s, q, nofd, fds) {
      var fd := if nofd then NO_FD else fds[0];
      SetKickAlmost(s, q, fd);
      var a := SetKick(s, q, fd);
      MarkSame(a, q, true);
      var b := Mark(a, q, true);
      assert |b.queues| == |s.queues| && b.queues[q].kickFd == fd by {
        SameFd(a, q, true);
      }
      if q == VQ_TX {
        SetHandlerExact(b, q, true);
        if fd != NO_FD {
          SetWatchTwice(b.table, fd, q);
        }
      } else {
        WatchKickExact(b, q);
      }
    } else {
      AgreesFits(s);
    }
  }

  lemma SameFd(s: State, q: nat, started: bool)
    requires q < |s.queues|
    ensures |Mark(s, q, started).queues| == |s.queues|
    ensures Mark(s, q, started).queues[q] == s.queues[q].(started := started)
  {
  }

  lemma WatchKickExact(s: State, q: nat)
    requires Orderly(s) && q < |s.queues| && AgreesBut(s, q)
    ensures Exact(WatchKick(s, q))
  {
    hide Watching, ArmedQueues;
    if Armed(s, Watch(s.queues[q].kickFd, q)) {
      WatchCompletes(s, q);
    } else {
      assert forall w: Watch :: w.q == q ==> !Armed(s, w);
      AgreesFits(s);
    }
  }

  lemma ButNone(s: State, q: nat)
    requires Agrees(s)
    ensures AgreesBut(s, q)
  {
  }

  /** Every operation leaves the table in agreement exactly when the armed queues fit in its 32 places. */
  lemma StepExact(s: State, op: Op)
    requires Orderly(s) && Agrees(s) && Allowed(s, op)
    ensures Orderly(Step(s, op))
    ensures Agrees(Step(s, op)) <==> |ArmedQueues(Step(s, op))| <= MAXW
  {
    hide SetHandler, Mark, Agrees, AgreesBut, ArmedQueues, Orderly, DropKick, VringKick;
    match op
    case VringKickMsg(q, nofd, fds) =>
      VringKickExact(s, q, nofd, fds);
    case GetVringBaseMsg(q) =>
      MarkSame(s, q, false);
      SameFd(s, q, false);
      var m := Mark(s, q, false);
      if q == VQ_TX {
        SetHandlerExact(m, q, false);
        SetHandlerSize(m, q, false);
      }
      var h := QueueSetStarted(m, q, false);
      DropKickAgrees(h, q);
      AgreesFits(DropKick(h, q));
    case InBandKickMsg(q) =>
      AgreesFits(s);
      if q < |s.queues| && !s.queues[q].started {
        MarkSame(s, q, true);
        SameFd(s, q, true);
        if q == VQ_TX {
          ButNone(Mark(s, q, true), q);
          SetHandlerExact(Mark(s, q, true), q, true);
        }
      }
    case HandlerChange(q, on) =>
      ButNone(s, q);
      SetHandlerExact(s, q, on);
  }

  lemma SetHandlerSize(s: State, q: nat, on: bool)
    requires q < |s.queues|
    ensures |SetHandler(s, q, on).queues| == |s.queues|
  {
  }

  // ---- Every run -------------------------------------------------------------------------------------------

  /** Each operation is allowed where it happens. */
  ghost predicate Runs(s: State, ops: seq<Op>)
    decreases |ops|
  {
    ops == [] || (Allowed(s, ops[0]) && Runs(Step(s, ops[0]), ops[1..]))
  }

  ghost predicate AgreesThroughout(s: State, ops: seq<Op>)
    requires Runs(s, ops)
    decreases |ops|
  {
    Agrees(s) && (ops == [] || AgreesThroughout(Step(s, ops[0]), ops[1..]))
  }

  ghost predicate FitsThroughout(s: State, ops: seq<Op>)
    requires Runs(s, ops)
    decreases |ops|
  {
    |ArmedQueues(s)| <= MAXW && (ops == [] || FitsThroughout(Step(s, ops[0]), ops[1..]))
  }

  /** The table agrees with the queues all along a run exactly when never more than 32 queues are armed. */
  lemma {:induction false} RunAgrees(s: State, ops: seq<Op>)
    requires Orderly(s) && Agrees(s) && Runs(s, ops)
    ensures AgreesThroughout(s, ops) <==> FitsThroughout(s, ops)
    decreases |ops|
  {
    hide Step, Orderly, Agrees, ArmedQueues, Allowed;
    AgreesFits(s);
    if ops != [] {
      StepExact(s, ops[0]);
      if Agrees(Step(s, ops[0])) {
        RunAgrees(Step(s, ops[0]), ops[1..]);
      } else {
        assert !AgreesThroughout(Step(s, ops[0]), ops[1..]);
        assert !FitsThroughout(Step(s, ops[0]), ops[1..]);
      }
    }
  }

  lemma FewQueuesFit(s: State)
    requires |s.queues| <= MAXW
    ensures |ArmedQueues(s)| <= MAXW
  {
    var all := Below(|s.queues|);
    SubsetSize(ArmedQueues(s), all);
  }

  lemma StepSize(s: State, op: Op)
    requires Allowed(s, op)
    ensures |Step(s, op).queues| == |s.queues|
  {
    hide Watching, Unwatching;
  }

  /** With at most 32 queues (the backend has two) the table agrees at every point of every run. */
  lemma {:induction false} BackendAgrees(s: State, ops: seq<Op>)
    requires Orderly(s) && Agrees(s) && Runs(s, ops) && |s.queues| <= MAXW
    ensures AgreesThroughout(s, ops)
    decreases |ops|
  {
    hide Step, Orderly, Agrees, ArmedQueues, Allowed;
    if ops != [] {
      StepExact(s, ops[0]);
      StepSize(s, ops[0]);
      FewQueuesFit(Step(s, ops[0]));
      BackendAgrees(Step(s, ops[0]), ops[1..]);
    }
  }

  // ---- What each message leaves behind ---------------------------------------------------------------------

  /** Every queue but `q` is as it was. */
  predicate OthersSame(s: State, t: State, q: nat) {
    && |t.queues| == |s.queues|
    && forall p :: 0 <= p < |s.queues| && p != q ==> t.queues[p] == s.queues[p]
  }

  /** A good kick message starts the queue on the new descriptor, or on none; the transmit queue gets its handler,
      the others keep theirs. With room, the descriptor of a queue that has a handler is watched for it. */
  lemma KickStarts(s: State, q: nat, nofd: bool, fds: seq<int>)
    requires Orderly(s) && Agrees(s) && Allowed(s, VringKickMsg(q, nofd, fds))
    requires q < |s.queues| && (nofd || |fds| == 1)
    ensures var t := VringKick(s, q, nofd, fds);
            var fd := if nofd then -1 else fds[0];
            var handler := q == 1 || s.queues[q].handler;
            && OthersSame(s, t, q) && t.queues[q] == Vq(fd, handler, true)
            && (handler && fd >= 0 && |ArmedQueues(t)| <= 32 ==> Watch(fd, q) in t.table)
            && (forall w :: w in t.table && w.q == q ==> w.fd == fd && handler)
  {
    hide Watching, Unwatching, ArmedQueues;
    var t := VringKick(s, q, nofd, fds);
    KickQueues(s, q, nofd, fds);
    VringKickExact(s, q, nofd, fds);
    VringKickSubset(s, q, nofd, fds);
    if |ArmedQueues(t)| <= MAXW && t.queues[q].handler && t.queues[q].kickFd >= 0 {
      assert Armed(t, Watch(t.queues[q].kickFd, q));
    }
  }

  lemma KickQueues(s: State, q: nat, nofd: bool, fds: seq<int>)
    requires q < |s.queues| && (nofd || |fds| == 1)
    ensures var t := VringKick(s, q, nofd, fds);
            OthersSame(s, t, q)
            && t.queues[q] == Vq(if nofd then -1 else fds[0], q == 1 || s.queues[q].handler, true)
  {
    hide Watching, Unwatching;
  }

  /** Whatever the table then holds is armed. */
  lemma VringKickSubset(s: State, q: nat, nofd: bool, fds: seq<int>)
    requires Orderly(s) && Agrees(s) && Allowed(s, VringKickMsg(q, nofd, fds)) && GoodMessage(s, q, nofd, fds)
    ensures var t := VringKick(s, q, nofd, fds); forall w :: w in t.table ==> Armed(t, w)
  {
    hide Watching, Unwatching, SetKick, Mark, Orderly;
    var fd := if nofd then NO_FD else fds[0];
    SetKickAlmost(s, q, fd);
    var a := SetKick(s, q, fd);
    MarkSame(a, q, true);
    SameFd(a, q, true);
    var b := Mark(a, q, true);
    WatchingSubset(b, q);
    if q == VQ_TX && fd >= 0 {
      SetWatchTwice(b.table, fd, q);
    }
  }

  lemma WatchingSubset(b: State, q: nat)
    requires q < |b.queues| && DistinctFds(b.table) && forall w :: w in b.table ==> Armed(b, w)
    ensures var on := b.(queues := b.queues[q := b.queues[q].(handler := true)]);
            && (forall w :: w in b.table ==> Armed(on, w))
            && (b.queues[q].kickFd >= 0 ==> forall w :: w in Watching(b.table, b.queues[q].kickFd, q) ==> Armed(on, w))
  {
    hide Watching;
    SetWatchMembers(b.table, b.queues[q].kickFd, q);
  }

  /** A message with a bad index, or without its descriptor, changes nothing. */
  lemma BadKickIgnored(s: State, q: nat, nofd: bool, fds: seq<int>)
    requires q >= |s.queues| || (!nofd && |fds| != 1)
    ensures VringKick(s, q, nofd, fds) == s
  {
  }

  /** Getting the base stops the queue; its old descriptor is neither stored nor watched any more, and the transmit
      queue has no handler. */
  lemma BaseStops(s: State, q: nat)
    requires Orderly(s) && Agrees(s) && q < |s.queues|
    ensures var t := GetVringBase(s, q);
            && OthersSame(s, t, q) && t.queues[q] == Vq(-1, q != 1 && s.queues[q].handler, false)
            && forall w :: w in t.table ==> w.q != q && (s.queues[q].kickFd >= 0 ==> w.fd != s.queues[q].kickFd)
  {
    hide Watching, Unwatching, ArmedQueues;
    var t := GetVringBase(s, q);
    StepExact(s, GetVringBaseMsg(q));
    BaseQueues(s, q);
    BaseFits(s, t, q);
    forall w | w in t.table ensures w.q != q && (s.queues[q].kickFd >= 0 ==> w.fd != s.queues[q].kickFd) {
      assert Armed(t, w);
    }
  }

  lemma BaseQueues(s: State, q: nat)
    requires q < |s.queues|
    ensures var t := GetVringBase(s, q);
            OthersSame(s, t, q) && t.queues[q] == Vq(NO_FD, q != 1 && s.queues[q].handler, false)
  {
    hide Watching, Unwatching;
  }

  /** Fewer queues are armed than before. */
  lemma BaseFits(s: State, t: State, q: nat)
    requires Orderly(s) && Agrees(s) && q < |s.queues| && OthersSame(s, t, q) && t.queues[q].kickFd == NO_FD
    ensures |ArmedQueues(t)| <= MAXW
  {
    AgreesFits(s);
    SubsetSize(ArmedQueues(t), ArmedQueues(s));
  }

  /** An in-band kick starts a queue that is not started, with the handler if it is the transmit queue. */
  lemma InBandStarts(s: State, q: nat)
    ensures var t := InBandKick(s, q);
            if q < |s.queues| && !s.queues[q].started
            then OthersSame(s, t, q)
                 && t.queues[q] == s.queues[q].(started := true, handler := q == 1 || s.queues[q].handler)
            else t == s
  {
    hide Watching, Unwatching;
  }

  /** A handler change is just that. */
  lemma HandlerSwitches(s: State, q: nat, on: bool)
    requires q < |s.queues|
    ensures var t := SetHandler(s, q, on);
            OthersSame(s, t, q) && t.queues[q] == s.queues[q].(handler := on)
  {
    hide Watching, Unwatching;
  }

  /** The transmit queue has a handler exactly while it is started; the other queues keep the ones they had. */
  predicate HandlersFollow(first: State, s: State) {
    && |s.queues| == |first.queues|
    && (1 < |s.queues| ==> s.queues[1].handler == s.queues[1].started)
    && forall p :: 0 <= p < |s.queues| && p != 1 ==> s.queues[p].handler == first.queues[p].handler
  }

  ghost function RunOf(s: State, ops: seq<Op>): State
    requires Runs(s, ops)
    decreases |ops|
  {
    if ops == [] then s else RunOf(Step(s, ops[0]), ops[1..])
  }

  /** Along every run of messages. */
  lemma {:induction false} HandlersFollowStart(first: State, s: State, ops: seq<Op>)
    requires HandlersFollow(first, s) && Runs(s, ops) && forall i :: 0 <= i < |ops| ==> !ops[i].HandlerChange?
    ensures HandlersFollow(first, RunOf(s, ops))
    decreases |ops|
  {
    hide Step, HandlersFollow, Allowed;
    if ops != [] {
      MessageFollows(first, s, ops[0]);
      HandlersFollowStart(first, Step(s, ops[0]), ops[1..]);
    }
  }

  lemma MessageFollows(first: State, s: State, op: Op)
    requires HandlersFollow(first, s) && Allowed(s, op) && !op.HandlerChange?
    ensures HandlersFollow(first, Step(s, op))
  {
    hide VringKick, GetVringBase, InBandKick;
    match op
    case VringKickMsg(q, nofd, fds) =>
      if q < |s.queues| && (nofd || |fds| == 1) {
        KickQueues(s, q, nofd, fds);
      } else {
        BadKickIgnored(s, q, nofd, fds);
      }
    case GetVringBaseMsg(q) => BaseQueues(s, q);
    case InBandKickMsg(q) => InBandStarts(s, q);
  }

  // ---- In place --------------------------------------------------------------------------------------------

  class Backend {
    var W: array<Watch>
    var nW: nat
    var vq: array<Vq>

    ghost predicate Valid()
      reads this
    {
      W.Length == MAXW && nW <= MAXW
    }

    ghost function View(): State
      reads this, W, vq
      requires Valid()
    {
      State(W[..nW], vq[..])
    }

    /** `vu_init`: no queue has a descriptor or a handler yet. */
    constructor (maxQueues: nat)
      ensures Valid() && Orderly(View()) && Agrees(View()) && |View().queues| == maxQueues
    {
      W := new Watch[MAXW](_ => Watch(NO_FD, 0));
      nW := 0;
      vq := new Vq[maxQueues](_ => Vq(NO_FD, false, false));
    }

    method SetWatch(fd: int, q: nat)
      requires Valid()
      modifies `nW, W
      ensures Valid() && View().table == Watching(old(View()).table, fd, q)
    {
      var i := 0;
      while i < nW
        invariant i <= nW && forall k :: 0 <= k < i ==> W[k].fd != fd
      {
        if W[i].fd == fd {
          W[i] := Watch(fd, q);
          return;
        }
        i := i + 1;
      }
      if nW < MAXW {
        W[nW] := Watch(fd, q);
        nW := nW + 1;
      }
    }

    method RemoveWatch(fd: int)
      requires Valid()
      modifies `nW, W
      ensures Valid() && View().table == Unwatching(old(View()).table, fd)
    {
      var i := 0;
      while i < nW
        invariant i <= nW && forall k :: 0 <= k < i ==> W[k].fd != fd
      {
        if W[i].fd == fd {
          nW := nW - 1;
          W[i] := W[nW];
          return;
        }
        i := i + 1;
      }
    }

    method SetQueueHandler(q: nat, on: bool)
      requires Valid() && q < vq.Length
      modifies `nW, W, vq
      ensures Valid() && vq == old(vq) && View() == SetHandler(old(View()), q, on)
    {
      hide Watching, Unwatching;
      vq[q] := vq[q].(handler := on);
      if vq[q].kickFd >= 0 {
        if on {
          SetWatch(vq[q].kickFd, q);
        } else {
          RemoveWatch(vq[q].kickFd);
        }
      }
    }

    /** The backend's `queue_set_started`. */
    method SetStarted(q: nat, started: bool)
      requires Valid() && q < vq.Length
      modifies `nW, W, vq
      ensures Valid() && vq == old(vq) && View() == QueueSetStarted(old(View()), q, started)
    {
      if q == VQ_TX {
        SetQueueHandler(q, started);
      }
    }

    /** The branch both messages share: unwatch, close and forget the kick descriptor. */
    method CloseKick(q: nat)
      requires Valid() && q < vq.Length
      modifies `nW, W, vq
      ensures Valid() && vq == old(vq) && View() == DropKick(old(View()), q)
    {
      hide Unwatching;
      if vq[q].kickFd != NO_FD {
        RemoveWatch(vq[q].kickFd);
        vq[q] := vq[q].(kickFd := NO_FD);
      }
    }

    /** `vu_set_vring_kick_exec`; `ok` is false where the source panics. */
    method SetVringKick(index: nat, nofd: bool, fds: seq<int>) returns (ok: bool)
      requires Valid()
      modifies `nW, W, vq
      ensures Valid() && vq == old(vq)
      ensures ok == GoodMessage(old(View()), index, nofd, fds)
      ensures View() == VringKick(old(View()), index, nofd, fds)
    {
      hide SetHandler, DropKick, Watching;
      if index >= vq.Length || (!nofd && |fds| != 1) {
        return false;
      }
      CloseKick(index);
      DropKickSize(old(View()), index);
      vq[index] := vq[index].(kickFd := if nofd then NO_FD else fds[0]);
      vq[index] := vq[index].(started := true);
      SetStarted(index, true);
      if vq[index].kickFd != NO_FD && vq[index].handler {
        SetWatch(vq[index].kickFd, index);
      }
      return true;
    }

    /** `vu_get_vring_base_exec`, which does not check the index. */
    method GetVringBaseExec(index: nat)
      requires Valid() && index < vq.Length
      modifies `nW, W, vq
      ensures Valid() && vq == old(vq) && View() == GetVringBase(old(View()), index)
    {
      hide SetHandler, DropKick;
      vq[index] := vq[index].(started := false);
      SetStarted(index, false);
      CloseKick(index);
    }

    /** `vu_handle_vring_kick` up to the handler's run. */
    method HandleVringKick(index: nat) returns (ok: bool)
      requires Valid()
      modifies `nW, W, vq
      ensures Valid() && vq == old(vq) && ok == (index < vq.Length)
      ensures View() == InBandKick(old(View()), index)
    {
      hide SetHandler;
      if index >= vq.Length {
        return false;
      }
      if !vq[index].started {
        vq[index] := vq[index].(started := true);
        SetStarted(index, true);
      }
      return true;
    }
  }

  lemma DropKickSize(s: State, q: nat)
    requires q < |s.queues|
    ensures |DropKick(s, q).queues| == |s.queues|
  {
  }
}
