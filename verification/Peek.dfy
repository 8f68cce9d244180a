// Peeking: how many bytes the pending chains offer, computed without fetching any of them.

module Peek {
  import opened Words
  import opened Regions
  import opened Chains
  import opened ChainMeaning

  /** The available ring as the device reads it: what a read returns may depend on the round. */
  datatype Avail = Avail(idx: nat -> U16, ring: (nat, nat) -> U16)

  /** The limits past which counting stops. */
  datatype Limits = Limits(inBytes: U32, outBytes: U32)

  datatype Totals = Totals(inBytes: U32, outBytes: U32)

  /** The inner loop ends a chain, reaches both limits or panics. */
  datatype ChainEnd = Ended(bufs: nat, t: Totals) | Reached(t: Totals) | Panic

  /** The outer loop: the totals, a panic (which zeroes them), or the unmodelled copied table. */
  datatype Answer = Counted(t: Totals) | Failed | Copied

  predicate AtLimits(t: Totals, l: Limits) {
    t.inBytes >= l.inBytes && t.outBytes >= l.outBytes
  }

  function Add(t: Totals, d: Desc, write: bool): Totals {
    if write then t.(inBytes := Low32(t.inBytes + d.len)) else t.(outBytes := Low32(t.outBytes + d.len))
  }

  /** The do-while loop over one chain. */
  function PeekChain(mem: Memory, t: nat, tab: Table, i: nat, max: nat, bufs: nat, sum: Totals, l: Limits): ChainEnd
    decreases max - bufs
  {
    if bufs + 1 > max then Panic
    else
      var sum' := Add(sum, mem(t + 1, tab, i), mem(t, tab, i).isWrite);
      if AtLimits(sum', l) then Reached(sum')
      else if !mem(t + 2, tab, i).hasNext then Ended(bufs + 1, sum')
      else if mem(t + 3, tab, i).nextIdx >= max then Panic
      else PeekChain(mem, t + 4, tab, mem(t + 3, tab, i).nextIdx, max, bufs + 1, sum', l)
  }

  /** One head: a direct chain adds its descriptors to the count, an indirect one adds one. */
  function PeekHead(regions: seq<Region>, mem: Memory, head: nat, num: nat, bufs: nat, sum: Totals, l: Limits)
      : Option<ChainEnd>
    ensures PeekHead(regions, mem, head, num, bufs, sum, l).Some?
      && PeekHead(regions, mem, head, num, bufs, sum, l).value.Ended? && bufs <= num
      ==> bufs < PeekHead(regions, mem, head, num, bufs, sum, l).value.bufs <= num
  {
    match Locate(regions, mem, head, num)
    case NoStart(Bounced) => if bufs >= num then Some(Panic) else None
    case NoStart(_) => Some(Panic)
    case Begin(t, Ring, i, max) =>
      EndedBufs(mem, t, Ring, i, max, bufs, sum, l);
      Some(PeekChain(mem, t, Ring, i, max, bufs, sum, l))
    case Begin(t, tab, i, max) =>
      if bufs >= num then Some(Panic)
      else
        match PeekChain(mem, t, tab, i, max, 0, sum, l)
        case Ended(_, sum') => Some(Ended(bufs + 1, sum'))
        case r => Some(r)
  }

  lemma {:induction false} EndedBufs(mem: Memory, t: nat, tab: Table, i: nat, max: nat, bufs: nat, sum: Totals,
                                     l: Limits)
    ensures var r := PeekChain(mem, t, tab, i, max, bufs, sum, l);
            r.Ended? ==> bufs < r.bufs <= max
    decreases max - bufs
  {
    if bufs + 1 <= max && mem(t + 3, tab, i).nextIdx < max {
      EndedBufs(mem, t + 4, tab, mem(t + 3, tab, i).nextIdx, max, bufs + 1,
                Add(sum, mem(t + 1, tab, i), mem(t, tab, i).isWrite), l);
    }
  }

  /** The loop over the heads. It terminates even when the driver keeps moving `avail->idx`, because every
      chain it passes adds to a count that may not exceed `num`. */
  function PeekFrom(regions: seq<Region>, avail: Avail, mems: nat -> Memory, num: nat, k: nat, idx: nat,
                    bufs: nat, sum: Totals, l: Limits): Answer
    requires 0 < num && bufs <= num
    decreases num - bufs
  {
    var heads := Low16(avail.idx(k) - idx);
    if heads > num then Failed
    else if heads == 0 then Counted(sum)
    else
      var head := avail.ring(k, Slot(idx, num));
      if head >= num then Failed
      else
        match PeekHead(regions, mems(k), head, num, bufs, sum, l)
        case None => Copied
        case Some(Panic) => Failed
        case Some(Reached(t)) => Counted(t)
        case Some(Ended(b, t)) => PeekFrom(regions, avail, mems, num, k + 1, idx + 1, b, t, l)
  }

  /** The last available index that those loops read, which stays behind in the cache. */
  function LastSeen(regions: seq<Region>, avail: Avail, mems: nat -> Memory, num: nat, k: nat, idx: nat,
                    bufs: nat, sum: Totals, l: Limits): U16
    requires 0 < num && bufs <= num
    decreases num - bufs
  {
    var heads := Low16(avail.idx(k) - idx);
    if heads > num || heads == 0 || avail.ring(k, Slot(idx, num)) >= num then avail.idx(k)
    else
      match PeekHead(regions, mems(k), avail.ring(k, Slot(idx, num)), num, bufs, sum, l)
      case Some(Ended(b, t)) => LastSeen(regions, avail, mems, num, k + 1, idx + 1, b, t, l)
      case _ => avail.idx(k)
  }

  /** `vu_queue_avail_bytes` on an answer that is not copied. */
  predicate Enough(a: Answer, l: Limits) {
    || (a.Counted? && l.inBytes <= a.t.inBytes && l.outBytes <= a.t.outBytes)
    || (a.Failed? && l.inBytes == 0 && l.outBytes == 0)
  }

  // ---- What popping would return ----------------------------------------------------------------------

  function SumLen(ps: seq<Piece>): nat {
    if ps == [] then 0 else ps[0].len + SumLen(ps[1..])
  }

  lemma {:induction false} SumLenConcat(a: seq<Piece>, b: seq<Piece>)
    ensures SumLen(a + b) == SumLen(a) + SumLen(b)
  {
    if a == [] {
      assert a + b == b;
    } else {
      assert (a + b)[1..] == a[1..] + b;
      SumLenConcat(a[1..], b);
    }
  }

  lemma {:induction false} RangeSum(regions: seq<Region>, room: nat, pa: U64, sz: U32)
    requires MapRange(regions, room, pa, sz).Pieces?
    ensures SumLen(MapRange(regions, room, pa, sz).list) == sz
    decreases sz
  {
    if sz > 0 {
      var p := Translate(regions, pa, sz).value;
      RangeSum(regions, room - 1, Low64(pa + p.len), sz - p.len);
      var rest := MapRange(regions, room - 1, Low64(pa + p.len), sz - p.len).list;
      assert ([p] + rest)[1..] == rest;
    }
  }

  /** The bytes of a chain's buffers of one direction, from its descriptors. */
  function ChainBytes(mem: Memory, tab: Table, path: seq<nat>, write: bool): nat {
    if path == [] then 0
    else (if At0(mem, tab, path[0]).isWrite == write then At0(mem, tab, path[0]).len else 0)
         + ChainBytes(mem, tab, path[1..], write)
  }

  lemma AddOneSums(regions: seq<Region>, mem: Memory, t: nat, tab: Table, i: nat, outSg: seq<Piece>, inSg: seq<Piece>)
    requires |outSg| + |inSg| <= VIRTQUEUE_MAX_SIZE
    requires Frozen(mem) && AddOne(regions, mem, t, tab, i, outSg, inSg).Gathered?
    ensures var r := AddOne(regions, mem, t, tab, i, outSg, inSg);
            var d := At0(mem, tab, i);
            SumLen(r.inSg) == SumLen(inSg) + (if d.isWrite then d.len else 0)
            && SumLen(r.outSg) == SumLen(outSg) + (if d.isWrite then 0 else d.len)
  {
    hide MapRange, SumLen;
    var d := At0(mem, tab, i);
    assert mem(t, tab, i) == d && mem(t + 1, tab, i) == d && mem(t + 2, tab, i) == d;
    var room := VIRTQUEUE_MAX_SIZE - |outSg| - |inSg|;
    RangeSum(regions, room, d.addr, d.len);
    var ps := MapRange(regions, room, d.addr, d.len).list;
    SumLenConcat(inSg, ps);
    SumLenConcat(outSg, ps);
  }

  /** The iovec lengths of a gathered chain add up to its descriptors' lengths, direction by direction. */
  lemma {:induction false} WalkSums(regions: seq<Region>, mem: Memory, t: nat, tab: Table, i: nat, max: nat,
                                    outSg: seq<Piece>, inSg: seq<Piece>, path: seq<nat>)
    requires |outSg| + |inSg| <= VIRTQUEUE_MAX_SIZE && |outSg| + |inSg| <= max
    requires Frozen(mem) && Chain(mem, tab, max, i, path)
    requires Walk(regions, mem, t, tab, i, max, outSg, inSg).Gathered?
    ensures var r := Walk(regions, mem, t, tab, i, max, outSg, inSg);
            SumLen(r.inSg) == SumLen(inSg) + ChainBytes(mem, tab, path, true)
            && SumLen(r.outSg) == SumLen(outSg) + ChainBytes(mem, tab, path, false)
    decreases max - |outSg| - |inSg|
  {
    hide AddOne, Walk, SumLen;
    WalkStep(regions, mem, t, tab, i, max, outSg, inSg);
    AddOneSums(regions, mem, t, tab, i, outSg, inSg);
    var r := AddOne(regions, mem, t, tab, i, outSg, inSg);
    var d := At0(mem, tab, i);
    assert mem(t + 3, tab, i) == d && mem(t + 4, tab, i) == d;
    if d.hasNext {
      WalkSums(regions, mem, t + 5, tab, d.nextIdx, max, r.outSg, r.inSg, path[1..]);
    } else {
      assert path[1..] == [];
    }
  }

  // ---- Peeking agrees with popping -----------------------------------------------------------------------

  /** `r` is what counting the bytes `inMore` and `outMore` on top of `sum` must give: the full totals
      unless both limits are met, and then a prefix of them that meets both. */
  ghost predicate Agrees(r: ChainEnd, bufs: nat, sum: Totals, inMore: nat, outMore: nat, l: Limits) {
    match r
    case Panic => false
    case Ended(b, t) =>
      b == bufs && t.inBytes == sum.inBytes + inMore && t.outBytes == sum.outBytes + outMore
      && !(l.inBytes <= sum.inBytes + inMore && l.outBytes <= sum.outBytes + outMore)
    case Reached(t) =>
      l.inBytes <= t.inBytes <= sum.inBytes + inMore && l.outBytes <= t.outBytes <= sum.outBytes + outMore
  }

  lemma {:induction false} PeekChainAgrees(mem: Memory, t: nat, tab: Table, i: nat, max: nat, bufs: nat, sum: Totals,
                                           l: Limits, path: seq<nat>)
    requires Frozen(mem) && Chain(mem, tab, max, i, path) && bufs + |path| <= max
    requires sum.inBytes + ChainBytes(mem, tab, path, true) < WORD32
    requires sum.outBytes + ChainBytes(mem, tab, path, false) < WORD32
    ensures Agrees(PeekChain(mem, t, tab, i, max, bufs, sum, l), bufs + |path|, sum,
                   ChainBytes(mem, tab, path, true), ChainBytes(mem, tab, path, false), l)
    decreases |path|
  {
    var d := At0(mem, tab, i);
    assert mem(t, tab, i) == d && mem(t + 1, tab, i) == d && mem(t + 2, tab, i) == d && mem(t + 3, tab, i) == d;
    var sum' := Add(sum, d, d.isWrite);
    if d.hasNext {
      PeekChainAgrees(mem, t + 4, tab, d.nextIdx, max, bufs + 1, sum', l, path[1..]);
    } else {
      assert path[1..] == [];
    }
  }

  /** A head whose table cannot be found is an error, and so no bytes are counted. */
  lemma BadTableFails(regions: seq<Region>, mem: Memory, head: nat, num: nat, bufs: nat, sum: Totals, l: Limits)
    requires Frozen(mem) && Disjoint(regions) && At0(mem, Ring, head).isIndirect
    requires var d := At0(mem, Ring, head); d.len % 16 != 0 || d.len == 0 || Byte(regions, d.addr) == None
    ensures PeekHead(regions, mem, head, num, bufs, sum, l) == Some(Panic)
  {
    hide Byte, Disjoint, PeekChain;
    LocateExact(regions, mem, head, num, Ring, 0, 0);
  }

  /** A chain is counted as ended only at its end, with all its bytes in 32 bits; and counting stops early only once
      both limits are met. */
  lemma {:induction false} ChainCountedFully(mem: Memory, t: nat, tab: Table, i: nat, max: nat, bufs: nat, sum: Totals,
                                             l: Limits) returns (path: seq<nat>)
    requires Frozen(mem)
    ensures var r := PeekChain(mem, t, tab, i, max, bufs, sum, l);
            && (r.Ended? ==>
                  && Chain(mem, tab, max, i, path) && r.bufs == bufs + |path| <= max
                  && r.t.inBytes == Low32(sum.inBytes + ChainBytes(mem, tab, path, true))
                  && r.t.outBytes == Low32(sum.outBytes + ChainBytes(mem, tab, path, false)))
            && (r.Reached? ==> r.t.inBytes >= l.inBytes && r.t.outBytes >= l.outBytes)
    decreases max - bufs
  {
    hide Low32;
    path := [];
    var d := At0(mem, tab, i);
    assert mem(t, tab, i) == d && mem(t + 1, tab, i) == d && mem(t + 2, tab, i) == d && mem(t + 3, tab, i) == d;
    if bufs + 1 <= max {
      var sum' := Add(sum, d, d.isWrite);
      path := [i];
      assert path[1..] == [];
      Low32Adds(sum.inBytes, d.len, 0);
      Low32Adds(sum.outBytes, d.len, 0);
      Low32Small(sum.inBytes);
      Low32Small(sum.outBytes);
      if d.hasNext && d.nextIdx < max {
        var rest := ChainCountedFully(mem, t + 4, tab, d.nextIdx, max, bufs + 1, sum', l);
        path := [i] + rest;
        assert path[1..] == rest;
        Low32Adds(sum.inBytes, d.len, ChainBytes(mem, tab, rest, true));
        Low32Adds(sum.outBytes, d.len, ChainBytes(mem, tab, rest, false));
      }
    }
  }

  lemma Low32Adds(a: nat, b: nat, c: nat)
    ensures Low32(Low32(a + b) + c) == Low32(a + (b + c))
  {
  }

  /** Nor does counting read beyond the table, whatever memory does. */
  lemma {:induction false} PeekReadsInside(a: Memory, b: Memory, t: nat, tab: Table, i: nat, max: nat, bufs: nat,
                                           sum: Totals, l: Limits)
    requires i < max && SameBelow(a, b, tab, max)
    ensures PeekChain(a, t, tab, i, max, bufs, sum, l) == PeekChain(b, t, tab, i, max, bufs, sum, l)
    decreases max - bufs
  {
    if bufs + 1 <= max && a(t + 3, tab, i).nextIdx < max {
      var sum' := Add(sum, a(t + 1, tab, i), a(t, tab, i).isWrite);
      PeekReadsInside(a, b, t + 4, tab, a(t + 3, tab, i).nextIdx, max, bufs + 1, sum', l);
    }
  }

  /** `path` is the chain of a head, in whatever table the head leads to. */
  ghost predicate HeadPath(regions: seq<Region>, mem: Memory, head: nat, num: nat, path: seq<nat>) {
    exists tab, i, max :: LeadsTo(regions, mem, head, num, tab, i, max) && Chain(mem, tab, max, i, path)
  }

  /** The number of ring descriptors a head uses: its chain's, or the one that names its table. */
  ghost function HeadCost(mem: Memory, head: nat, path: seq<nat>): nat {
    if At0(mem, Ring, head).isIndirect then 1 else |path|
  }

  /** One head: peeking counts exactly the bytes popping it would map. */
  lemma PeekHeadAgrees(regions: seq<Region>, mem: Memory, head: nat, num: nat, bufs: nat, sum: Totals, l: Limits,
                       path: seq<nat>)
    requires Frozen(mem) && Disjoint(regions) && QueueMap(regions, mem, head, num).Gathered?
    requires HeadPath(regions, mem, head, num, path) && bufs + HeadCost(mem, head, path) <= num
    requires var r := QueueMap(regions, mem, head, num);
             sum.inBytes + SumLen(r.inSg) < WORD32 && sum.outBytes + SumLen(r.outSg) < WORD32
    ensures var r := QueueMap(regions, mem, head, num);
            PeekHead(regions, mem, head, num, bufs, sum, l).Some?
            && Agrees(PeekHead(regions, mem, head, num, bufs, sum, l).value, bufs + HeadCost(mem, head, path), sum,
                      SumLen(r.inSg), SumLen(r.outSg), l)
  {
    hide Walk, PeekChain, ChainBytes, Disjoint, LeadsTo;
    var tab, i, max :| LeadsTo(regions, mem, head, num, tab, i, max) && Chain(mem, tab, max, i, path);
    LocateExact(regions, mem, head, num, tab, i, max);
    LeadsByKind(regions, mem, head, num, tab, i, max);
    var s := Locate(regions, mem, head, num);
    var p := GatherLocated(regions, mem, head, num);
    ChainUnique(mem, tab, max, i, path, p);
    WalkSums(regions, mem, s.t, tab, i, max, [], [], path);
    assert SumLen([]) == 0;
    PeekChainAgrees(mem, s.t, tab, i, max, if tab.Ring? then bufs else 0, sum, l, path);
  }

  lemma LeadsByKind(regions: seq<Region>, mem: Memory, head: nat, num: nat, tab: Table, i: nat, max: nat)
    requires LeadsTo(regions, mem, head, num, tab, i, max)
    ensures tab.Ring? <==> !At0(mem, Ring, head).isIndirect
    ensures tab.Ring? ==> max == num
  {
  }

  /** The bytes the iovecs of these heads would have. */
  ghost function MappedIn(regions: seq<Region>, mem: Memory, num: nat, heads: seq<nat>): nat {
    if heads == [] then 0
    else
      var r := QueueMap(regions, mem, heads[0], num);
      (if r.Gathered? then SumLen(r.inSg) else 0)
         + MappedIn(regions, mem, num, heads[1..])
  }

  ghost function MappedOut(regions: seq<Region>, mem: Memory, num: nat, heads: seq<nat>): nat {
    if heads == [] then 0
    else
      var r := QueueMap(regions, mem, heads[0], num);
      (if r.Gathered? then SumLen(r.outSg) else 0)
         + MappedOut(regions, mem, num, heads[1..])
  }

  /** Each pending head would be mapped, `paths` are their chains, and together they use no more than
      the ring's descriptors. */
  ghost predicate WellFormed(regions: seq<Region>, mem: Memory, num: nat, heads: seq<nat>, paths: seq<seq<nat>>,
                             bufs: nat)
    decreases |heads|
  {
    if heads == [] then bufs <= num
    else
      paths != [] && heads[0] < num && QueueMap(regions, mem, heads[0], num).Gathered?
      && HeadPath(regions, mem, heads[0], num, paths[0]) && bufs + HeadCost(mem, heads[0], paths[0]) <= num
      && WellFormed(regions, mem, num, heads[1..], paths[1..], bufs + HeadCost(mem, heads[0], paths[0]))
  }

  /** The ring shows exactly these heads from index `idx` on, at every read. */
  ghost predicate Shows(avail: Avail, num: nat, idx: nat, heads: seq<nat>)
    requires 0 < num
  {
    && (forall k: nat :: Low16(avail.idx(k) - idx) == |heads|)
    && (forall k: nat, p: nat :: idx <= p < idx + |heads| ==> avail.ring(k, Slot(p, num)) == heads[p - idx])
  }

  /** The totals, or once both limits are met, part of them that meets both. */
  ghost predicate Covers(a: Answer, inTotal: nat, outTotal: nat, l: Limits) {
    && a.Counted? && a.t.inBytes <= inTotal && a.t.outBytes <= outTotal
    && (if l.inBytes <= inTotal && l.outBytes <= outTotal
        then AtLimits(a.t, l) else a.t.inBytes == inTotal && a.t.outBytes == outTotal)
  }

  lemma ShowsNext(avail: Avail, num: nat, idx: nat, heads: seq<nat>)
    requires 0 < num && heads != [] && Shows(avail, num, idx, heads)
    ensures Shows(avail, num, idx + 1, heads[1..])
  {
    hide Slot;
    forall k: nat ensures Low16(avail.idx(k) - (idx + 1)) == |heads[1..]| {
      assert Low16(avail.idx(k) - idx) == |heads|;
    }
    forall k: nat, p: nat | idx + 1 <= p < idx + |heads|
      ensures avail.ring(k, Slot(p, num)) == heads[1..][p - (idx + 1)]
    {
      assert avail.ring(k, Slot(p, num)) == heads[p - idx];
    }
  }

  lemma {:induction false} PeekFromCovers(regions: seq<Region>, avail: Avail, mems: nat -> Memory, mem: Memory,
                                          num: nat,
                                          k: nat, idx: nat, bufs: nat, sum: Totals, l: Limits,
                                          heads: seq<nat>, paths: seq<seq<nat>>)
    requires 0 < num && |heads| <= num && (forall r: nat :: mems(r) == mem) && Frozen(mem) && Disjoint(regions)
    requires bufs <= num && Shows(avail, num, idx, heads) && WellFormed(regions, mem, num, heads, paths, bufs)
    requires sum.inBytes + MappedIn(regions, mem, num, heads) < WORD32
    requires sum.outBytes + MappedOut(regions, mem, num, heads) < WORD32
    requires heads != [] || !AtLimits(sum, l) || sum == Totals(0, 0)
    ensures Covers(PeekFrom(regions, avail, mems, num, k, idx, bufs, sum, l),
                   sum.inBytes + MappedIn(regions, mem, num, heads),
                   sum.outBytes + MappedOut(regions, mem, num, heads), l)
    decreases |heads|
  {
    hide PeekHead, QueueMap, Slot, SumLen, Disjoint, Low16, HeadPath, HeadCost;
    assert Low16(avail.idx(k) - idx) == |heads|;
    assert mems(k) == mem;
    if heads != [] {
      var h := heads[0];
      assert avail.ring(k, Slot(idx, num)) == h;
      PeekHeadAgrees(regions, mem, h, num, bufs, sum, l, paths[0]);
      ShowsNext(avail, num, idx, heads);
      var r := PeekHead(regions, mem, h, num, bufs, sum, l).value;
      if r.Ended? {
        PeekFromCovers(regions, avail, mems, mem, num, k + 1, idx + 1, r.bufs, r.t, l, heads[1..], paths[1..]);
      }
    }
  }

  /** A ring that shows more than `num` new entries, a head that does not exist or a chain in error gives zero totals:
      neither limit is met unless it is zero. */
  lemma PeekRefuses(regions: seq<Region>, avail: Avail, mems: nat -> Memory, num: nat, k: nat, idx: nat, bufs: nat,
                    sum: Totals, l: Limits)
    requires 0 < num && bufs <= num
    requires var heads, head := Low16(avail.idx(k) - idx), avail.ring(k, Slot(idx, num));
             || heads > num
             || (heads > 0 && (head >= num || PeekHead(regions, mems(k), head, num, bufs, sum, l) == Some(Panic)))
    ensures Enough(PeekFrom(regions, avail, mems, num, k, idx, bufs, sum, l), l) <==> l.inBytes == 0 && l.outBytes == 0
  {
    hide Low16, Slot, PeekHead;
  }

  /** Peeking agrees with popping: on well-formed pending chains whose bytes fit 32 bits, the totals are
      the summed iovec lengths the pops would return, whenever the limits lie above them. */
  lemma PeekEqualsPop(regions: seq<Region>, avail: Avail, mems: nat -> Memory, mem: Memory, num: nat, lastAvail: U16,
                      l: Limits, heads: seq<nat>, paths: seq<seq<nat>>)
    requires 0 < num && |heads| <= num && (forall r: nat :: mems(r) == mem) && Frozen(mem) && Disjoint(regions)
    requires Shows(avail, num, lastAvail, heads) && WellFormed(regions, mem, num, heads, paths, 0)
    requires MappedIn(regions, mem, num, heads) < WORD32 && MappedOut(regions, mem, num, heads) < WORD32
    requires l.inBytes > MappedIn(regions, mem, num, heads) || l.outBytes > MappedOut(regions, mem, num, heads)
    ensures PeekFrom(regions, avail, mems, num, 0, lastAvail, 0, Totals(0, 0), l)
         == Counted(Totals(MappedIn(regions, mem, num, heads), MappedOut(regions, mem, num, heads)))
  {
    hide PeekFrom, MappedIn, MappedOut, WellFormed, Shows, Disjoint;
    PeekFromCovers(regions, avail, mems, mem, num, 0, lastAvail, 0, Totals(0, 0), l, heads, paths);
  }

  /** The early stop never changes the answer of `vu_queue_avail_bytes`. */
  lemma EarlyStopKeepsAnswer(regions: seq<Region>, avail: Avail, mems: nat -> Memory, mem: Memory, num: nat,
                             lastAvail: U16,
                             l: Limits, heads: seq<nat>, paths: seq<seq<nat>>)
    requires 0 < num && |heads| <= num && (forall r: nat :: mems(r) == mem) && Frozen(mem) && Disjoint(regions)
    requires Shows(avail, num, lastAvail, heads) && WellFormed(regions, mem, num, heads, paths, 0)
    requires MappedIn(regions, mem, num, heads) < WORD32 && MappedOut(regions, mem, num, heads) < WORD32
    ensures Enough(PeekFrom(regions, avail, mems, num, 0, lastAvail, 0, Totals(0, 0), l), l)
      <==> l.inBytes <= MappedIn(regions, mem, num, heads) && l.outBytes <= MappedOut(regions, mem, num, heads)
  {
    hide PeekFrom, MappedIn, MappedOut, WellFormed, Shows, Disjoint;
    PeekFromCovers(regions, avail, mems, mem, num, 0, lastAvail, 0, Totals(0, 0), l, heads, paths);
  }

  // ---- The loops, in place ------------------------------------------------------------------------------

  /** The loop of `vu_queue_get_avail_bytes` over one chain; `bufs` counts descriptors. */
  method CountChain(mem: Memory, t0: nat, tab: Table, i0: nat, max: nat, bufs0: nat, sum0: Totals, l: Limits)
      returns (r: ChainEnd)
    ensures r == PeekChain(mem, t0, tab, i0, max, bufs0, sum0, l)
  {
    var t: nat, i: nat, bufs: nat, sum := t0, i0, bufs0, sum0;
    while true
      invariant PeekChain(mem, t0, tab, i0, max, bufs0, sum0, l) == PeekChain(mem, t, tab, i, max, bufs, sum, l)
      decreases max - bufs
    {
      bufs := bufs + 1;
      if bufs > max {
        return Panic;
      }
      if mem(t, tab, i).isWrite {
        sum := sum.(inBytes := Low32(sum.inBytes + mem(t + 1, tab, i).len));
      } else {
        sum := sum.(outBytes := Low32(sum.outBytes + mem(t + 1, tab, i).len));
      }
      if sum.inBytes >= l.inBytes && sum.outBytes >= l.outBytes {
        return Reached(sum);
      }
      if !mem(t + 2, tab, i).hasNext {
        return Ended(bufs, sum);
      }
      var next := mem(t + 3, tab, i).nextIdx;
      if next >= max {
        return Panic;
      }
      t, i := t + 4, next;
    }
  }

  /** `vu_queue_get_avail_bytes` on an unbroken, mapped queue. */
  method GetAvailBytes(table: RegionTable, avail: Avail, mems: nat -> Memory, num: nat, lastAvail: U16, l: Limits)
      returns (a: Answer, shadow: U16)
    requires table.Valid() && 0 < num
    ensures a == PeekFrom(table.Live(), avail, mems, num, 0, lastAvail, 0, Totals(0, 0), l)
    ensures shadow == LastSeen(table.Live(), avail, mems, num, 0, lastAvail, 0, Totals(0, 0), l)
  {
    hide PeekChain, PeekHead, Slot, Low16, Translate;
    var k: nat, idx: nat, total: nat, sum := 0, lastAvail, 0, Totals(0, 0);
    while true
      invariant total <= num
      invariant PeekFrom(table.Live(), avail, mems, num, 0, lastAvail, 0, Totals(0, 0), l)
             == PeekFrom(table.Live(), avail, mems, num, k, idx, total, sum, l)
      invariant LastSeen(table.Live(), avail, mems, num, 0, lastAvail, 0, Totals(0, 0), l)
             == LastSeen(table.Live(), avail, mems, num, k, idx, total, sum, l)
      decreases num - total
    {
      shadow := avail.idx(k);
      var heads := Low16(shadow - idx);
      if heads > num {
        return Failed, shadow;
      }
      if heads == 0 {
        return Counted(sum), shadow;
      }
      var head := avail.ring(k, Slot(idx, num));
      if head >= num {
        return Failed, shadow;
      }
      var r := CountHead(table, mems(k), head, num, total, sum, l);
      match r {
        case None => return Copied, shadow;
        case Some(Panic) => return Failed, shadow;
        case Some(Reached(t)) => return Counted(t), shadow;
        case Some(Ended(b, t)) => k, idx, total, sum := k + 1, idx + 1, b, t;
      }
    }
  }

  method CountHead(table: RegionTable, mem: Memory, head: nat, num: nat, total: nat, sum: Totals, l: Limits)
      returns (r: Option<ChainEnd>)
    requires table.Valid() && total <= num
    ensures r == PeekHead(table.Live(), mem, head, num, total, sum, l)
  {
    hide PeekChain, Translate;
    if mem(0, Ring, head).isIndirect {
      if mem(1, Ring, head).len % DESC_SIZE != 0 {
        return Some(Panic);
      }
      if total >= num {
        return Some(Panic);
      }
      var len := mem(3, Ring, head).len;
      var va, got := table.GpaToVa(len, mem(2, Ring, head).addr);
      if va.None? {
        return Some(Panic);
      }
      if got != len {
        return None;
      }
      var c := CountChain(mem, 4, At(va.value), 0, len / DESC_SIZE, 0, sum, l);
      if c.Ended? {
        return Some(Ended(total + 1, c.t));
      }
      return Some(c);
    }
    var c := CountChain(mem, 1, Ring, head, num, total, sum, l);
    return Some(c);
  }
}
