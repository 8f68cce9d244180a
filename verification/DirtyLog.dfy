// The dirty-page log of live migration: which pages a completion marks.

module DirtyLog {
  import opened Words
  import opened Regions
  import opened Chains
  import opened ChainMeaning

  const LOG_PAGE := 4096

  /** A guest range `[addr, addr + len)` the device wrote. */
  datatype Written = Written(addr: nat, len: nat)

  function Mask(k: nat): bv8
    requires k < 8
  {
    (1 as bv8) << k
  }

  predicate BitOf(b: bv8, k: nat)
    requires k < 8
  {
    b & Mask(k) != 0
  }

  /** Page `p` is marked. */
  predicate PageMarked(table: seq<bv8>, p: nat) {
    p / 8 < |table| && BitOf(table[p / 8], p % 8)
  }

  /** The range has a byte in page `p`. */
  ghost predicate Meets(w: Written, p: nat) {
    exists a :: w.addr <= a < w.addr + w.len && a / 4096 == p
  }

  lemma MaskBits(b: bv8, k: nat, j: nat)
    requires k < 8 && j < 8
    ensures BitOf(b | Mask(k), j) <==> j == k || BitOf(b, j)
  {
    MaskCases(k);
    MaskCases(j);
  }

  lemma MaskCases(k: nat)
    requires k < 8
    ensures Mask(k) == [1, 2, 4, 8, 16, 32, 64, 128][k]
  {
    if k == 0 {} else if k == 1 {} else if k == 2 {} else if k == 3 {}
    else if k == 4 {} else if k == 5 {} else if k == 6 {}
  }

  /** A page loop covers exactly the pages the range has bytes in. */
  lemma PagesOfRange(w: Written, p: nat)
    requires w.len > 0
    ensures Meets(w, p) <==> w.addr / LOG_PAGE <= p && p * LOG_PAGE < w.addr + w.len
  {
    if w.addr / LOG_PAGE <= p && p * LOG_PAGE < w.addr + w.len {
      var a := if p * LOG_PAGE < w.addr then w.addr else p * LOG_PAGE;
      assert a / LOG_PAGE == p;
    }
  }

  // ---- The walk of vu_log_queue_fill ---------------------------------------------------------------

  /** What the walk logs, and whether it ended without a panic. */
  datatype Trail = Trail(writes: seq<Written>, ok: bool)

  function Min(a: nat, b: nat): nat {
    if a < b then a else b
  }

  /** The do-while loop: `bufs` descriptors were counted before, `len` bytes are left. */
  function FillWalk(mem: Memory, t: nat, tab: Table, i: nat, max: nat, bufs: nat, len: nat): (r: Trail)
    requires bufs <= max
    decreases max - bufs
  {
    if bufs + 1 > max then Trail([], false)
    else
      var write := mem(t, tab, i).isWrite;
      var min := if write then Min(mem(t + 1, tab, i).len, len) else 0;
      var here := if write then [Written(mem(t + 2, tab, i).addr, min)] else [];
      if len - min > 0 && mem(t + 3, tab, i).hasNext then
        if mem(t + 4, tab, i).nextIdx >= max then Trail(here, false)
        else
          var rest := FillWalk(mem, t + 5, tab, mem(t + 4, tab, i).nextIdx, max, bufs + 1, len - min);
          Trail(here + rest.writes, rest.ok)
      else Trail(here, true)
  }

  /** `vu_log_queue_fill`; `None` is the copied table, which is not modelled. */
  function LogFill(regions: seq<Region>, mem: Memory, idx: nat, num: nat, len: nat): Option<Trail> {
    match Locate(regions, mem, idx, num)
    case NoStart(Bounced) => None
    case NoStart(_) => Some(Trail([], false))
    case Begin(t, tab, i, max) => Some(FillWalk(mem, t, tab, i, max, 0, len))
  }

  /** A head whose table cannot be found logs nothing, and the completion stops there. */
  lemma BadTableStops(regions: seq<Region>, mem: Memory, head: nat, num: nat, len: nat)
    requires Frozen(mem) && Disjoint(regions) && At0(mem, Ring, head).isIndirect
    requires var d := At0(mem, Ring, head); d.len % 16 != 0 || d.len == 0 || Byte(regions, d.addr) == None
    ensures LogFill(regions, mem, head, num, len) == Some(Trail([], false))
  {
    hide Byte, Disjoint, FillWalk;
    LocateExact(regions, mem, head, num, Ring, 0, 0);
  }

  /** The descriptors of `path` follow one another from entry `i`. */
  ghost predicate Links(mem: Memory, tab: Table, max: nat, i: nat, path: seq<nat>)
    decreases |path|
  {
    && path != [] && path[0] == i
    && (|path| > 1 ==>
          At0(mem, tab, i).hasNext && At0(mem, tab, i).nextIdx < max
          && Links(mem, tab, max, At0(mem, tab, i).nextIdx, path[1..]))
  }

  /** The walk may stop at the end of `path`: enough bytes are covered, or no descriptor follows. */
  ghost predicate MayStop(mem: Memory, tab: Table, path: seq<nat>, len: nat) {
    path != [] && (|BufferAddrs(mem, tab, path, true)| >= len || !At0(mem, tab, path[|path| - 1]).hasNext)
  }

  lemma AddrsGrow(mem: Memory, tab: Table, path: seq<nat>)
    requires path != []
    ensures |BufferAddrs(mem, tab, path, true)|
      == (if At0(mem, tab, path[0]).isWrite then At0(mem, tab, path[0]).len else 0)
         + |BufferAddrs(mem, tab, path[1..], true)|
  {
    hide BufferAddrs;
    SplitAddrs(mem, tab, path, true);
    OneBuffer(mem, tab, path[0]);
  }

  /** Within `room` descriptors from entry `i` there is a place to stop. */
  ghost predicate CanStop(mem: Memory, tab: Table, max: nat, i: nat, room: nat, len: nat) {
    exists path :: Links(mem, tab, max, i, path) && |path| <= room && MayStop(mem, tab, path, len)
  }

  /** The walk ends without a panic exactly when within the table's size it finds a place where it may stop. */
  lemma {:induction false} WalkEndsExactly(mem: Memory, t: nat, tab: Table, i: nat, max: nat, bufs: nat, len: nat)
    requires Frozen(mem) && bufs <= max
    ensures FillWalk(mem, t, tab, i, max, bufs, len).ok <==> CanStop(mem, tab, max, i, max - bufs, len)
    decreases max - bufs
  {
    hide CanStop, MayStop;
    var d := At0(mem, tab, i);
    assert mem(t, tab, i) == d && mem(t + 1, tab, i) == d && mem(t + 3, tab, i) == d && mem(t + 4, tab, i) == d;
    var min := if d.isWrite then Min(d.len, len) else 0;
    StopHere(mem, tab, i, len);
    if bufs == max {
      NoRoom(mem, tab, max, i, len);
    } else if len - min > 0 && d.hasNext && d.nextIdx < max {
      WalkEndsExactly(mem, t + 5, tab, d.nextIdx, max, bufs + 1, len - min);
      StopLater(mem, tab, max, i, len, min, max - bufs);
    } else if len - min > 0 && d.hasNext {
      NoStop(mem, tab, max, i, len, max - bufs);
    } else {
      StopNow(mem, tab, max, i, len, max - bufs);
    }
  }

  lemma NoRoom(mem: Memory, tab: Table, max: nat, i: nat, len: nat)
    ensures !CanStop(mem, tab, max, i, 0, len)
  {
    hide MayStop;
  }

  lemma StopNow(mem: Memory, tab: Table, max: nat, i: nat, len: nat, room: nat)
    requires room > 0 && MayStop(mem, tab, [i], len)
    ensures CanStop(mem, tab, max, i, room, len)
  {
    hide MayStop;
    assert Links(mem, tab, max, i, [i]);
  }

  lemma StopHere(mem: Memory, tab: Table, i: nat, len: nat)
    ensures MayStop(mem, tab, [i], len) <==>
      (if At0(mem, tab, i).isWrite then At0(mem, tab, i).len else 0) >= len || !At0(mem, tab, i).hasNext
  {
    OneBuffer(mem, tab, i);
  }

  /** A link out of the table leaves no place to stop. */
  lemma NoStop(mem: Memory, tab: Table, max: nat, i: nat, len: nat, room: nat)
    requires At0(mem, tab, i).hasNext && At0(mem, tab, i).nextIdx >= max && !MayStop(mem, tab, [i], len)
    ensures !CanStop(mem, tab, max, i, room, len)
  {
    hide MayStop;
    forall path | Links(mem, tab, max, i, path) ensures path == [i] {
    }
  }

  /** Past a descriptor that does not let the walk stop, the places to stop are those of the rest. */
  lemma StopLater(mem: Memory, tab: Table, max: nat, i: nat, len: nat, min: nat, room: nat)
    requires room > 0
    requires var d := At0(mem, tab, i);
             && d.hasNext && d.nextIdx < max && min == (if d.isWrite then Min(d.len, len) else 0) && len - min > 0
    ensures CanStop(mem, tab, max, i, room, len) <==>
      CanStop(mem, tab, max, At0(mem, tab, i).nextIdx, room - 1, len - min)
  {
    hide BufferAddrs, MayStop;
    var next := At0(mem, tab, i).nextIdx;
    StopHere(mem, tab, i, len);
    forall path | Links(mem, tab, max, i, path) && |path| <= room && MayStop(mem, tab, path, len)
      ensures |path| > 1 && Links(mem, tab, max, next, path[1..]) && MayStop(mem, tab, path[1..], len - min)
    {
      assert |path| == 1 ==> path == [i];
      StopAfterFirst(mem, tab, path, len, min);
    }
    forall rest | Links(mem, tab, max, next, rest) && |rest| <= room - 1 && MayStop(mem, tab, rest, len - min)
      ensures Links(mem, tab, max, i, [i] + rest) && MayStop(mem, tab, [i] + rest, len)
    {
      assert ([i] + rest)[1..] == rest;
      StopAfterFirst(mem, tab, [i] + rest, len, min);
    }
  }

  lemma StopAfterFirst(mem: Memory, tab: Table, path: seq<nat>, len: nat, min: nat)
    requires |path| > 1
    requires var d := At0(mem, tab, path[0]); min == (if d.isWrite then Min(d.len, len) else 0) && len - min > 0
    ensures MayStop(mem, tab, path, len) <==> MayStop(mem, tab, path[1..], len - min)
  {
    hide BufferAddrs;
    AddrsGrow(mem, tab, path);
  }

  /** The bytes a list of writes covers, in order. */
  function Covered(writes: seq<Written>): seq<nat> {
    if writes == [] then [] else Span(writes[0].addr, writes[0].len) + Covered(writes[1..])
  }

  function Take<T>(s: seq<T>, n: nat): seq<T> {
    s[..Min(n, |s|)]
  }

  /** On the unchanged table of a gathered chain the walk never panics, and it logs exactly the first
      `len` bytes of the chain's writable buffers. */
  lemma {:induction false} FillWalkExact(mem: Memory, t: nat, tab: Table, i: nat, max: nat, bufs: nat, len: nat,
                                         path: seq<nat>)
    requires Frozen(mem) && Chain(mem, tab, max, i, path) && bufs + |path| <= max
    ensures var r := FillWalk(mem, t, tab, i, max, bufs, len);
            r.ok && Covered(r.writes) == Take(BufferAddrs(mem, tab, path, true), len)
    decreases |path|
  {
    hide BufferAddrs, Take, Covered;
    var d := At0(mem, tab, i);
    assert mem(t, tab, i) == d && mem(t + 1, tab, i) == d && mem(t + 2, tab, i) == d
        && mem(t + 3, tab, i) == d && mem(t + 4, tab, i) == d;
    var min := if d.isWrite then Min(d.len, len) else 0;
    FirstBuffer(mem, tab, path, len, min);
    CoveredOne(d.addr, min);
    if len - min > 0 && d.hasNext {
      FillWalkExact(mem, t + 5, tab, d.nextIdx, max, bufs + 1, len - min, path[1..]);
      CoveredCons(Written(d.addr, min), FillWalk(mem, t + 5, tab, d.nextIdx, max, bufs + 1, len - min).writes);
    }
  }

  /** Nor does this walk read beyond the table, whatever memory does. */
  lemma {:induction false} FillReadsInside(a: Memory, b: Memory, t: nat, tab: Table, i: nat, max: nat, bufs: nat,
                                           len: nat)
    requires bufs <= max && i < max && SameBelow(a, b, tab, max)
    ensures FillWalk(a, t, tab, i, max, bufs, len) == FillWalk(b, t, tab, i, max, bufs, len)
    decreases max - bufs
  {
    if bufs + 1 <= max && a(t + 4, tab, i).nextIdx < max {
      var min := if a(t, tab, i).isWrite then Min(a(t + 1, tab, i).len, len) else 0;
      FillReadsInside(a, b, t + 5, tab, a(t + 4, tab, i).nextIdx, max, bufs + 1, len - min);
    }
  }

  lemma CoveredOne(addr: nat, len: nat)
    ensures Covered([]) == [] && Covered([Written(addr, len)]) == Span(addr, len)
  {
    assert Covered([]) == [];
  }

  lemma CoveredCons(w: Written, rest: seq<Written>)
    ensures Covered([w] + rest) == Span(w.addr, w.len) + Covered(rest)
    ensures [] + rest == rest
  {
    assert ([w] + rest)[1..] == rest;
  }

  /** The first `len` writable bytes, from the first buffer and the rest of the chain. */
  lemma FirstBuffer(mem: Memory, tab: Table, path: seq<nat>, len: nat, min: nat)
    requires path != []
    requires min == if At0(mem, tab, path[0]).isWrite then Min(At0(mem, tab, path[0]).len, len) else 0
    ensures var all := BufferAddrs(mem, tab, path, true);
            var rest := BufferAddrs(mem, tab, path[1..], true);
            var first := if At0(mem, tab, path[0]).isWrite then Span(At0(mem, tab, path[0]).addr, min) else [];
            Take(all, len) == first + Take(rest, len - min)
            && (len == min || path[1..] == [] ==> Take(rest, len - min) == [])
  {
    hide Take, BufferAddrs;
    var d := At0(mem, tab, path[0]);
    var rest := BufferAddrs(mem, tab, path[1..], true);
    SplitAddrs(mem, tab, path, true);
    OneBuffer(mem, tab, path[0]);
    TakeNone(rest);
    NoBuffers(mem, tab);
    if d.isWrite {
      TakeConcat(Span(d.addr, d.len), rest, len);
      TakeSpan(d.addr, d.len, len);
    } else {
      NothingBefore(rest);
      NothingBefore(Take(rest, len));
    }
  }

  lemma NoBuffers(mem: Memory, tab: Table)
    ensures BufferAddrs(mem, tab, [], true) == []
  {
  }

  lemma NothingBefore(s: seq<nat>)
    ensures [] + s == s
  {
  }

  lemma TakeNone(s: seq<nat>)
    ensures Take(s, 0) == [] && (s == [] ==> forall n :: Take(s, n) == [])
  {
  }

  lemma TakeConcat(a: seq<nat>, b: seq<nat>, n: nat)
    ensures Take(a + b, n) == Take(a, n) + Take(b, n - Min(|a|, n))
  {
  }

  lemma TakeSpan(addr: nat, len: nat, n: nat)
    ensures Take(Span(addr, len), n) == Span(addr, Min(len, n))
  {
  }

  // ---- A completion -----------------------------------------------------------------------------------

  const USED_IDX_OFFSET := 2
  const USED_IDX_SIZE := 2
  const USED_RING_OFFSET := 4
  const USED_ELEM_SIZE := 8

  /** Everything `vu_queue_push` logs, in program order: the chain, the used element, the index. The
      index is written only when the walk did not panic. */
  function PushWrites(trail: Trail, logGuestAddr: nat, slot: nat): seq<Written> {
    trail.writes + [Written(logGuestAddr + USED_RING_OFFSET + slot * USED_ELEM_SIZE, USED_ELEM_SIZE)]
      + (if trail.ok then [Written(logGuestAddr + USED_IDX_OFFSET, USED_IDX_SIZE)] else [])
  }

  /** Every logged range is covered by the table and does not wrap. */
  ghost predicate InRange(writes: seq<Written>, logSize: nat) {
    forall k :: 0 <= k < |writes| && writes[k].len > 0 ==>
      writes[k].addr + writes[k].len < WORD64
      && (writes[k].addr + writes[k].len - 1) / LOG_PAGE / 8 < logSize
  }

  ghost predicate SomeMeets(writes: seq<Written>, p: nat) {
    exists k :: 0 <= k < |writes| && Meets(writes[k], p)
  }

  /** Pages as seen through the bytes covered. */
  ghost predicate PageHit(addrs: seq<nat>, p: nat) {
    exists k :: 0 <= k < |addrs| && addrs[k] / LOG_PAGE == p
  }

  lemma SpanMeets(w: Written, p: nat)
    ensures Meets(w, p) <==> PageHit(Span(w.addr, w.len), p)
  {
    if Meets(w, p) {
      var a :| w.addr <= a < w.addr + w.len && a / LOG_PAGE == p;
      assert Span(w.addr, w.len)[a - w.addr] == a;
    }
  }

  lemma PageHitConcat(a: seq<nat>, b: seq<nat>, p: nat)
    ensures PageHit(a + b, p) <==> PageHit(a, p) || PageHit(b, p)
  {
    if PageHit(a, p) {
      var k :| 0 <= k < |a| && a[k] / LOG_PAGE == p;
      assert (a + b)[k] == a[k];
    }
    if PageHit(b, p) {
      var k :| 0 <= k < |b| && b[k] / LOG_PAGE == p;
      assert (a + b)[|a| + k] == b[k];
    }
  }

  lemma {:induction false} CoveredMeets(writes: seq<Written>, p: nat)
    ensures SomeMeets(writes, p) <==> PageHit(Covered(writes), p)
  {
    if writes != [] {
      CoveredMeets(writes[1..], p);
      SpanMeets(writes[0], p);
      PageHitConcat(Span(writes[0].addr, writes[0].len), Covered(writes[1..]), p);
      assert writes == [writes[0]] + writes[1..];
    }
  }

  /** The pages a completion of a popped element marks, when its table is unchanged: those of the first
      `len` writable bytes, of the used element and of the used index, and the walk does not panic. */
  lemma PushMarksExactly(regions: seq<Region>, mem: Memory, head: nat, num: nat, len: nat, logGuestAddr: nat, slot: nat,
                         p: nat, tab: Table, i: nat, max: nat, path: seq<nat>)
    requires Frozen(mem) && Disjoint(regions) && QueueMap(regions, mem, head, num).Gathered?
    requires LeadsTo(regions, mem, head, num, tab, i, max) && Chain(mem, tab, max, i, path)
    ensures LogFill(regions, mem, head, num, len).Some? && LogFill(regions, mem, head, num, len).value.ok
    ensures SomeMeets(PushWrites(LogFill(regions, mem, head, num, len).value, logGuestAddr, slot), p) <==>
      || PageHit(Take(BufferAddrs(mem, tab, path, true), len), p)
      || Meets(Written(logGuestAddr + USED_RING_OFFSET + slot * USED_ELEM_SIZE, USED_ELEM_SIZE), p)
      || Meets(Written(logGuestAddr + USED_IDX_OFFSET, USED_IDX_SIZE), p)
  {
    hide Walk, FillWalk, BufferAddrs, Take, Covered, PageHit, Meets, Disjoint, LeadsTo;
    var s := Locate(regions, mem, head, num);
    LocateExact(regions, mem, head, num, tab, i, max);
    var q := GatherLocated(regions, mem, head, num);
    ChainUnique(mem, tab, max, i, path, q);
    FillWalkExact(mem, s.t, tab, i, max, 0, len, path);
    var trail := FillWalk(mem, s.t, tab, i, max, 0, len);
    CoveredMeets(trail.writes, p);
    var ring := Written(logGuestAddr + USED_RING_OFFSET + slot * USED_ELEM_SIZE, USED_ELEM_SIZE);
    var index := Written(logGuestAddr + USED_IDX_OFFSET, USED_IDX_SIZE);
    SomeMeetsConcat(trail.writes + [ring], [index], p);
    SomeMeetsConcat(trail.writes, [ring], p);
    SomeMeetsOne(ring, p);
    SomeMeetsOne(index, p);
  }

  /** Soundness for what the device stored: the guest byte behind each of the first `len` bytes of the
      writable scatter list is on a marked page. */
  lemma StoredBytesAreMarked(regions: seq<Region>, mem: Memory, head: nat, num: nat, len: nat, logGuestAddr: nat,
                             slot: nat, tab: Table, i: nat, max: nat, path: seq<nat>, k: nat) returns (a: nat)
    requires Frozen(mem) && Disjoint(regions) && QueueMap(regions, mem, head, num).Gathered?
    requires LeadsTo(regions, mem, head, num, tab, i, max) && Chain(mem, tab, max, i, path) && NoWrap(mem, tab, path)
    requires k < len && k < |HostBytes(QueueMap(regions, mem, head, num).inSg)|
    ensures Byte(regions, a) == Some(HostBytes(QueueMap(regions, mem, head, num).inSg)[k])
    ensures LogFill(regions, mem, head, num, len).Some?
            && SomeMeets(PushWrites(LogFill(regions, mem, head, num, len).value, logGuestAddr, slot), a / LOG_PAGE)
  {
    hide QueueMap, FillWalk, BufferAddrs, HostBytes, Disjoint, NoWrap, SomeMeets, LeadsTo;
    HeadChain(regions, mem, head, num, tab, i, max, path);
    var addrs := BufferAddrs(mem, tab, path, true);
    a := addrs[k];
    PushMarksExactly(regions, mem, head, num, len, logGuestAddr, slot, a / LOG_PAGE, tab, i, max, path);
    assert Take(addrs, len)[k] == a;
  }

  lemma SomeMeetsOne(w: Written, p: nat)
    ensures SomeMeets([w], p) <==> Meets(w, p)
  {
    assert [w][0] == w;
  }

  lemma SomeMeetsConcat(a: seq<Written>, b: seq<Written>, p: nat)
    ensures SomeMeets(a + b, p) <==> SomeMeets(a, p) || SomeMeets(b, p)
  {
    if SomeMeets(a, p) {
      var k :| 0 <= k < |a| && Meets(a[k], p);
      assert (a + b)[k] == a[k];
    }
    if SomeMeets(b, p) {
      var k :| 0 <= k < |b| && Meets(b[k], p);
      assert (a + b)[|a| + k] == b[k];
    }
  }

  // ---- In place -----------------------------------------------------------------------------------------

  /** The log as the device holds it: the mapped bitmap and whether LOG_ALL was negotiated. */
  class Log {
    const table: array<bv8>
    const mapped: bool
    const logAll: bool

    constructor (table: array<bv8>, mapped: bool, logAll: bool)
      ensures this.table == table && this.mapped == mapped && this.logAll == logAll
    {
      this.table, this.mapped, this.logAll := table, mapped, logAll;
    }

    ghost predicate On() {
      logAll && mapped
    }

    /** `vu_log_page` */
    method LogPage(page: nat)
      requires page / 8 < table.Length
      modifies table
      ensures forall p: nat :: PageMarked(table[..], p) <==> p == page || PageMarked(old(table[..]), p)
    {
      table[page / 8] := table[page / 8] | Mask(page % 8);
      forall p: nat
        ensures PageMarked(table[..], p) <==> p == page || PageMarked(old(table[..]), p)
      {
        if p / 8 == page / 8 {
          MaskBits(old(table[page / 8]), page % 8, p % 8);
        }
      }
    }

    /** `vu_log_write` */
    method LogWrite(address: nat, length: nat)
      requires On() ==> InRange([Written(address, length)], table.Length)
      modifies table
      ensures forall p: nat :: PageMarked(table[..], p) <==>
                PageMarked(old(table[..]), p) || (On() && Meets(Written(address, length), p))
      ensures !logAll || !mapped || length == 0 ==> table[..] == old(table[..])
    {
      hide PageMarked, Meets;
      if !logAll || !mapped || length == 0 {
        NothingMeets(address);
        return;
      }
      var w := Written(address, length);
      assert [w][0] == w;
      var page: nat := address / LOG_PAGE;
      while page * LOG_PAGE < address + length
        invariant address / LOG_PAGE <= page
        invariant forall p: nat :: PageMarked(table[..], p) <==>
                    PageMarked(old(table[..]), p) || (address / LOG_PAGE <= p < page && p * LOG_PAGE < address + length)
        decreases address + length - page * LOG_PAGE
      {
        LogPage(page);
        page := page + 1;
      }
      forall p: nat
        ensures PageMarked(table[..], p) <==> PageMarked(old(table[..]), p) || Meets(w, p)
      {
        PagesOfRange(w, p);
      }
    }
  }

  lemma NothingMeets(address: nat)
    ensures forall p: nat :: !Meets(Written(address, 0), p)
  {
  }

  // ---- The walk and the push, in place -------------------------------------------------------------------

  /** One writable buffer, logged behind `done`. */
  method LogBuffer(log: Log, addr: nat, len: nat, ghost done: seq<Written>)
    requires log.On() ==> InRange([Written(addr, len)], log.table.Length)
    modifies log.table
    ensures forall p: nat :: PageMarked(log.table[..], p) <==>
              PageMarked(old(log.table[..]), p) || (log.On() && Meets(Written(addr, len), p))
    ensures forall p: nat :: SomeMeets(done + [Written(addr, len)], p) <==>
              SomeMeets(done, p) || Meets(Written(addr, len), p)
  {
    hide PageMarked, Meets, SomeMeets, InRange;
    log.LogWrite(addr, len);
    MeetsMore(done, Written(addr, len));
  }

  /** `vu_log_queue_fill`, from the located start of the chain. */
  method LogChain(log: Log, mem: Memory, t0: nat, tab: Table, i0: nat, max: nat, len0: nat) returns (ok: bool)
    requires log.On() ==> InRange(FillWalk(mem, t0, tab, i0, max, 0, len0).writes, log.table.Length)
    modifies log.table
    ensures ok == FillWalk(mem, t0, tab, i0, max, 0, len0).ok
    ensures forall p: nat :: PageMarked(log.table[..], p) <==>
              (PageMarked(old(log.table[..]), p)
               || (log.On() && SomeMeets(FillWalk(mem, t0, tab, i0, max, 0, len0).writes, p)))
  {
    hide PageMarked, Meets, FillWalk, SomeMeets, InRange;
    ghost var whole := FillWalk(mem, t0, tab, i0, max, 0, len0);
    ghost var done: seq<Written> := [];
    var t: nat, i: nat, bufs: nat, len: nat := t0, i0, 0, len0;
    NoneMeets();
    assert whole == Prepend([], whole);
    while true
      invariant bufs <= max
      invariant whole == Prepend(done, FillWalk(mem, t, tab, i, max, bufs, len))
      invariant forall p: nat :: PageMarked(log.table[..], p) <==>
                  PageMarked(old(log.table[..]), p) || (log.On() && SomeMeets(done, p))
      decreases max - bufs
    {
      FillWalkStep(mem, t, tab, i, max, bufs, len, done);
      bufs := bufs + 1;
      if bufs > max {
        return false;
      }
      if mem(t, tab, i).isWrite {
        var min := Min(mem(t + 1, tab, i).len, len);
        if log.On() {
          PartInRange(whole.writes, |done|, log.table.Length);
        }
        LogBuffer(log, mem(t + 2, tab, i).addr, min, done);
        done := done + [Written(mem(t + 2, tab, i).addr, min)];
        len := len - min;
      }
      if len == 0 || !mem(t + 3, tab, i).hasNext {
        return true;
      }
      var next := mem(t + 4, tab, i).nextIdx;
      if next >= max {
        return false;
      }
      t, i := t + 5, next;
    }
  }

  function Prepend(done: seq<Written>, r: Trail): Trail {
    Trail(done + r.writes, r.ok)
  }

  lemma NoneMeets()
    ensures forall p: nat :: !SomeMeets([], p)
  {
  }

  lemma MeetsMore(done: seq<Written>, w: Written)
    ensures forall p: nat :: SomeMeets(done + [w], p) <==> SomeMeets(done, p) || Meets(w, p)
  {
    forall p: nat
      ensures SomeMeets(done + [w], p) <==> SomeMeets(done, p) || Meets(w, p)
    {
      SomeMeetsConcat(done, [w], p);
      SomeMeetsOne(w, p);
    }
  }

  lemma PartInRange(writes: seq<Written>, k: nat, logSize: nat)
    requires k < |writes| && InRange(writes, logSize)
    ensures InRange([writes[k]], logSize)
  {
  }

  /** One iteration of the walk, seen from behind what is already logged. */
  lemma FillWalkStep(mem: Memory, t: nat, tab: Table, i: nat, max: nat, bufs: nat, len: nat, done: seq<Written>)
    requires bufs <= max
    ensures var all := Prepend(done, FillWalk(mem, t, tab, i, max, bufs, len));
            if bufs + 1 > max then all == Trail(done, false)
            else
              var write := mem(t, tab, i).isWrite;
              var min := if write then Min(mem(t + 1, tab, i).len, len) else 0;
              var done' := if write then done + [Written(mem(t + 2, tab, i).addr, min)] else done;
              (write ==> |done| < |all.writes| && all.writes[|done|] == Written(mem(t + 2, tab, i).addr, min))
              && (if len - min > 0 && mem(t + 3, tab, i).hasNext then
                    if mem(t + 4, tab, i).nextIdx >= max then all == Trail(done', false)
                    else all == Prepend(done', FillWalk(mem, t + 5, tab, mem(t + 4, tab, i).nextIdx, max, bufs + 1,
                                                        len - min))
                  else all == Trail(done', true))
  {
  }

  /** `vu_log_queue_fill`: an indirect head is located first; its errors are the ones of the map. */
  method LogQueueFill(log: Log, table: RegionTable, mem: Memory, idx: nat, num: nat,
                      len: nat) returns (ok: Option<bool>)
    requires table.Valid()
    requires log.On() && LogFill(table.Live(), mem, idx, num, len).Some? ==>
               InRange(LogFill(table.Live(), mem, idx, num, len).value.writes, log.table.Length)
    requires log.table as object != table.regions
    modifies log.table
    ensures match LogFill(table.Live(), mem, idx, num, len)
            case None => ok == None && log.table[..] == old(log.table[..])
            case Some(trail) =>
              ok == Some(trail.ok)
              && forall p: nat :: PageMarked(log.table[..], p) <==>
                   (PageMarked(old(log.table[..]), p) || (log.On() && SomeMeets(trail.writes, p)))
  {
    hide PageMarked, FillWalk, SomeMeets, InRange, Translate;
    NoneMeets();
    var t: nat, tab, i: nat, max: nat := 1, Ring, idx, num;
    if mem(0, Ring, idx).isIndirect {
      if mem(1, Ring, idx).len % DESC_SIZE != 0 {
        return Some(false);
      }
      var tableLen := mem(3, Ring, idx).len;
      var va, got := table.GpaToVa(tableLen, mem(2, Ring, idx).addr);
      if va.None? {
        return Some(false);
      }
      if got != tableLen {
        return None;
      }
      t, tab, i, max := 4, At(va.value), 0, tableLen / DESC_SIZE;
    }
    var r := LogChain(log, mem, t, tab, i, max, len);
    return Some(r);
  }

  /** The logging of `vu_queue_push`: the chain and the used element from `vu_queue_fill`, the index
      from `vu_queue_flush`, which returns at once when the walk panicked. */
  method LogPush(log: Log, table: RegionTable, mem: Memory, idx: nat, num: nat, len: nat, logGuestAddr: nat, slot: nat)
      returns (ok: Option<bool>)
    requires table.Valid() && log.table as object != table.regions
    requires log.On() && LogFill(table.Live(), mem, idx, num, len).Some? ==>
               InRange(PushWrites(LogFill(table.Live(), mem, idx, num, len).value, logGuestAddr, slot),
                       log.table.Length)
    modifies log.table
    ensures match LogFill(table.Live(), mem, idx, num, len)
            case None => ok == None
            case Some(trail) =>
              ok == Some(trail.ok)
              && forall p: nat :: PageMarked(log.table[..], p) <==>
                   (PageMarked(old(log.table[..]), p)
                    || (log.On() && SomeMeets(PushWrites(trail, logGuestAddr, slot), p)))
  {
    hide PageMarked, LogFill, SomeMeets, InRange, Meets;
    ghost var trail := LogFill(table.Live(), mem, idx, num, len);
    if log.On() && trail.Some? {
      PushInRange(trail.value, logGuestAddr, slot, log.table.Length);
    }
    ok := LogQueueFill(log, table, mem, idx, num, len);
    if ok.None? {
      return;
    }
    log.LogWrite(logGuestAddr + USED_RING_OFFSET + slot * USED_ELEM_SIZE, USED_ELEM_SIZE);
    if ok.value {
      log.LogWrite(logGuestAddr + USED_IDX_OFFSET, USED_IDX_SIZE);
    }
    PushMeets(trail.value, logGuestAddr, slot);
  }

  lemma PushInRange(trail: Trail, logGuestAddr: nat, slot: nat, logSize: nat)
    requires InRange(PushWrites(trail, logGuestAddr, slot), logSize)
    ensures InRange(trail.writes, logSize)
    ensures InRange([Written(logGuestAddr + USED_RING_OFFSET + slot * USED_ELEM_SIZE, USED_ELEM_SIZE)], logSize)
    ensures trail.ok ==> InRange([Written(logGuestAddr + USED_IDX_OFFSET, USED_IDX_SIZE)], logSize)
  {
    hide PageMarked;
    var all := PushWrites(trail, logGuestAddr, slot);
    forall k | 0 <= k < |trail.writes| ensures trail.writes[k] == all[k] {
    }
    PartInRange(all, |trail.writes|, logSize);
    if trail.ok {
      PartInRange(all, |trail.writes| + 1, logSize);
    }
  }

  lemma PushMeets(trail: Trail, logGuestAddr: nat, slot: nat)
    ensures forall p: nat :: SomeMeets(PushWrites(trail, logGuestAddr, slot), p) <==>
      (SomeMeets(trail.writes, p)
       || Meets(Written(logGuestAddr + USED_RING_OFFSET + slot * USED_ELEM_SIZE, USED_ELEM_SIZE), p)
       || (trail.ok && Meets(Written(logGuestAddr + USED_IDX_OFFSET, USED_IDX_SIZE), p)))
  {
    hide SomeMeets, Meets;
    var ring := Written(logGuestAddr + USED_RING_OFFSET + slot * USED_ELEM_SIZE, USED_ELEM_SIZE);
    MeetsMore(trail.writes, ring);
    MeetsMore(trail.writes + [ring], Written(logGuestAddr + USED_IDX_OFFSET, USED_IDX_SIZE));
    assert trail.writes + [ring] + [] == trail.writes + [ring];
  }
}
