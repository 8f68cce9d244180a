// Gathering: a descriptor chain, direct or indirect, becomes two scatter lists of host memory.

module Chains {
  import opened Words
  import opened Regions

  const DESC_SIZE := 16

  datatype Desc = Desc(addr: U64, len: U32, hasNext: bool, isWrite: bool, isIndirect: bool, nextIdx: U16)

  /** Where a descriptor table lies: the ring's own, or an indirect one at a host address. */
  datatype Table = Ring | At(va: nat)

  /** Guest memory as the device reads it. The driver may write between any two reads, so what a read
      returns may depend on the number of reads before it. */
  type Memory = (nat, Table, nat) -> Desc

  datatype Reason =
    | ZeroSized | TooMany | BadAddress | WrongOrder | Looped | BadNext | BadTableSize | BadTable

  datatype Mapping = Pieces(list: seq<Piece>) | Bad(why: Reason)

  /** `Bounced` marks the copy of an indirect table that straddles regions, which is not modelled. */
  datatype Outcome = Gathered(outSg: seq<Piece>, inSg: seq<Piece>) | Refused(why: Reason) | Bounced

  /** The loop of `virtqueue_map_desc`: one piece per region met, at most `room` of them. */
  function MapRange(regions: seq<Region>, room: nat, pa: U64, sz: U32): Mapping
    decreases sz
  {
    if sz == 0 then Pieces([])
    else if room == 0 then Bad(TooMany)
    else
      match Translate(regions, pa, sz)
      case None => Bad(BadAddress)
      case Some(p) =>
        match MapRange(regions, room - 1, Low64(pa + p.len), sz - p.len)
        case Pieces(rest) => Pieces([p] + rest)
        case Bad(w) => Bad(w)
  }

  function MapBuffer(regions: seq<Region>, room: nat, pa: U64, sz: U32): Mapping {
    if sz == 0 then Bad(ZeroSized) else MapRange(regions, room, pa, sz)
  }

  /** The body of the chain loop: map one descriptor behind what is already mapped. */
  function AddOne(regions: seq<Region>, mem: Memory, t: nat, tab: Table, i: nat,
                  outSg: seq<Piece>, inSg: seq<Piece>): Outcome
    requires |outSg| + |inSg| <= VIRTQUEUE_MAX_SIZE
  {
    if mem(t, tab, i).isWrite then
      match MapBuffer(regions, VIRTQUEUE_MAX_SIZE - |outSg| - |inSg|, mem(t + 1, tab, i).addr, mem(t + 2, tab, i).len)
      case Pieces(ps) => Gathered(outSg, inSg + ps)
      case Bad(w) => Refused(w)
    else if inSg != [] then Refused(WrongOrder)
    else
      match MapBuffer(regions, VIRTQUEUE_MAX_SIZE - |outSg|, mem(t + 1, tab, i).addr, mem(t + 2, tab, i).len)
      case Pieces(ps) => Gathered(outSg + ps, inSg)
      case Bad(w) => Refused(w)
  }

  /** A mapped range uses between one piece and all the room there is. */
  lemma {:induction false} MapRangeSize(regions: seq<Region>, room: nat, pa: U64, sz: U32)
    requires MapRange(regions, room, pa, sz).Pieces?
    ensures |MapRange(regions, room, pa, sz).list| <= room
    ensures sz > 0 ==> |MapRange(regions, room, pa, sz).list| > 0
    decreases sz
  {
    if sz > 0 {
      var p := Translate(regions, pa, sz).value;
      MapRangeSize(regions, room - 1, Low64(pa + p.len), sz - p.len);
    }
  }

  /** Each successful iteration adds at least one piece and never leaves the array. */
  lemma AddOneProgress(regions: seq<Region>, mem: Memory, t: nat, tab: Table, i: nat,
                       outSg: seq<Piece>, inSg: seq<Piece>)
    requires |outSg| + |inSg| <= VIRTQUEUE_MAX_SIZE
    requires AddOne(regions, mem, t, tab, i, outSg, inSg).Gathered?
    ensures var r := AddOne(regions, mem, t, tab, i, outSg, inSg);
            |outSg| + |inSg| < |r.outSg| + |r.inSg| <= VIRTQUEUE_MAX_SIZE
  {
    MapRangeSize(regions, VIRTQUEUE_MAX_SIZE - |outSg| - |inSg|, mem(t + 1, tab, i).addr, mem(t + 2, tab, i).len);
  }

  /** The chain loop of `vu_queue_map_desc`. It terminates whatever memory returns, because every
      iteration but the last adds a piece and more than `max` pieces are refused. */
  function Walk(regions: seq<Region>, mem: Memory, t: nat, tab: Table, i: nat, max: nat,
                outSg: seq<Piece>, inSg: seq<Piece>): Outcome
    requires |outSg| + |inSg| <= VIRTQUEUE_MAX_SIZE && |outSg| + |inSg| <= max
    decreases max - |outSg| - |inSg|
  {
    var r := AddOne(regions, mem, t, tab, i, outSg, inSg);
    if !r.Gathered? then r
    else if |r.outSg| + |r.inSg| > max then Refused(Looped)
    else if !mem(t + 3, tab, i).hasNext then r
    else if mem(t + 4, tab, i).nextIdx >= max then Refused(BadNext)
    else
      AddOneProgress(regions, mem, t, tab, i, outSg, inSg);
      Walk(regions, mem, t + 5, tab, mem(t + 4, tab, i).nextIdx, max, r.outSg, r.inSg)
  }

  /** The number of iterations of that loop. */
  function Iterations(regions: seq<Region>, mem: Memory, t: nat, tab: Table, i: nat, max: nat,
                      outSg: seq<Piece>, inSg: seq<Piece>): nat
    requires |outSg| + |inSg| <= VIRTQUEUE_MAX_SIZE && |outSg| + |inSg| <= max
    decreases max - |outSg| - |inSg|
  {
    var r := AddOne(regions, mem, t, tab, i, outSg, inSg);
    if !r.Gathered? || |r.outSg| + |r.inSg| > max || !mem(t + 3, tab, i).hasNext
       || mem(t + 4, tab, i).nextIdx >= max then 1
    else
      AddOneProgress(regions, mem, t, tab, i, outSg, inSg);
      1 + Iterations(regions, mem, t + 5, tab, mem(t + 4, tab, i).nextIdx, max, r.outSg, r.inSg)
  }

  /** For any memory, changing at will: at most `max + 1` iterations, and at most VIRTQUEUE_MAX_SIZE of
      them, plus the one that is refused. */
  lemma {:induction false} WalkBounded(regions: seq<Region>, mem: Memory, t: nat, tab: Table, i: nat, max: nat,
                                       outSg: seq<Piece>, inSg: seq<Piece>)
    requires |outSg| + |inSg| <= VIRTQUEUE_MAX_SIZE && |outSg| + |inSg| <= max
    ensures Iterations(regions, mem, t, tab, i, max, outSg, inSg) <= max + 1 - |outSg| - |inSg|
    ensures Iterations(regions, mem, t, tab, i, max, outSg, inSg) <= VIRTQUEUE_MAX_SIZE + 1 - |outSg| - |inSg|
    ensures var r := Walk(regions, mem, t, tab, i, max, outSg, inSg);
            r.Gathered? ==> |r.outSg| + |r.inSg| <= 1024 && |r.outSg| + |r.inSg| <= max
    decreases max - |outSg| - |inSg|
  {
    var r := AddOne(regions, mem, t, tab, i, outSg, inSg);
    if r.Gathered? {
      AddOneProgress(regions, mem, t, tab, i, outSg, inSg);
      if |r.outSg| + |r.inSg| <= max && mem(t + 3, tab, i).hasNext && mem(t + 4, tab, i).nextIdx < max {
        WalkBounded(regions, mem, t + 5, tab, mem(t + 4, tab, i).nextIdx, max, r.outSg, r.inSg);
      }
    }
  }

  /** Which table a head leads to, from where and with how many entries. */
  datatype Start = Begin(t: nat, tab: Table, i: nat, max: nat) | NoStart(r: Outcome)

  function Locate(regions: seq<Region>, mem: Memory, idx: nat, num: nat): Start {
    if !mem(0, Ring, idx).isIndirect then Begin(1, Ring, idx, num)
    else if mem(1, Ring, idx).len % DESC_SIZE != 0 then NoStart(Refused(BadTableSize))
    else
      var len := mem(3, Ring, idx).len;
      match Translate(regions, mem(2, Ring, idx).addr, len)
      case None => NoStart(Refused(BadTable))
      case Some(p) => if p.len != len then NoStart(Bounced) else Begin(4, At(p.va), 0, len / DESC_SIZE)
  }

  /** `vu_queue_map_desc`. */
  function QueueMap(regions: seq<Region>, mem: Memory, idx: nat, num: nat): Outcome {
    match Locate(regions, mem, idx, num)
    case NoStart(r) => r
    case Begin(t, tab, i, max) => Walk(regions, mem, t, tab, i, max, [], [])
  }

  // ---- The loops, in place ------------------------------------------------------------------------

  /** `virtqueue_map_desc`: fills `iov` from `start + numSg` on. */
  method VirtqueueMapDesc(table: RegionTable, iov: array<Piece>, start: nat, numSg: nat, maxNumSg: nat,
                          pa: U64, sz: U32)
      returns (why: Option<Reason>, n: nat)
    requires table.Valid() && numSg <= maxNumSg && start + maxNumSg <= iov.Length
    modifies iov
    ensures iov[..start + numSg] == old(iov[..start + numSg])
    ensures match MapBuffer(table.Live(), maxNumSg - numSg, pa, sz)
            case Pieces(ps) => why == None && n == numSg + |ps| <= maxNumSg && iov[start + numSg..start + n] == ps
            case Bad(w) => why == Some(w) && n == numSg
  {
    hide MapRange, Translate;
    n := numSg;
    if sz == 0 {
      return Some(ZeroSized), numSg;
    }
    ghost var whole := MapRange(table.Live(), maxNumSg - numSg, pa, sz);
    var left: U32 := sz;
    var addr: U64 := pa;
    while left != 0
      invariant numSg <= n <= maxNumSg
      invariant iov[..start + numSg] == old(iov[..start + numSg])
      invariant whole == Behind(iov[start + numSg..start + n], MapRange(table.Live(), maxNumSg - n, addr, left))
      decreases left
    {
      MapRangeStep(table.Live(), iov[start + numSg..start + n], maxNumSg - n, addr, left);
      if n == maxNumSg {
        return Some(TooMany), numSg;
      }
      var va, len := table.GpaToVa(left, addr);
      if va == None {
        return Some(BadAddress), numSg;
      }
      ghost var filled := iov[start + numSg..start + n];
      iov[start + n] := Piece(va.value, len);
      assert iov[start + numSg..start + n + 1] == filled + [Piece(va.value, len)];
      n := n + 1;
      left := left - len;
      addr := Low64(addr as int + len);
    }
    MapRangeDone(table.Live(), maxNumSg - n, addr);
    return None, n;
  }

  function Behind(done: seq<Piece>, m: Mapping): Mapping {
    match m
    case Pieces(rest) => Pieces(done + rest)
    case Bad(w) => Bad(w)
  }

  lemma MapRangeDone(regions: seq<Region>, room: nat, pa: U64)
    ensures MapRange(regions, room, pa, 0) == Pieces([])
  {
  }

  lemma MapRangeStep(regions: seq<Region>, done: seq<Piece>, room: nat, pa: U64, sz: U32)
    requires sz > 0
    ensures room == 0 ==> MapRange(regions, room, pa, sz) == Bad(TooMany)
    ensures room > 0 && Translate(regions, pa, sz).None? ==> MapRange(regions, room, pa, sz) == Bad(BadAddress)
    ensures room > 0 && Translate(regions, pa, sz).Some? ==>
      var p := Translate(regions, pa, sz).value;
      Behind(done, MapRange(regions, room, pa, sz))
        == Behind(done + [p], MapRange(regions, room - 1, Low64(pa + p.len), sz - p.len))
  {
    if room > 0 && Translate(regions, pa, sz).Some? {
      var p := Translate(regions, pa, sz).value;
      var m := MapRange(regions, room - 1, Low64(pa + p.len), sz - p.len);
      if m.Pieces? {
        assert done + ([p] + m.list) == (done + [p]) + m.list;
      }
    }
  }

  /** `vu_queue_map_desc`: `iov` holds the readable pieces first and the writable ones behind them. */
  method VuQueueMapDesc(table: RegionTable, mem: Memory, idx: nat, num: nat) returns (r: Outcome)
    requires table.Valid()
    ensures r == QueueMap(table.Live(), mem, idx, num)
  {
    hide Walk, Translate;
    var t: nat, tab, i: nat, max: nat := 1, Ring, idx, num;
    if mem(0, Ring, idx).isIndirect {
      if mem(1, Ring, idx).len % DESC_SIZE != 0 {
        return Refused(BadTableSize);
      }
      var len := mem(3, Ring, idx).len;
      var va, got := table.GpaToVa(len, mem(2, Ring, idx).addr);
      if va.None? {
        return Refused(BadTable);
      }
      if got != len {
        return Bounced;
      }
      t, tab, i, max := 4, At(va.value), 0, len / DESC_SIZE;
    }
    r := CollectChain(table, mem, t, tab, i, max);
  }

  /** The do-while loop over the chain and the copy into the element. */
  method CollectChain(table: RegionTable, mem: Memory, t0: nat, tab: Table, i0: nat, max: nat) returns (r: Outcome)
    requires table.Valid()
    ensures r == Walk(table.Live(), mem, t0, tab, i0, max, [], [])
  {
    hide Walk, AddOne, MapBuffer;
    var iov := new Piece[VIRTQUEUE_MAX_SIZE](_ => Piece(0, 0));
    ghost var regions := table.Live();
    var t: nat, i: nat, outNum: nat, inNum: nat := t0, i0, 0, 0;
    while true
      invariant outNum + inNum <= VIRTQUEUE_MAX_SIZE && outNum + inNum <= max
      invariant table.Live() == regions && fresh(iov)
      invariant Walk(regions, mem, t0, tab, i0, max, [], [])
             == Walk(regions, mem, t, tab, i, max, iov[..outNum], iov[outNum..outNum + inNum])
      decreases max - outNum - inNum
    {
      WalkStep(regions, mem, t, tab, i, max, iov[..outNum], iov[outNum..outNum + inNum]);
      var why: Option<Reason>;
      why, outNum, inNum := CollectOne(table, iov, mem, t, tab, i, outNum, inNum);
      if why.Some? {
        return Refused(why.value);
      }
      if inNum + outNum > max {
        return Refused(Looped);
      }
      if !mem(t + 3, tab, i).hasNext {
        return Gathered(iov[..outNum], iov[outNum..outNum + inNum]);
      }
      var next := mem(t + 4, tab, i).nextIdx;
      if next >= max {
        return Refused(BadNext);
      }
      t, i := t + 5, next;
    }
  }

  method CollectOne(table: RegionTable, iov: array<Piece>, mem: Memory, t: nat, tab: Table, i: nat, outNum: nat,
                    inNum: nat)
      returns (why: Option<Reason>, outNum': nat, inNum': nat)
    requires table.Valid() && outNum + inNum <= VIRTQUEUE_MAX_SIZE == iov.Length
    modifies iov
    ensures outNum' + inNum' <= VIRTQUEUE_MAX_SIZE
    ensures match AddOne(table.Live(), mem, t, tab, i, old(iov[..outNum]), old(iov[outNum..outNum + inNum]))
            case Gathered(o, n) => why == None && iov[..outNum'] == o && iov[outNum'..outNum' + inNum'] == n
            case Refused(w) => why == Some(w)
            case Bounced => false
    ensures why == None ==> outNum + inNum < outNum' + inNum'
  {
    hide MapBuffer, MapRange, Translate;
    outNum', inNum' := outNum, inNum;
    ghost var outSg, inSg := iov[..outNum], iov[outNum..outNum + inNum];
    if mem(t, tab, i).isWrite {
      why, inNum' := VirtqueueMapDesc(table, iov, outNum, inNum, VIRTQUEUE_MAX_SIZE - outNum,
                                      mem(t + 1, tab, i).addr, mem(t + 2, tab, i).len);
      assert iov[..outNum] == iov[..outNum + inNum][..outNum];
      assert iov[outNum..outNum + inNum] == iov[..outNum + inNum][outNum..];
      if why.None? {
        assert iov[outNum..outNum + inNum'] == inSg + iov[outNum + inNum..outNum + inNum'];
      }
    } else {
      if inNum > 0 {
        return Some(WrongOrder), outNum, inNum;
      }
      assert inSg == [];
      why, outNum' := VirtqueueMapDesc(table, iov, 0, outNum, VIRTQUEUE_MAX_SIZE,
                                       mem(t + 1, tab, i).addr, mem(t + 2, tab, i).len);
      if why.None? {
        assert iov[..outNum'] == outSg + iov[outNum..outNum'];
      }
    }
    if why.None? {
      AddOneProgress(table.Live(), mem, t, tab, i, outSg, inSg);
    }
  }

  lemma WalkStep(regions: seq<Region>, mem: Memory, t: nat, tab: Table, i: nat, max: nat,
                 outSg: seq<Piece>, inSg: seq<Piece>)
    requires |outSg| + |inSg| <= VIRTQUEUE_MAX_SIZE && |outSg| + |inSg| <= max
    ensures var r := AddOne(regions, mem, t, tab, i, outSg, inSg);
            var w := Walk(regions, mem, t, tab, i, max, outSg, inSg);
            if !r.Gathered? then w == r
            else if |r.outSg| + |r.inSg| > max then w == Refused(Looped)
            else if !mem(t + 3, tab, i).hasNext then w == r
            else if mem(t + 4, tab, i).nextIdx >= max then w == Refused(BadNext)
            else
              |outSg| + |inSg| < |r.outSg| + |r.inSg| <= VIRTQUEUE_MAX_SIZE
              && w == Walk(regions, mem, t + 5, tab, mem(t + 4, tab, i).nextIdx, max, r.outSg, r.inSg)
  {
    var r := AddOne(regions, mem, t, tab, i, outSg, inSg);
    if r.Gathered? {
      AddOneProgress(regions, mem, t, tab, i, outSg, inSg);
    }
  }
}
