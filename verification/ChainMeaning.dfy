// What gathering means when the table stays as it is: which bytes the scatter lists stand for, in
// which order, and exactly which chains are accepted.

module ChainMeaning {
  import opened Words
  import opened Regions
  import opened Chains

  /** The driver leaves the descriptors alone while the device walks them. */
  ghost predicate Frozen(mem: Memory) {
    forall s: nat, t: nat, tab: Table, i: nat {:trigger mem(s, tab, i), mem(t, tab, i)} ::
      mem(s, tab, i) == mem(t, tab, i)
  }

  function At0(mem: Memory, tab: Table, i: nat): Desc {
    mem(0, tab, i)
  }

  /** `path` is the whole chain from entry `i`: each index names the next, the last names none. */
  ghost predicate Chain(mem: Memory, tab: Table, max: nat, i: nat, path: seq<nat>)
    decreases |path|
  {
    && path != [] && path[0] == i
    && (if At0(mem, tab, i).hasNext
        then At0(mem, tab, i).nextIdx < max && Chain(mem, tab, max, At0(mem, tab, i).nextIdx, path[1..])
        else |path| == 1)
  }

  /** No buffer of the chain wraps the 64-bit guest space. */
  ghost predicate NoWrap(mem: Memory, tab: Table, path: seq<nat>) {
    forall k :: 0 <= k < |path| ==> At0(mem, tab, path[k]).addr + At0(mem, tab, path[k]).len < WORD64
  }

  /** Writable buffers come after all readable ones. */
  ghost predicate ReadablesFirst(mem: Memory, tab: Table, path: seq<nat>) {
    forall j, k :: 0 <= j < k < |path| && At0(mem, tab, path[j]).isWrite ==> At0(mem, tab, path[k]).isWrite
  }

  ghost predicate AllWritable(mem: Memory, tab: Table, path: seq<nat>) {
    forall k :: 0 <= k < |path| ==> At0(mem, tab, path[k]).isWrite
  }

  /** The consecutive addresses `addr, addr + 1, ..`. */
  function Span(addr: nat, len: nat): (s: seq<nat>)
    ensures |s| == len && forall k :: 0 <= k < len ==> s[k] == addr + k
  {
    seq(len, k => addr + k)
  }

  /** The guest bytes of the chain's buffers of one direction, in chain order. */
  function BufferAddrs(mem: Memory, tab: Table, path: seq<nat>, write: bool): seq<nat> {
    if path == [] then []
    else
      (if At0(mem, tab, path[0]).isWrite == write
       then Span(At0(mem, tab, path[0]).addr, At0(mem, tab, path[0]).len) else [])
      + BufferAddrs(mem, tab, path[1..], write)
  }

  /** The host bytes of a scatter list, in order. */
  function HostBytes(ps: seq<Piece>): seq<nat> {
    if ps == [] then [] else Span(ps[0].va, ps[0].len) + HostBytes(ps[1..])
  }

  /** Byte k of the list is the translation of guest byte k, and every piece is in one region. */
  ghost predicate Means(regions: seq<Region>, ps: seq<Piece>, addrs: seq<nat>) {
    && |HostBytes(ps)| == |addrs|
    && (forall k :: 0 <= k < |addrs| ==> Byte(regions, addrs[k]) == Some(HostBytes(ps)[k]))
    && (forall k :: 0 <= k < |ps| ==> InsideOne(regions, ps[k]))
  }

  lemma {:induction false} HostBytesConcat(a: seq<Piece>, b: seq<Piece>)
    ensures HostBytes(a + b) == HostBytes(a) + HostBytes(b)
  {
    if a == [] {
      assert a + b == b;
    } else {
      assert (a + b)[1..] == a[1..] + b;
      HostBytesConcat(a[1..], b);
    }
  }

  lemma MeansConcat(regions: seq<Region>, a: seq<Piece>, x: seq<nat>, b: seq<Piece>, y: seq<nat>)
    requires Means(regions, a, x) && Means(regions, b, y)
    ensures Means(regions, a + b, x + y)
  {
    hide Byte, HostBytes, InsideOne;
    HostBytesConcat(a, b);
    var h, g := HostBytes(a), HostBytes(b);
    forall k | 0 <= k < |x + y| ensures Byte(regions, (x + y)[k]) == Some((h + g)[k]) {
      assert k < |x| ==> (x + y)[k] == x[k] && (h + g)[k] == h[k];
      assert k >= |x| ==> (x + y)[k] == y[k - |x|] && (h + g)[k] == g[k - |x|];
    }
    forall k | 0 <= k < |a + b| ensures InsideOne(regions, (a + b)[k]) {
      assert (a + b)[k] == if k < |a| then a[k] else b[k - |a|];
    }
  }

  lemma MeansNothing(regions: seq<Region>)
    ensures Means(regions, [], [])
  {
  }

  lemma MeansPiece(regions: seq<Region>, addr: U64, len: U64)
    requires Disjoint(regions) && Translate(regions, addr, len).Some? && addr + len < WORD64
    ensures var p := Translate(regions, addr, len).value;
            Means(regions, [p], Span(addr, p.len))
  {
    var p := Translate(regions, addr, len).value;
    TranslateExact(regions, addr, len);
    assert HostBytes([]) == [];
    assert HostBytes([p]) == Span(p.va, p.len);
    forall k | 0 <= k < p.len
      ensures Byte(regions, Span(addr, p.len)[k]) == Some(p.va + k)
    {
      assert addr <= addr + k < addr + p.len;
    }
  }

  /** The pieces of one buffer stand for its guest range, byte by byte. */
  lemma {:induction false} RangeMeans(regions: seq<Region>, room: nat, pa: U64, sz: U32)
    requires Disjoint(regions) && pa + sz < WORD64 && MapRange(regions, room, pa, sz).Pieces?
    ensures Means(regions, MapRange(regions, room, pa, sz).list, Span(pa, sz))
    decreases sz
  {
    hide Means;
    if sz == 0 {
      MeansNothing(regions);
      assert Span(pa, sz) == [];
    } else {
      var p := Translate(regions, pa, sz).value;
      MeansPiece(regions, pa, sz);
      assert Low64(pa + p.len) == pa + p.len;
      RangeMeans(regions, room - 1, pa + p.len, sz - p.len);
      var rest := MapRange(regions, room - 1, pa + p.len, sz - p.len).list;
      MeansConcat(regions, [p], Span(pa, p.len), rest, Span(pa + p.len, sz - p.len));
      assert Span(pa, sz) == Span(pa, p.len) + Span(pa + p.len, sz - p.len);
    }
  }

  // ---- A gathered chain ------------------------------------------------------------------------------

  /** A walk that succeeds followed a chain to its end. */
  lemma {:induction false} WalkFollowsChain(regions: seq<Region>, mem: Memory, t: nat, tab: Table, i: nat, max: nat,
                                            outSg: seq<Piece>, inSg: seq<Piece>) returns (path: seq<nat>)
    requires |outSg| + |inSg| <= VIRTQUEUE_MAX_SIZE && |outSg| + |inSg| <= max
    requires Frozen(mem) && Walk(regions, mem, t, tab, i, max, outSg, inSg).Gathered?
    ensures Chain(mem, tab, max, i, path)
    decreases max - |outSg| - |inSg|
  {
    hide AddOne;
    WalkStep(regions, mem, t, tab, i, max, outSg, inSg);
    var r := AddOne(regions, mem, t, tab, i, outSg, inSg);
    assert mem(t + 3, tab, i) == At0(mem, tab, i) && mem(t + 4, tab, i) == At0(mem, tab, i);
    if At0(mem, tab, i).hasNext {
      var rest := WalkFollowsChain(regions, mem, t + 5, tab, At0(mem, tab, i).nextIdx, max, r.outSg, r.inSg);
      path := [i] + rest;
      assert path[1..] == rest;
    } else {
      path := [i];
    }
  }

  lemma {:induction false} ChainUnique(mem: Memory, tab: Table, max: nat, i: nat, p: seq<nat>, q: seq<nat>)
    requires Chain(mem, tab, max, i, p) && Chain(mem, tab, max, i, q)
    ensures p == q
    decreases |p|
  {
    assert p == [p[0]] + p[1..] && q == [q[0]] + q[1..];
    if At0(mem, tab, i).hasNext {
      ChainUnique(mem, tab, max, At0(mem, tab, i).nextIdx, p[1..], q[1..]);
    }
  }

  /** One descriptor of a frozen table: what is added and that it keeps the order. */
  lemma AddOneMeans(regions: seq<Region>, mem: Memory, t: nat, tab: Table, i: nat,
                    outSg: seq<Piece>, inSg: seq<Piece>, readable: seq<nat>, writable: seq<nat>)
    requires |outSg| + |inSg| <= VIRTQUEUE_MAX_SIZE
    requires Frozen(mem) && Disjoint(regions) && NoWrap(mem, tab, [i])
    requires AddOne(regions, mem, t, tab, i, outSg, inSg).Gathered?
    requires Means(regions, outSg, readable) && Means(regions, inSg, writable)
    ensures var r := AddOne(regions, mem, t, tab, i, outSg, inSg);
            Means(regions, r.outSg, readable + BufferAddrs(mem, tab, [i], false))
            && Means(regions, r.inSg, writable + BufferAddrs(mem, tab, [i], true))
  {
    hide Means, Byte, Translate, MapRange;
    var d := At0(mem, tab, i);
    assert d == [d][0];
    assert mem(t, tab, i) == d && mem(t + 1, tab, i) == d && mem(t + 2, tab, i) == d;
    OneBuffer(mem, tab, i);
    assert [i][0] == i;
    var room := VIRTQUEUE_MAX_SIZE - |outSg| - |inSg|;
    var ps := MapRange(regions, room, d.addr, d.len).list;
    RangeMeans(regions, room, d.addr, d.len);
    MapRangeSize(regions, room, d.addr, d.len);
    if d.isWrite {
      MeansConcat(regions, inSg, writable, ps, Span(d.addr, d.len));
      assert readable + [] == readable;
    } else {
      MeansConcat(regions, outSg, readable, ps, Span(d.addr, d.len));
      assert writable + [] == writable;
    }
  }

  lemma OneBuffer(mem: Memory, tab: Table, i: nat)
    ensures BufferAddrs(mem, tab, [i], true)
      == if At0(mem, tab, i).isWrite then Span(At0(mem, tab, i).addr, At0(mem, tab, i).len) else []
    ensures BufferAddrs(mem, tab, [i], false)
      == if At0(mem, tab, i).isWrite then [] else Span(At0(mem, tab, i).addr, At0(mem, tab, i).len)
  {
    assert [i][1..] == [];
  }

  lemma SplitAddrs(mem: Memory, tab: Table, path: seq<nat>, write: bool)
    requires path != []
    ensures BufferAddrs(mem, tab, path, write)
      == BufferAddrs(mem, tab, [path[0]], write) + BufferAddrs(mem, tab, path[1..], write)
  {
    OneBuffer(mem, tab, path[0]);
  }

  lemma AddOneOrder(regions: seq<Region>, mem: Memory, t: nat, tab: Table, i: nat,
                    outSg: seq<Piece>, inSg: seq<Piece>)
    requires |outSg| + |inSg| <= VIRTQUEUE_MAX_SIZE
    requires Frozen(mem) && AddOne(regions, mem, t, tab, i, outSg, inSg).Gathered?
    ensures At0(mem, tab, i).len > 0
    ensures inSg != [] ==> At0(mem, tab, i).isWrite
    ensures At0(mem, tab, i).isWrite <==> AddOne(regions, mem, t, tab, i, outSg, inSg).inSg != []
  {
    hide MapRange;
    var d := At0(mem, tab, i);
    assert mem(t, tab, i) == d && mem(t + 1, tab, i) == d && mem(t + 2, tab, i) == d;
    MapRangeSize(regions, VIRTQUEUE_MAX_SIZE - |outSg| - |inSg|, d.addr, d.len);
  }

  /** A gathered chain has no empty buffer and no readable one after a writable one. */
  lemma {:induction false} WalkOrdered(regions: seq<Region>, mem: Memory, t: nat, tab: Table, i: nat, max: nat,
                                       outSg: seq<Piece>, inSg: seq<Piece>, path: seq<nat>)
    requires |outSg| + |inSg| <= VIRTQUEUE_MAX_SIZE && |outSg| + |inSg| <= max
    requires Frozen(mem) && Chain(mem, tab, max, i, path)
    requires Walk(regions, mem, t, tab, i, max, outSg, inSg).Gathered?
    ensures ReadablesFirst(mem, tab, path) && (inSg != [] ==> AllWritable(mem, tab, path))
    ensures forall k :: 0 <= k < |path| ==> At0(mem, tab, path[k]).len > 0
    decreases max - |outSg| - |inSg|
  {
    hide AddOne, Walk, ReadablesFirst, AllWritable;
    WalkStep(regions, mem, t, tab, i, max, outSg, inSg);
    var r := AddOne(regions, mem, t, tab, i, outSg, inSg);
    var d := At0(mem, tab, i);
    assert mem(t + 3, tab, i) == d && mem(t + 4, tab, i) == d;
    AddOneOrder(regions, mem, t, tab, i, outSg, inSg);
    OrderFromParts(mem, tab, path);
    assert path == [i] + path[1..];
    if d.hasNext {
      WalkOrdered(regions, mem, t + 5, tab, d.nextIdx, max, r.outSg, r.inSg, path[1..]);
    } else {
      NothingOrdered(mem, tab);
    }
  }

  lemma NothingOrdered(mem: Memory, tab: Table)
    ensures ReadablesFirst(mem, tab, []) && AllWritable(mem, tab, [])
  {
  }

  /** Gathering preserves meaning: the two lists stand for the readable and the writable bytes of the
      chain, in chain order. */
  lemma {:induction false} WalkMeans(regions: seq<Region>, mem: Memory, t: nat, tab: Table, i: nat, max: nat,
                                     outSg: seq<Piece>, inSg: seq<Piece>, readable: seq<nat>, writable: seq<nat>,
                                     path: seq<nat>)
    requires |outSg| + |inSg| <= VIRTQUEUE_MAX_SIZE && |outSg| + |inSg| <= max
    requires Frozen(mem) && Disjoint(regions) && Chain(mem, tab, max, i, path) && NoWrap(mem, tab, path)
    requires Walk(regions, mem, t, tab, i, max, outSg, inSg).Gathered?
    requires Means(regions, outSg, readable) && Means(regions, inSg, writable)
    ensures var r := Walk(regions, mem, t, tab, i, max, outSg, inSg);
            Means(regions, r.outSg, readable + BufferAddrs(mem, tab, path, false))
            && Means(regions, r.inSg, writable + BufferAddrs(mem, tab, path, true))
    decreases max - |outSg| - |inSg|
  {
    hide Means, AddOne, Walk, Disjoint, BufferAddrs;
    WalkStep(regions, mem, t, tab, i, max, outSg, inSg);
    var r := AddOne(regions, mem, t, tab, i, outSg, inSg);
    var d := At0(mem, tab, i);
    assert mem(t + 3, tab, i) == d && mem(t + 4, tab, i) == d;
    assert [i] == path[..1];
    AddOneMeans(regions, mem, t, tab, i, outSg, inSg, readable, writable);
    RegroupAddrs(mem, tab, path, readable, false);
    RegroupAddrs(mem, tab, path, writable, true);
    if d.hasNext {
      NoWrapTail(mem, tab, path);
      WalkMeans(regions, mem, t + 5, tab, d.nextIdx, max, r.outSg, r.inSg,
                readable + BufferAddrs(mem, tab, [i], false), writable + BufferAddrs(mem, tab, [i], true), path[1..]);
    } else {
      assert path == [i];
    }
  }

  lemma RegroupAddrs(mem: Memory, tab: Table, path: seq<nat>, before: seq<nat>, write: bool)
    requires path != []
    ensures before + BufferAddrs(mem, tab, path, write)
      == (before + BufferAddrs(mem, tab, [path[0]], write)) + BufferAddrs(mem, tab, path[1..], write)
  {
    SplitAddrs(mem, tab, path, write);
  }

  lemma NoWrapTail(mem: Memory, tab: Table, path: seq<nat>)
    requires path != [] && NoWrap(mem, tab, path)
    ensures NoWrap(mem, tab, path[1..])
  {
  }

  lemma OrderFromParts(mem: Memory, tab: Table, path: seq<nat>)
    requires path != []
    ensures ReadablesFirst(mem, tab, path) <==>
      (ReadablesFirst(mem, tab, path[1..])
       && (At0(mem, tab, path[0]).isWrite ==> AllWritable(mem, tab, path[1..])))
    ensures AllWritable(mem, tab, path) <==>
      (At0(mem, tab, path[0]).isWrite && AllWritable(mem, tab, path[1..]))
  {
    assert path == [path[0]] + path[1..];
    if At0(mem, tab, path[0]).isWrite && ReadablesFirst(mem, tab, path) {
      forall k | 0 <= k < |path[1..]| ensures At0(mem, tab, path[1..][k]).isWrite {
        assert path[1..][k] == path[k + 1];
      }
    }
    if ReadablesFirst(mem, tab, path) {
      forall j, k | 0 <= j < k < |path[1..]| && At0(mem, tab, path[1..][j]).isWrite
        ensures At0(mem, tab, path[1..][k]).isWrite
      {
        assert path[1..][j] == path[j + 1] && path[1..][k] == path[k + 1];
      }
    }
  }

  // ---- Exactly which chains are accepted ---------------------------------------------------------------

  /** Every byte of the range is in some region. */
  ghost predicate AllMapped(regions: seq<Region>, addr: nat, len: nat) {
    forall a :: addr <= a < addr + len ==> Byte(regions, a).Some?
  }

  /** What the device asks of a buffer's addresses: that all be mapped; but of one that reaches the end of the
      64-bit space only that the first be. */
  ghost predicate Passes(regions: seq<Region>, addr: nat, len: nat) {
    if addr + len < WORD64 then AllMapped(regions, addr, len) else Byte(regions, addr).Some?
  }

  /** The pieces a buffer is cut into: one, and one more for every region boundary inside it. */
  ghost function Cuts(regions: seq<Region>, addr: U64, len: U32): nat
    decreases len
  {
    if len == 0 || Translate(regions, addr, len).None? then 0
    else
      var p := Translate(regions, addr, len).value;
      1 + Cuts(regions, Low64(addr + p.len), len - p.len)
  }

  ghost function TotalCuts(regions: seq<Region>, mem: Memory, tab: Table, path: seq<nat>): nat {
    if path == [] then 0
    else Cuts(regions, At0(mem, tab, path[0]).addr, At0(mem, tab, path[0]).len)
         + TotalCuts(regions, mem, tab, path[1..])
  }

  /** A range that wraps is mapped as one piece as soon as its first byte is, and that piece leaves the region
      it starts in. */
  lemma WrappedRangeAccepted(regions: seq<Region>, room: nat, pa: U64, sz: U32)
    requires 0 < sz && WORD64 <= pa + sz
    ensures MapRange(regions, room, pa, sz).Pieces? <==> 0 < room && Byte(regions, pa).Some?
    ensures MapRange(regions, room, pa, sz).Pieces? ==>
      MapRange(regions, room, pa, sz).list == [Piece(Byte(regions, pa).value, sz)]
    ensures Cuts(regions, pa, sz) == if Byte(regions, pa).Some? then 1 else 0
    ensures forall i :: 0 <= i < |regions| && regions[i].Holds(pa) ==> regions[i].gpa + regions[i].size < pa + sz
  {
    hide Byte, Translate;
    TranslateFinds(regions, pa, sz);
    if Translate(regions, pa, sz).Some? {
      var i := TranslateRegion(regions, pa, sz);
      ByteFromFirst(regions, i, pa);
      assert Translate(regions, pa, sz) == Some(Piece(Byte(regions, pa).value, sz));
    }
  }

  /** A range is mapped exactly when it passes and its pieces fit; it then has one per cut. */
  lemma {:induction false} RangeAccepted(regions: seq<Region>, room: nat, pa: U64, sz: U32)
    requires Disjoint(regions)
    ensures MapRange(regions, room, pa, sz).Pieces? <==> Passes(regions, pa, sz) && Cuts(regions, pa, sz) <= room
    ensures MapRange(regions, room, pa, sz).Pieces? ==> |MapRange(regions, room, pa, sz).list| == Cuts(regions, pa, sz)
    decreases sz
  {
    hide Byte, Translate, Disjoint;
    if sz > 0 && WORD64 <= pa + sz {
      WrappedRangeAccepted(regions, room, pa, sz);
    } else if sz > 0 {
      TranslateFinds(regions, pa, sz);
      if Translate(regions, pa, sz).None? {
        assert !AllMapped(regions, pa, sz);
      } else {
        var p := Translate(regions, pa, sz).value;
        TranslateExact(regions, pa, sz);
        assert Low64(pa + p.len) == pa + p.len;
        MappedSplits(regions, pa, sz, p);
        if room > 0 {
          RangeAccepted(regions, room - 1, pa + p.len, sz - p.len);
        }
      }
    }
  }

  lemma MappedSplits(regions: seq<Region>, pa: nat, sz: nat, p: Piece)
    requires PieceMeans(regions, pa, p) && p.len <= sz
    ensures AllMapped(regions, pa, sz) <==> AllMapped(regions, pa + p.len, sz - p.len)
  {
  }

  /** What the device asks of a chain, stated on the chain alone. */
  ghost predicate Acceptable(regions: seq<Region>, mem: Memory, tab: Table, max: nat, path: seq<nat>, used: nat) {
    && ReadablesFirst(mem, tab, path)
    && (forall k :: 0 <= k < |path| ==>
          At0(mem, tab, path[k]).len > 0 && Passes(regions, At0(mem, tab, path[k]).addr, At0(mem, tab, path[k]).len))
    && used + TotalCuts(regions, mem, tab, path) <= VIRTQUEUE_MAX_SIZE
    && used + TotalCuts(regions, mem, tab, path) <= max
  }

  lemma AddOneAccepted(regions: seq<Region>, mem: Memory, t: nat, tab: Table, i: nat,
                       outSg: seq<Piece>, inSg: seq<Piece>)
    requires |outSg| + |inSg| <= VIRTQUEUE_MAX_SIZE
    requires Frozen(mem) && Disjoint(regions)
    ensures var d := At0(mem, tab, i);
            var r := AddOne(regions, mem, t, tab, i, outSg, inSg);
            (r.Gathered? <==>
              (inSg != [] ==> d.isWrite) && d.len > 0 && Passes(regions, d.addr, d.len)
              && |outSg| + |inSg| + Cuts(regions, d.addr, d.len) <= VIRTQUEUE_MAX_SIZE)
            && (r.Gathered? ==> |r.outSg| + |r.inSg| == |outSg| + |inSg| + Cuts(regions, d.addr, d.len))
  {
    hide MapRange, Cuts, Passes, Disjoint;
    var d := At0(mem, tab, i);
    assert mem(t, tab, i) == d && mem(t + 1, tab, i) == d && mem(t + 2, tab, i) == d;
    RangeAccepted(regions, VIRTQUEUE_MAX_SIZE - |outSg| - |inSg|, d.addr, d.len);
  }

  /** The walk succeeds exactly on the chains that are acceptable. */
  lemma {:induction false} WalkAccepts(regions: seq<Region>, mem: Memory, t: nat, tab: Table, i: nat, max: nat,
                                       outSg: seq<Piece>, inSg: seq<Piece>, path: seq<nat>)
    requires |outSg| + |inSg| <= VIRTQUEUE_MAX_SIZE && |outSg| + |inSg| <= max
    requires Frozen(mem) && Disjoint(regions) && Chain(mem, tab, max, i, path)
    ensures Walk(regions, mem, t, tab, i, max, outSg, inSg).Gathered? <==>
      (inSg != [] ==> AllWritable(mem, tab, path))
      && Acceptable(regions, mem, tab, max, path, |outSg| + |inSg|)
    decreases max - |outSg| - |inSg|
  {
    hide AddOne, Walk, ReadablesFirst, AllWritable, Disjoint, Passes, Cuts;
    WalkStep(regions, mem, t, tab, i, max, outSg, inSg);
    var r := AddOne(regions, mem, t, tab, i, outSg, inSg);
    var d := At0(mem, tab, i);
    assert mem(t + 3, tab, i) == d && mem(t + 4, tab, i) == d;
    AddOneAccepted(regions, mem, t, tab, i, outSg, inSg);
    if r.Gathered? {
      AddOneOrder(regions, mem, t, tab, i, outSg, inSg);
    }
    OrderFromParts(mem, tab, path);
    AcceptableParts(regions, mem, tab, max, path, |outSg| + |inSg|);
    if r.Gathered? && |r.outSg| + |r.inSg| <= max && d.hasNext {
      WalkAccepts(regions, mem, t + 5, tab, d.nextIdx, max, r.outSg, r.inSg, path[1..]);
    } else if !d.hasNext {
      assert path[1..] == [];
      NothingOrdered(mem, tab);
    }
  }

  /** Acceptance of a chain from its first descriptor and the rest. */
  lemma AcceptableParts(regions: seq<Region>, mem: Memory, tab: Table, max: nat, path: seq<nat>, used: nat)
    requires path != []
    ensures var d := At0(mem, tab, path[0]);
            var now := used + Cuts(regions, d.addr, d.len);
            Acceptable(regions, mem, tab, max, path, used) <==>
              (d.isWrite ==> AllWritable(mem, tab, path[1..])) && d.len > 0 && Passes(regions, d.addr, d.len)
              && now <= VIRTQUEUE_MAX_SIZE && now <= max
              && Acceptable(regions, mem, tab, max, path[1..], now)
  {
    hide ReadablesFirst, AllWritable, Passes, Cuts;
    OrderFromParts(mem, tab, path);
    assert path == [path[0]] + path[1..];
    if Acceptable(regions, mem, tab, max, path, used) {
      forall k | 0 <= k < |path[1..]|
        ensures At0(mem, tab, path[1..][k]).len > 0
        ensures Passes(regions, At0(mem, tab, path[1..][k]).addr, At0(mem, tab, path[1..][k]).len)
      {
        assert path[1..][k] == path[k + 1];
      }
    }
  }

  // ---- Where a head leads ------------------------------------------------------------------------------

  /** The whole table `[addr, addr + len)` of guest memory lies in one region, which maps it at `va`; of a range
      that wraps the guest space only the start has to. */
  ghost predicate TableAt(regions: seq<Region>, addr: nat, len: nat, va: nat) {
    && 0 < len && Byte(regions, addr) == Some(va)
    && forall i :: 0 <= i < |regions| && regions[i].Holds(addr) && addr + len < WORD64
         ==> addr + len <= regions[i].gpa + regions[i].size
  }

  /** The table, first entry and number of entries of the chain that a head stands for: the ring's own, or all
      of an indirect table from its beginning. */
  ghost predicate LeadsTo(regions: seq<Region>, mem: Memory, head: nat, num: nat, tab: Table, i: nat, max: nat) {
    var d := At0(mem, Ring, head);
    if !d.isIndirect then tab == Ring && i == head && max == num
    else
      && d.len % 16 == 0 && i == 0 && max == d.len / 16
      && tab.At? && TableAt(regions, d.addr, d.len, tab.va)
  }

  /** The code finds exactly that table, and tells the ways in which there is none apart. */
  lemma LocateExact(regions: seq<Region>, mem: Memory, head: nat, num: nat, tab: Table, i: nat, max: nat)
    requires Frozen(mem) && Disjoint(regions)
    ensures var s := Locate(regions, mem, head, num);
            var d := At0(mem, Ring, head);
            && (LeadsTo(regions, mem, head, num, tab, i, max) <==> s.Begin? && s.tab == tab && s.i == i && s.max == max)
            && (s == NoStart(Refused(BadTableSize)) <==> d.isIndirect && d.len % 16 != 0)
            && (s == NoStart(Refused(BadTable)) <==>
                  d.isIndirect && d.len % 16 == 0 && (d.len == 0 || Byte(regions, d.addr) == None))
            && (s == NoStart(Bounced) <==>
                  && d.isIndirect && d.len % 16 == 0 && d.len > 0 && Byte(regions, d.addr).Some?
                  && !TableAt(regions, d.addr, d.len, Byte(regions, d.addr).value))
  {
    hide Byte, Translate, Disjoint;
    var d := At0(mem, Ring, head);
    assert mem(0, Ring, head) == d && mem(1, Ring, head) == d && mem(2, Ring, head) == d && mem(3, Ring, head) == d;
    if d.isIndirect && d.len % 16 == 0 {
      TranslateFinds(regions, d.addr, d.len);
      if Translate(regions, d.addr, d.len).Some? {
        var r := TranslateRegion(regions, d.addr, d.len);
        ByteFromFirst(regions, r, d.addr);
        OnlyOneHolds(regions, r, d.addr);
      }
    }
  }

  lemma OnlyOneHolds(regions: seq<Region>, r: nat, addr: nat)
    requires Disjoint(regions) && r < |regions| && regions[r].Holds(addr)
    ensures forall i :: 0 <= i < |regions| && regions[i].Holds(addr) ==> i == r
  {
  }

  // ---- vu_queue_map_desc as a whole ------------------------------------------------------------------

  lemma GatherLocated(regions: seq<Region>, mem: Memory, idx: nat, num: nat) returns (path: seq<nat>)
    requires Frozen(mem) && Disjoint(regions) && QueueMap(regions, mem, idx, num).Gathered?
    ensures var s := Locate(regions, mem, idx, num);
            var r := QueueMap(regions, mem, idx, num);
            s.Begin? && Chain(mem, s.tab, s.max, s.i, path)
            && ReadablesFirst(mem, s.tab, path)
            && (forall k :: 0 <= k < |path| ==> At0(mem, s.tab, path[k]).len > 0)
            && |path| <= |r.outSg| + |r.inSg| <= VIRTQUEUE_MAX_SIZE
            && |r.outSg| + |r.inSg| <= s.max
            && (NoWrap(mem, s.tab, path) <==>
                  Means(regions, r.outSg, BufferAddrs(mem, s.tab, path, false))
                  && Means(regions, r.inSg, BufferAddrs(mem, s.tab, path, true)))
  {
    hide Walk, ReadablesFirst, Means, Disjoint, BufferAddrs, NoWrap;
    var s := Locate(regions, mem, idx, num);
    path := WalkFollowsChain(regions, mem, s.t, s.tab, s.i, s.max, [], []);
    WalkOrdered(regions, mem, s.t, s.tab, s.i, s.max, [], [], path);
    WalkBounded(regions, mem, s.t, s.tab, s.i, s.max, [], []);
    ChainNotLonger(regions, mem, s.t, s.tab, s.i, s.max, [], [], path);
    if NoWrap(mem, s.tab, path) {
      MeansNothing(regions);
      WalkMeans(regions, mem, s.t, s.tab, s.i, s.max, [], [], [], [], path);
      assert [] + BufferAddrs(mem, s.tab, path, false) == BufferAddrs(mem, s.tab, path, false);
      assert [] + BufferAddrs(mem, s.tab, path, true) == BufferAddrs(mem, s.tab, path, true);
    } else {
      var write, k := WrapShows(mem, s.tab, path);
      LastByteUnmapped(regions, BufferAddrs(mem, s.tab, path, write)[k]);
      NotMeant(regions, if write then QueueMap(regions, mem, idx, num).inSg else QueueMap(regions, mem, idx, num).outSg,
               BufferAddrs(mem, s.tab, path, write), k);
    }
  }

  lemma NotMeant(regions: seq<Region>, ps: seq<Piece>, addrs: seq<nat>, k: nat)
    requires k < |addrs| && Byte(regions, addrs[k]) == None
    ensures !Means(regions, ps, addrs)
  {
  }

  /** A buffer that reaches the end of the 64-bit space has an address there that no region can hold. */
  lemma WrapShows(mem: Memory, tab: Table, path: seq<nat>) returns (write: bool, k: nat)
    requires !NoWrap(mem, tab, path) && forall j :: 0 <= j < |path| ==> At0(mem, tab, path[j]).len > 0
    ensures k < |BufferAddrs(mem, tab, path, write)| && BufferAddrs(mem, tab, path, write)[k] >= WORD64 - 1
    decreases |path|
  {
    var d := At0(mem, tab, path[0]);
    if d.addr + d.len >= WORD64 {
      write, k := d.isWrite, d.len - 1;
    } else {
      RestWraps(mem, tab, path);
      write, k := WrapShows(mem, tab, path[1..]);
      if d.isWrite == write {
        k := k + d.len;
      }
    }
  }

  lemma RestWraps(mem: Memory, tab: Table, path: seq<nat>)
    requires !NoWrap(mem, tab, path) && At0(mem, tab, path[0]).addr + At0(mem, tab, path[0]).len < WORD64
    ensures !NoWrap(mem, tab, path[1..])
  {
    var k :| 0 <= k < |path| && At0(mem, tab, path[k]).addr + At0(mem, tab, path[k]).len >= WORD64;
    assert path[1..][k - 1] == path[k];
  }

  lemma {:induction false} LastByteUnmapped(regions: seq<Region>, a: nat)
    requires a >= WORD64 - 1
    ensures Byte(regions, a) == None
  {
    if regions != [] {
      LastByteUnmapped(regions[1..], a);
    }
  }

  lemma {:induction false} ChainNotLonger(regions: seq<Region>, mem: Memory, t: nat, tab: Table, i: nat, max: nat,
                                          outSg: seq<Piece>, inSg: seq<Piece>, path: seq<nat>)
    requires |outSg| + |inSg| <= VIRTQUEUE_MAX_SIZE && |outSg| + |inSg| <= max
    requires Frozen(mem) && Chain(mem, tab, max, i, path)
    requires Walk(regions, mem, t, tab, i, max, outSg, inSg).Gathered?
    ensures var r := Walk(regions, mem, t, tab, i, max, outSg, inSg);
            |outSg| + |inSg| + |path| <= |r.outSg| + |r.inSg|
    decreases max - |outSg| - |inSg|
  {
    hide AddOne, Walk;
    WalkStep(regions, mem, t, tab, i, max, outSg, inSg);
    var r := AddOne(regions, mem, t, tab, i, outSg, inSg);
    var d := At0(mem, tab, i);
    assert mem(t + 3, tab, i) == d && mem(t + 4, tab, i) == d;
    AddOneProgress(regions, mem, t, tab, i, outSg, inSg);
    if d.hasNext {
      ChainNotLonger(regions, mem, t + 5, tab, d.nextIdx, max, r.outSg, r.inSg, path[1..]);
    }
  }

  /** The element a successful call returns: the head leads to a table that the chain stays in; the chain ends,
      is well ordered, has no empty buffer and no more descriptors than pieces; and the two lists stand for
      the bytes of their directions exactly when no buffer wraps the guest space. */
  lemma GatherPreservesMeaning(regions: seq<Region>, mem: Memory, head: nat, num: nat)
      returns (tab: Table, i: nat, max: nat, path: seq<nat>)
    requires Frozen(mem) && Disjoint(regions) && QueueMap(regions, mem, head, num).Gathered?
    ensures LeadsTo(regions, mem, head, num, tab, i, max) && Chain(mem, tab, max, i, path)
    ensures ReadablesFirst(mem, tab, path) && forall k :: 0 <= k < |path| ==> At0(mem, tab, path[k]).len > 0
    ensures var r := QueueMap(regions, mem, head, num);
            && |path| <= |r.outSg| + |r.inSg| <= VIRTQUEUE_MAX_SIZE
            && |r.outSg| + |r.inSg| <= max
            && (NoWrap(mem, tab, path) <==>
                  Means(regions, r.outSg, BufferAddrs(mem, tab, path, false))
                  && Means(regions, r.inSg, BufferAddrs(mem, tab, path, true)))
  {
    hide Walk, Disjoint, LeadsTo, ReadablesFirst, Means, BufferAddrs, NoWrap;
    var s := Locate(regions, mem, head, num);
    tab, i, max := s.tab, s.i, s.max;
    path := GatherLocated(regions, mem, head, num);
    LocateExact(regions, mem, head, num, tab, i, max);
  }

  /** The other direction: the call succeeds exactly when the head leads to a table with a chain that ends and is
      acceptable. Cyclic chains have no such path and are refused. */
  lemma GatherAcceptsExactly(regions: seq<Region>, mem: Memory, head: nat, num: nat)
    requires Frozen(mem) && Disjoint(regions)
    ensures QueueMap(regions, mem, head, num).Gathered? <==>
      exists tab, i, max, p ::
        LeadsTo(regions, mem, head, num, tab, i, max) && Chain(mem, tab, max, i, p)
        && Acceptable(regions, mem, tab, max, p, 0)
  {
    hide QueueMap, Acceptable, Disjoint, LeadsTo, Means, NoWrap, BufferAddrs;
    if QueueMap(regions, mem, head, num).Gathered? {
      var tab, i, max, path := GatherPreservesMeaning(regions, mem, head, num);
      HeadChain(regions, mem, head, num, tab, i, max, path);
    }
    forall tab, i, max, p | LeadsTo(regions, mem, head, num, tab, i, max) && Chain(mem, tab, max, i, p)
                            && Acceptable(regions, mem, tab, max, p, 0)
      ensures QueueMap(regions, mem, head, num).Gathered?
    {
      HeadChain(regions, mem, head, num, tab, i, max, p);
    }
  }

  /** A direct head, end to end: gathered exactly when the ring's chain from it is acceptable, into lists that
      mean that chain's bytes. */
  lemma DirectHead(regions: seq<Region>, mem: Memory, head: nat, num: nat, path: seq<nat>)
    requires Frozen(mem) && Disjoint(regions) && !At0(mem, Ring, head).isIndirect && Chain(mem, Ring, num, head, path)
    ensures QueueMap(regions, mem, head, num).Gathered? <==> Acceptable(regions, mem, Ring, num, path, 0)
    ensures var r := QueueMap(regions, mem, head, num);
            r.Gathered? && NoWrap(mem, Ring, path) ==>
              Means(regions, r.outSg, BufferAddrs(mem, Ring, path, false))
              && Means(regions, r.inSg, BufferAddrs(mem, Ring, path, true))
  {
    HeadChain(regions, mem, head, num, Ring, head, num, path);
  }

  /** An indirect head whose table lies in one region, likewise: all of the table, from its entry 0. */
  lemma IndirectHead(regions: seq<Region>, mem: Memory, head: nat, num: nat, va: nat, path: seq<nat>)
    requires Frozen(mem) && Disjoint(regions)
    requires var d := At0(mem, Ring, head);
             && d.isIndirect && d.len % 16 == 0 && TableAt(regions, d.addr, d.len, va)
             && Chain(mem, At(va), d.len / 16, 0, path)
    ensures var max := At0(mem, Ring, head).len / 16;
            QueueMap(regions, mem, head, num).Gathered? <==> Acceptable(regions, mem, At(va), max, path, 0)
    ensures var r := QueueMap(regions, mem, head, num);
            r.Gathered? && NoWrap(mem, At(va), path) ==>
              Means(regions, r.outSg, BufferAddrs(mem, At(va), path, false))
              && Means(regions, r.inSg, BufferAddrs(mem, At(va), path, true))
  {
    HeadChain(regions, mem, head, num, At(va), 0, At0(mem, Ring, head).len / 16, path);
  }

  lemma HeadChain(regions: seq<Region>, mem: Memory, head: nat, num: nat, tab: Table, i: nat, max: nat, path: seq<nat>)
    requires Frozen(mem) && Disjoint(regions) && LeadsTo(regions, mem, head, num, tab, i, max)
    requires Chain(mem, tab, max, i, path)
    ensures QueueMap(regions, mem, head, num).Gathered? <==> Acceptable(regions, mem, tab, max, path, 0)
    ensures var r := QueueMap(regions, mem, head, num);
            r.Gathered? && NoWrap(mem, tab, path) ==>
              Means(regions, r.outSg, BufferAddrs(mem, tab, path, false))
              && Means(regions, r.inSg, BufferAddrs(mem, tab, path, true))
  {
    hide Walk, Acceptable, Means, Disjoint, NoWrap, BufferAddrs, LeadsTo;
    LocateExact(regions, mem, head, num, tab, i, max);
    var s := Locate(regions, mem, head, num);
    WalkAccepts(regions, mem, s.t, tab, i, max, [], [], path);
    if QueueMap(regions, mem, head, num).Gathered? {
      var p := GatherLocated(regions, mem, head, num);
      ChainUnique(mem, tab, max, i, p, path);
    }
  }

  /** One such chain: a single buffer of 16384 bytes in guest memory of one 4096-byte region. It is gathered, as
      a piece four times the mapping. */
  lemma WrappedBufferGathered(mem: Memory)
    requires forall t: nat :: mem(t, Ring, 0) == Desc(WORD64 - 8192, 16384, false, true, false, 0)
    ensures var regions: seq<Region> := [RawRegion(WORD64 - 8192, 4096, 0, 4096, 0)];
            Disjoint(regions) && QueueMap(regions, mem, 0, 1) == Gathered([], [Piece(4096, 16384)])
            && !InsideOne(regions, Piece(4096, 16384))
  {
    hide Byte, Translate, MapRange;
    var r: Region := RawRegion(WORD64 - 8192, 4096, 0, 4096, 0);
    var regions: seq<Region> := [r];
    assert regions[0].Holds(WORD64 - 8192);
    ByteFromFirst(regions, 0, WORD64 - 8192);
    WrappedRangeAccepted(regions, VIRTQUEUE_MAX_SIZE, WORD64 - 8192, 16384);
    assert mem(1, Ring, 0) == mem(0, Ring, 0) == mem(2, Ring, 0) == mem(3, Ring, 0) == mem(4, Ring, 0);
    assert [] + [Piece(4096, 16384)] == [Piece(4096, 16384)];
  }

  // ---- Reads stay inside the table ---------------------------------------------------------------------

  /** Two memories that hold the same in the entries below `max` of one table. */
  ghost predicate SameBelow(a: Memory, b: Memory, tab: Table, max: nat) {
    forall t: nat, i: nat :: i < max ==> a(t, tab, i) == b(t, tab, i)
  }

  /** The walk reads no entry at or beyond `max`: what lies there makes no difference, whatever memory does. */
  lemma {:induction false} WalkReadsInside(regions: seq<Region>, a: Memory, b: Memory, t: nat, tab: Table, i: nat,
                                           max: nat, outSg: seq<Piece>, inSg: seq<Piece>)
    requires |outSg| + |inSg| <= VIRTQUEUE_MAX_SIZE && |outSg| + |inSg| <= max
    requires i < max && SameBelow(a, b, tab, max)
    ensures Walk(regions, a, t, tab, i, max, outSg, inSg) == Walk(regions, b, t, tab, i, max, outSg, inSg)
    decreases max - |outSg| - |inSg|
  {
    hide Walk, MapBuffer;
    WalkStep(regions, a, t, tab, i, max, outSg, inSg);
    WalkStep(regions, b, t, tab, i, max, outSg, inSg);
    var r := AddOne(regions, a, t, tab, i, outSg, inSg);
    assert r == AddOne(regions, b, t, tab, i, outSg, inSg);
    if r.Gathered? && |r.outSg| + |r.inSg| <= max && a(t + 3, tab, i).hasNext && a(t + 4, tab, i).nextIdx < max {
      WalkReadsInside(regions, a, b, t + 5, tab, a(t + 4, tab, i).nextIdx, max, r.outSg, r.inSg);
    }
  }
}
