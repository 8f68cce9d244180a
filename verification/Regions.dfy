// The table of guest memory regions: translation of guest-physical addresses and removal of a region.

module Regions {
  import opened Words

  /** A mapped region. Neither its guest range nor its host range runs past the 64-bit space. */
  datatype RawRegion = RawRegion(gpa: nat, size: nat, qva: nat, mmapAddr: nat, mmapOffset: nat)
  {
    predicate Fits() {
      gpa + size < WORD64 && qva < WORD64 && 0 < mmapAddr && mmapAddr + mmapOffset + size < WORD64
    }

    predicate Holds(addr: nat) {
      gpa <= addr < gpa + size
    }

    /** The host address of guest address `addr`. */
    function Host(addr: nat): int {
      addr - gpa + mmapAddr + mmapOffset
    }
  }

  type Region = r: RawRegion | r.Fits() witness RawRegion(0, 0, 0, 1, 0)

  const MAX_RAM_SLOTS := 32

  /** Where a translated range starts in host memory and how much of it is contiguous there. */
  datatype Piece = Piece(va: nat, len: nat)

  /** `vu_gpa_to_va`: the first region holding the address decides. The comparison against the end of
      the region is made on 64-bit words. */
  function Translate(regions: seq<Region>, addr: U64, len: U64): (p: Option<Piece>)
    ensures p.Some? ==> 0 < p.value.len <= len
  {
    if len == 0 || regions == [] then None
    else
      var r := regions[0];
      if r.Holds(addr) then
        Some(Piece(r.Host(addr), if Low64(addr + len) > r.gpa + r.size then r.gpa + r.size - addr else len))
      else Translate(regions[1..], addr, len)
  }

  /** The host byte behind one guest address. */
  function Byte(regions: seq<Region>, addr: nat): Option<nat> {
    if regions == [] then None
    else if regions[0].Holds(addr) then Some(regions[0].Host(addr))
    else Byte(regions[1..], addr)
  }

  /** No guest address lies in two regions. */
  ghost predicate Disjoint(regions: seq<Region>) {
    forall i, j, a :: 0 <= i < j < |regions| && regions[i].Holds(a) ==> !regions[j].Holds(a)
  }

  lemma {:induction false} ByteFromFirst(regions: seq<Region>, i: nat, addr: nat)
    requires i < |regions| && regions[i].Holds(addr)
    requires forall k :: 0 <= k < i ==> !regions[k].Holds(addr)
    ensures Byte(regions, addr) == Some(regions[i].Host(addr))
  {
    if i > 0 {
      assert !regions[0].Holds(addr);
      ByteFromFirst(regions[1..], i - 1, addr);
    }
  }

  lemma {:induction false} ByteNone(regions: seq<Region>, addr: nat)
    ensures Byte(regions, addr) == None <==> forall k :: 0 <= k < |regions| ==> !regions[k].Holds(addr)
  {
    if regions != [] {
      ByteNone(regions[1..], addr);
      assert regions == [regions[0]] + regions[1..];
    }
  }

  /** A region is found exactly when one holds the address. */
  lemma {:induction false} TranslateFinds(regions: seq<Region>, addr: U64, len: U64)
    ensures Translate(regions, addr, len).Some? <==> len > 0 && Byte(regions, addr).Some?
  {
    if regions != [] {
      TranslateFinds(regions[1..], addr, len);
    }
  }

  /** The region `Translate` takes. */
  lemma {:induction false} TranslateRegion(regions: seq<Region>, addr: U64, len: U64) returns (i: nat)
    requires Translate(regions, addr, len).Some?
    ensures i < |regions| && regions[i].Holds(addr)
    ensures forall k :: 0 <= k < i ==> !regions[k].Holds(addr)
    ensures Translate(regions, addr, len).value.va == regions[i].Host(addr)
    ensures addr + len < WORD64 ==>
      Translate(regions, addr, len).value.len
        == if addr + len > regions[i].gpa + regions[i].size then regions[i].gpa + regions[i].size - addr else len
    ensures addr + len >= WORD64 ==> Translate(regions, addr, len).value.len == len
  {
    if regions[0].Holds(addr) {
      i := 0;
    } else {
      var j := TranslateRegion(regions[1..], addr, len);
      i := j + 1;
    }
  }

  /** The range `[va, va + len)` is inside the host mapping of one region. */
  ghost predicate InsideOne(regions: seq<Region>, p: Piece) {
    exists i :: 0 <= i < |regions|
      && regions[i].mmapAddr + regions[i].mmapOffset <= p.va
      && p.va + p.len <= regions[i].mmapAddr + regions[i].mmapOffset + regions[i].size
  }

  /** Byte by byte, the piece is what the guest range translates to. */
  ghost predicate PieceMeans(regions: seq<Region>, addr: nat, p: Piece) {
    forall a :: addr <= a < addr + p.len ==> Byte(regions, a) == Some(p.va + (a - addr))
  }

  /** A translated piece lies in one region, is as long as that region allows and agrees with the
      translation of each of its bytes, for a range that does not wrap the 64-bit space. */
  lemma TranslateExact(regions: seq<Region>, addr: U64, len: U64)
    requires Disjoint(regions) && Translate(regions, addr, len).Some? && addr + len < WORD64
    ensures var p := Translate(regions, addr, len).value;
            InsideOne(regions, p) && PieceMeans(regions, addr, p)
  {
    var i := TranslateRegion(regions, addr, len);
    var p := Translate(regions, addr, len).value;
    forall a | addr <= a < addr + p.len
      ensures Byte(regions, a) == Some(p.va + (a - addr))
    {
      assert regions[i].Holds(addr) && regions[i].Holds(a);
      ByteFromFirst(regions, i, a);
    }
  }

  /** The 64-bit comparison is exact only for such ranges: one that wraps is never cut at the end of
      its region. */
  lemma WrappedRangeNotCut(regions: seq<Region>, addr: U64, len: U64, i: nat)
    requires Disjoint(regions) && i < |regions| && regions[i].Holds(addr) && len > 0
    ensures Translate(regions, addr, len).Some?
    ensures addr + Translate(regions, addr, len).value.len <= regions[i].gpa + regions[i].size
        <==> addr + len < WORD64
  {
    ByteFromFirst(regions, i, addr);
    TranslateFinds(regions, addr, len);
    var j := TranslateRegion(regions, addr, len);
    if i != j {
      assert false;
    }
  }

  // ---- Removal -----------------------------------------------------------------------------------

  /** `reg_equal`: the identity the front end names a region by. */
  predicate Matches(r: RawRegion, gpa: nat, qva: nat, size: nat) {
    r.gpa == gpa && r.qva == qva && r.size == size
  }

  /** The regions that do not match, in their order. */
  function Without(regions: seq<RawRegion>, gpa: nat, qva: nat, size: nat): (rest: seq<RawRegion>) {
    if regions == [] then []
    else if Matches(regions[0], gpa, qva, size) then Without(regions[1..], gpa, qva, size)
    else [regions[0]] + Without(regions[1..], gpa, qva, size)
  }

  lemma {:induction false} WithoutConcat(a: seq<RawRegion>, b: seq<RawRegion>, gpa: nat, qva: nat, size: nat)
    ensures Without(a + b, gpa, qva, size) == Without(a, gpa, qva, size) + Without(b, gpa, qva, size)
  {
    if a == [] {
      assert a + b == b;
    } else {
      assert (a + b)[1..] == a[1..] + b;
      WithoutConcat(a[1..], b, gpa, qva, size);
    }
  }

  lemma {:induction false} WithoutKeepsAll(a: seq<RawRegion>, gpa: nat, qva: nat, size: nat)
    ensures |Without(a, gpa, qva, size)| <= |a|
    ensures |Without(a, gpa, qva, size)| == |a| <==> forall k :: 0 <= k < |a| ==> !Matches(a[k], gpa, qva, size)
  {
    if a != [] {
      WithoutKeepsAll(a[1..], gpa, qva, size);
      assert a == [a[0]] + a[1..];
    }
  }

  /** It differs from the named region in guest address, user address or size. */
  predicate Survives(r: RawRegion, gpa: nat, qva: nat, size: nat) {
    r.gpa != gpa || r.qva != qva || r.size != size
  }

  /** The survivors, position by position: `pos` rises through the old table and stops exactly at them. */
  lemma {:induction false} SurvivorsInOrder(a: seq<RawRegion>, gpa: nat, qva: nat, size: nat) returns (pos: seq<nat>)
    ensures |pos| == |Without(a, gpa, qva, size)|
    ensures forall k :: 0 <= k < |pos| ==> pos[k] < |a| && Without(a, gpa, qva, size)[k] == a[pos[k]]
    ensures forall j, k :: 0 <= j < k < |pos| ==> pos[j] < pos[k]
    ensures forall i :: 0 <= i < |a| ==> (i in pos <==> Survives(a[i], gpa, qva, size))
  {
    hide Without, Matches;
    if a == [] {
      WithoutNone(gpa, qva, size);
      pos := [];
    } else {
      var last := |a| - 1;
      var front, r := a[..last], a[last];
      pos := SurvivorsInOrder(front, gpa, qva, size);
      WithoutConcat(front, [r], gpa, qva, size);
      assert a == front + [r];
      WithoutOne(r, gpa, qva, size);
      if Survives(r, gpa, qva, size) {
        pos := pos + [last];
      }
    }
  }

  lemma WithoutOne(r: RawRegion, gpa: nat, qva: nat, size: nat)
    ensures Without([r], gpa, qva, size) == if Survives(r, gpa, qva, size) then [r] else []
  {
  }

  class RegionTable {
    const regions: array<RawRegion>
    var nregions: U32
    var broken: bool

    ghost predicate Valid()
      reads this, regions
    {
      && regions.Length == MAX_RAM_SLOTS && nregions <= MAX_RAM_SLOTS
      && forall i :: 0 <= i < nregions ==> regions[i].Fits()
    }

    ghost function Live(): (s: seq<Region>)
      requires Valid()
      reads this, regions
    {
      var s: seq<RawRegion> := regions[..nregions];
      assert forall i :: 0 <= i < |s| ==> s[i].Fits();
      seq(|s|, i requires 0 <= i < |s| => s[i])
    }

    /** `vu_gpa_to_va`, with the shortened length as a second result. */
    method GpaToVa(plen: U64, addr: U64) returns (va: Option<nat>, len: U64)
      requires Valid()
      ensures va.Some? <==> Translate(Live(), addr, plen).Some?
      ensures va.Some? ==> Translate(Live(), addr, plen) == Some(Piece(va.value, len))
      ensures va.None? ==> len == plen
    {
      len := plen;
      if len == 0 {
        return None, len;
      }
      var i := 0;
      while i < nregions
        invariant 0 <= i <= nregions
        invariant Translate(Live(), addr, plen) == Translate(Live()[i..], addr, plen)
      {
        var r := regions[i];
        assert Live()[i..][0] == r && Live()[i..][1..] == Live()[i + 1..];
        if addr >= r.gpa && addr < r.gpa + r.size {
          if Low64(addr + len) > r.gpa + r.size {
            len := r.gpa + r.size - addr;
          }
          return Some(addr - r.gpa + r.mmapAddr + r.mmapOffset), len;
        }
        i := i + 1;
      }
      return None, len;
    }

    /** The scan of `vu_rem_mem_reg`: the index is unsigned, so after a removal at index 0 it wraps
        and the loop's increment brings it back. */
    method RemMemReg(gpa: nat, qva: nat, size: nat)
      requires Valid()
      modifies this, regions
      ensures Valid()
      ensures regions[..nregions] == Without(old(regions[..nregions]), gpa, qva, size)
      ensures broken
        == (old(broken) || forall k :: 0 <= k < old(nregions) ==> !Matches(old(regions[k]), gpa, qva, size))
      ensures forall k :: nregions <= k < old(nregions) ==> regions[k] == RawRegion(0, 0, 0, 0, 0)
      ensures forall k :: old(nregions) <= k < MAX_RAM_SLOTS ==> regions[k] == old(regions[k])
    {
      hide Without, Matches, Low32;
      var i: U32 := 0;
      var found := false;
      ghost var all := regions[..nregions];
      WithoutNone(gpa, qva, size);
      while i < nregions
        invariant Valid() && i <= nregions <= old(nregions)
        invariant regions[..i] == Without(regions[..i], gpa, qva, size)
        invariant Without(regions[..nregions], gpa, qva, size) == Without(all, gpa, qva, size)
        invariant found <==> nregions < old(nregions)
        invariant broken == old(broken)
        invariant forall k :: nregions <= k < old(nregions) ==> regions[k] == RawRegion(0, 0, 0, 0, 0)
        invariant forall k :: old(nregions) <= k < MAX_RAM_SLOTS ==> regions[k] == old(regions[k])
        decreases nregions - i
      {
        if Matches(regions[i], gpa, qva, size) {
          CloseHole(i, gpa, qva, size);
          BackAndForth(i);
          i := Low32(i - 1);
          found := true;
        } else {
          ScanPast(regions[..i], regions[i], gpa, qva, size);
          assert regions[..i + 1] == regions[..i] + [regions[i]];
          Low32Small(i + 1);
        }
        i := Low32(i + 1);
      }
      assert regions[..i] == regions[..nregions];
      WithoutKeepsAll(all, gpa, qva, size);
      if !found {
        broken := true;
      }
    }

    /** The memmove over the hole and the memset of the last entry. */
    method CloseHole(i: nat, ghost gpa: nat, ghost qva: nat, ghost size: nat)
      requires Valid() && i < nregions && Matches(regions[i], gpa, qva, size)
      modifies this`nregions, regions
      ensures Valid() && nregions == old(nregions) - 1
      ensures regions[..i] == old(regions[..i])
      ensures Without(regions[..nregions], gpa, qva, size) == Without(old(regions[..nregions]), gpa, qva, size)
      ensures regions[nregions] == RawRegion(0, 0, 0, 0, 0)
      ensures forall k :: nregions < k < MAX_RAM_SLOTS ==> regions[k] == old(regions[k])
    {
      ghost var was := regions[..nregions];
      forall k | i <= k < nregions - 1 {
        regions[k] := regions[k + 1];
      }
      regions[nregions - 1] := RawRegion(0, 0, 0, 0, 0);
      nregions := nregions - 1;
      assert regions[..i] == was[..i];
      assert regions[..nregions] == was[..i] + was[i + 1..];
      DropMatch(was, i, gpa, qva, size);
    }
  }

  /** An unsigned index decremented and incremented again, also at zero. */
  lemma BackAndForth(i: U32)
    ensures Low32(Low32(i - 1) + 1) == i
  {
  }

  lemma WithoutNone(gpa: nat, qva: nat, size: nat)
    ensures Without([], gpa, qva, size) == []
  {
  }

  lemma ScanPast(a: seq<RawRegion>, r: RawRegion, gpa: nat, qva: nat, size: nat)
    requires a == Without(a, gpa, qva, size) && !Matches(r, gpa, qva, size)
    ensures a + [r] == Without(a + [r], gpa, qva, size)
  {
    WithoutConcat(a, [r], gpa, qva, size);
    assert Without([r], gpa, qva, size) == [r] + Without([], gpa, qva, size);
  }

  lemma DropMatch(all: seq<RawRegion>, i: nat, gpa: nat, qva: nat, size: nat)
    requires i < |all| && Matches(all[i], gpa, qva, size)
    ensures Without(all[..i] + all[i + 1..], gpa, qva, size) == Without(all, gpa, qva, size)
  {
    assert all == all[..i] + all[i..] && all[i..][1..] == all[i + 1..];
    WithoutConcat(all[..i], all[i..], gpa, qva, size);
    WithoutConcat(all[..i], all[i + 1..], gpa, qva, size);
  }

  lemma {:induction false} RemovalKeepsDisjoint(before: seq<Region>, after: seq<Region>, gpa: nat, qva: nat, size: nat)
    requires Disjoint(before) && after == Without(before, gpa, qva, size)
    ensures Disjoint(after)
    decreases |before|
  {
    if before != [] {
      var rest := before[1..];
      TailDisjoint(before);
      if Matches(before[0], gpa, qva, size) {
        RemovalKeepsDisjoint(rest, after, gpa, qva, size);
      } else {
        RemovalKeepsDisjoint(rest, after[1..], gpa, qva, size);
        WithoutSubset(rest, gpa, qva, size);
        forall i, j, a | 0 <= i < j < |after| && after[i].Holds(a)
          ensures !after[j].Holds(a)
        {
          var r := after[1..][j - 1];
          assert r in Without(rest, gpa, qva, size) && r in rest;
          var k :| 0 <= k < |rest| && rest[k] == r;
          assert before[k + 1] == after[j];
          if i == 0 {
            assert before[0].Holds(a);
          } else {
            assert after[1..][i - 1].Holds(a);
          }
        }
      }
    }
  }

  lemma TailDisjoint(all: seq<Region>)
    requires Disjoint(all) && all != []
    ensures Disjoint(all[1..])
  {
    var rest := all[1..];
    forall i, j, a | 0 <= i < j < |rest| && rest[i].Holds(a)
      ensures !rest[j].Holds(a)
    {
      assert all[i + 1].Holds(a);
    }
  }

  /** A removed region holds the address. */
  ghost predicate HeldByRemoved(before: seq<Region>, gpa: nat, qva: nat, size: nat, addr: nat) {
    exists i :: 0 <= i < |before| && Matches(before[i], gpa, qva, size) && before[i].Holds(addr)
  }

  /** What a front end sees of a removal: every address of a surviving region translates as before, and
      an address a removed region held translates to nothing. */
  lemma {:induction false} RemovalKeepsTranslation(
      before: seq<Region>, after: seq<Region>, gpa: nat, qva: nat, size: nat, addr: U64, len: U64)
    requires Disjoint(before) && after == Without(before, gpa, qva, size)
    ensures Translate(after, addr, len)
      == if HeldByRemoved(before, gpa, qva, size, addr) then None else Translate(before, addr, len)
    decreases |before|
  {
    if before != [] {
      var rest := before[1..];
      TailDisjoint(before);
      var after' := if Matches(before[0], gpa, qva, size) then after else after[1..];
      RemovalKeepsTranslation(rest, after', gpa, qva, size, addr, len);
      RemovedHolds(before, gpa, qva, size, addr);
      if before[0].Holds(addr) {
        NothingElseHolds(before, addr, len);
        NothingElseRemoved(before, gpa, qva, size, addr);
      }
    }
  }

  lemma NothingElseRemoved(all: seq<Region>, gpa: nat, qva: nat, size: nat, addr: nat)
    requires Disjoint(all) && all != [] && all[0].Holds(addr)
    ensures !HeldByRemoved(all[1..], gpa, qva, size, addr)
  {
    forall k | 0 <= k < |all[1..]| ensures !all[1..][k].Holds(addr) {
      assert all[1..][k] == all[k + 1];
    }
  }

  lemma RemovedHolds(before: seq<Region>, gpa: nat, qva: nat, size: nat, addr: nat)
    requires before != []
    ensures HeldByRemoved(before, gpa, qva, size, addr) <==>
      ((Matches(before[0], gpa, qva, size) && before[0].Holds(addr))
       || HeldByRemoved(before[1..], gpa, qva, size, addr))
  {
    assert before == [before[0]] + before[1..];
  }

  lemma {:induction false} WithoutSubset(all: seq<RawRegion>, gpa: nat, qva: nat, size: nat)
    ensures forall r :: r in Without(all, gpa, qva, size) ==> r in all
  {
    if all != [] {
      WithoutSubset(all[1..], gpa, qva, size);
    }
  }

  lemma NothingElseHolds(all: seq<Region>, addr: U64, len: U64)
    requires Disjoint(all) && all != [] && all[0].Holds(addr)
    ensures Translate(all[1..], addr, len) == None
  {
    ByteNone(all[1..], addr);
    forall k | 0 <= k < |all[1..]| ensures !all[1..][k].Holds(addr) {
      assert all[1..][k] == all[k + 1];
    }
    TranslateFinds(all[1..], addr, len);
  }
}
