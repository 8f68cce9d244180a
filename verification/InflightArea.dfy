// The shared area of in-flight records: its size formula and how it is cut into one slice per queue.

module InflightArea {
  import opened Words

  const INFLIGHT_ALIGNMENT := 64

  /** The size of `VuVirtqInflight` before its array, of one `VuDescStateSplit`, and of a `uint16_t`. */
  const HEADER := 16
  const ENTRY := 16
  const COUNT := 2

  /** Where `desc_num` lies in the header: after `features` and `version`. */
  const DESC_NUM := 10

  function AlignUp(n: nat, m: nat): nat
    requires 0 < m
  {
    (n + m - 1) / m * m
  }

  /** `vu_inflight_queue_size`: the formula makes room for two bytes of header. */
  function QueueSize(entries: nat): nat {
    AlignUp(ENTRY * entries + COUNT, INFLIGHT_ALIGNMENT)
  }

  /** What a slice has to hold. */
  function Needed(entries: nat): nat {
    HEADER + ENTRY * entries
  }

  lemma AlignUpLeast(n: nat, m: nat)
    requires 0 < m
    ensures n <= AlignUp(n, m) < n + m && AlignUp(n, m) % m == 0
  {
    var q := (n + m - 1) / m;
    assert n + m - 1 == q * m + (n + m - 1) % m;
    Multiple(q, m);
  }

  lemma Multiple(q: nat, m: nat)
    requires 0 < m
    ensures (q * m) % m == 0
    decreases q
  {
    if q > 0 {
      Multiple(q - 1, m);
      assert q * m == (q - 1) * m + m;
      AddMultiple((q - 1) * m, m);
    }
  }

  lemma AddMultiple(a: nat, m: nat)
    requires 0 < m
    ensures (a + m) % m == a % m
  {
    var k := a / m;
    assert a + m == (k + 1) * m + a % m;
    QuotientUnique(a + m, m, k + 1, a % m);
  }

  lemma QuotientUnique(n: nat, m: nat, q: nat, r: nat)
    requires r < m && n == q * m + r
    ensures n % m == r && n / m == q
  {
    var d: int := n / m - q;
    assert d > 0 ==> d * m >= m;
    assert d < 0 ==> d * m <= (-1) * m;
    assert d * m == r - n % m;
  }

  /** Reserving two bytes instead of sixteen loses nothing: the result is the least multiple of 64 that
      holds the whole header and all entries. */
  lemma SizeIsExact(entries: nat)
    ensures QueueSize(entries) == AlignUp(16 + 16 * entries, 64)
    ensures Needed(entries) <= QueueSize(entries) < Needed(entries) + INFLIGHT_ALIGNMENT
  {
    var a, b := entries / 4, entries % 4;
    SixtyFours(ENTRY * entries + COUNT, a, 16 * b + COUNT);
    SixtyFours(Needed(entries), a, 16 * b + HEADER);
  }

  lemma SixtyFours(n: nat, a: nat, rest: nat)
    requires n == 64 * a + rest && 0 < rest <= 64
    ensures AlignUp(n, 64) == 64 * a + 64
  {
    QuotientUnique(n + 63, 64, a + 1, rest - 1);
  }

  /** It is the alignment that makes the short header harmless: every queue size is given enough exactly
      when the alignment is a multiple of the entry size. */
  lemma AlignmentMatters(m: nat)
    requires 0 < m
    ensures (forall entries: nat :: Needed(entries) <= AlignUp(ENTRY * entries + COUNT, m)) <==> m % ENTRY == 0
  {
    hide AlignUp;
    if m % ENTRY == 0 {
      forall entries: nat ensures Needed(entries) <= AlignUp(ENTRY * entries + COUNT, m) {
        LongEnough(entries, m);
      }
    } else {
      var entries := TooShort(m);
      assert !(Needed(entries) <= AlignUp(ENTRY * entries + COUNT, m));
    }
  }

  lemma LongEnough(entries: nat, m: nat)
    requires 0 < m && m % ENTRY == 0
    ensures Needed(entries) <= AlignUp(ENTRY * entries + COUNT, m)
  {
    hide AlignUp;
    var n := ENTRY * entries + COUNT;
    AlignUpLeast(n, m);
    SixteenDivides(AlignUp(n, m), m);
  }

  /** A multiple of any other alignment falls between the formula's size and the needed one. */
  lemma TooShort(m: nat) returns (entries: nat)
    requires m % ENTRY != 0
    ensures AlignUp(ENTRY * entries + COUNT, m) < Needed(entries)
  {
    hide AlignUp;
    if m % ENTRY == 1 {
      entries := 2 * m / ENTRY;
      AlignUpAtMost(ENTRY * entries + COUNT, m, 2);
    } else {
      entries := m / ENTRY;
      AlignUpAtMost(ENTRY * entries + COUNT, m, 1);
    }
  }

  lemma SixteenDivides(a: nat, m: nat)
    requires 0 < m && m % ENTRY == 0 && a % m == 0
    ensures a % ENTRY == 0
  {
    var x, y := a / m, m / ENTRY;
    assert a == x * m && m == y * ENTRY;
    assert x * (y * ENTRY) == (x * y) * ENTRY;
    Multiple(x * y, ENTRY);
  }

  lemma AlignUpAtMost(n: nat, m: nat, k: nat)
    requires 0 < m && n <= k * m
    ensures AlignUp(n, m) <= k * m
  {
    var q := (n + m - 1) / m;
    assert n + m - 1 == q * m + (n + m - 1) % m;
    if q > k {
      assert q * m >= (k + 1) * m;
    }
  }

  /** Where queue `i`'s slice starts. */
  function Start(i: nat, entries: nat): nat {
    i * QueueSize(entries)
  }

  /** The slices fit the mapping and do not overlap, for every queue size and count, and the size computed
      in 64 bits is the true one. */
  lemma SlicesFit(i: nat, j: nat, queues: U16, entries: U16)
    requires i < j <= queues
    ensures Start(i, entries) + Needed(entries) <= Start(j, entries) <= Start(queues, entries) < WORD64
    ensures Start(i, entries) % INFLIGHT_ALIGNMENT == 0
  {
    hide QueueSize, AlignUp;
    SizeIsExact(entries);
    var size := QueueSize(entries);
    assert j * size >= (i + 1) * size;
    assert queues * size >= j * size;
    assert queues * size <= 65536 * 2097152 by {
      assert size <= 2097152;
      Product(queues, 65536, size, 2097152);
    }
    StartAligned(i, entries);
  }

  lemma Product(a: nat, b: nat, c: nat, d: nat)
    requires a <= b && c <= d
    ensures a * c <= b * d
  {
    assert a * c <= b * c && b * c <= b * d;
  }

  lemma StartAligned(i: nat, entries: nat)
    ensures Start(i, entries) % INFLIGHT_ALIGNMENT == 0
  {
    hide AlignUp;
    var n := ENTRY * entries + COUNT;
    AlignUpLeast(n, INFLIGHT_ALIGNMENT);
    var q := AlignUp(n, INFLIGHT_ALIGNMENT) / INFLIGHT_ALIGNMENT;
    assert i * QueueSize(entries) == (i * q) * INFLIGHT_ALIGNMENT;
    Multiple(i * q, INFLIGHT_ALIGNMENT);
  }

  /** The last of `n` labels lies within a mapping of that size: what the stores of the loop need. The size
      that the program computes is more than enough. */
  predicate LabelsFit(size: nat, n: nat, entries: nat) {
    n > 0 ==> Start(n - 1, entries) + DESC_NUM + 2 <= size
  }

  lemma EarlierReached(size: nat, n: nat, entries: nat)
    requires n > 0 && LabelsFit(size, n, entries)
    ensures LabelsFit(size, n - 1, entries)
  {
    hide Start;
    if n > 1 {
      RoomForLabel(n - 2, entries);
    }
  }

  lemma ComputedSizeFits(n: nat, entries: nat)
    ensures LabelsFit(Start(n, entries), n, entries)
  {
    hide Start;
    if n > 0 {
      RoomForLabel(n - 1, entries);
    }
  }

  /** The bytes after the first `n` slices have been given their `desc_num`. */
  function Labelled(bytes: seq<int>, n: nat, entries: U16): (r: seq<int>)
    requires LabelsFit(|bytes|, n, entries)
    ensures |r| == |bytes|
    decreases n
  {
    if n == 0 then bytes
    else
      EarlierReached(|bytes|, n, entries);
      var at := Start(n - 1, entries) + DESC_NUM;
      Labelled(bytes, n - 1, entries)[at := entries % 256][at + 1 := entries / 256]
  }

  lemma RoomForLabel(i: nat, entries: nat)
    ensures Start(i, entries) + Needed(entries) <= Start(i + 1, entries)
  {
    hide QueueSize;
    SizeIsExact(entries);
    assert (i + 1) * QueueSize(entries) == i * QueueSize(entries) + QueueSize(entries);
  }

  lemma StartsAscend(i: nat, j: nat, entries: nat)
    requires i < j
    ensures Start(i, entries) + Needed(entries) <= Start(j, entries)
  {
    hide QueueSize;
    RoomForLabel(i, entries);
    assert j * QueueSize(entries) >= (i + 1) * QueueSize(entries);
  }

  /** Every slice reads back its queue size. */
  lemma {:induction false} LabelHolds(bytes: seq<int>, n: nat, entries: U16, i: nat)
    requires i < n && LabelsFit(|bytes|, n, entries)
    ensures Start(i, entries) + DESC_NUM + 2 <= |bytes|
    ensures Start(n, entries) <= |bytes| ==> Start(i, entries) + Needed(entries) <= |bytes|
    ensures Labelled(bytes, n, entries)[Start(i, entries) + DESC_NUM]
         + 256 * Labelled(bytes, n, entries)[Start(i, entries) + DESC_NUM + 1] == entries
    decreases n
  {
    hide Start;
    EarlierReached(|bytes|, n, entries);
    StartsAscend(i, n, entries);
    if i < n - 1 {
      StartsAscend(i, n - 1, entries);
      LabelHolds(bytes, n - 1, entries, i);
    }
  }

  /** No other byte of the surviving log changes. */
  lemma {:induction false} RestUntouched(bytes: seq<int>, n: nat, entries: U16, k: nat)
    requires LabelsFit(|bytes|, n, entries) && k < |bytes|
    requires forall i: nat :: i < n ==> k != Start(i, entries) + DESC_NUM && k != Start(i, entries) + DESC_NUM + 1
    ensures Labelled(bytes, n, entries)[k] == bytes[k]
    decreases n
  {
    hide Start;
    if n > 0 {
      EarlierReached(|bytes|, n, entries);
      RestUntouched(bytes, n - 1, entries, k);
      assert k != Start(n - 1, entries) + DESC_NUM;
    }
  }

  lemma ReachedBefore(size: nat, i: nat, n: nat, entries: nat)
    requires i <= n && LabelsFit(size, n, entries)
    ensures LabelsFit(size, i, entries)
  {
    hide Start;
    if 0 < i < n {
      StartsAscend(i - 1, n - 1, entries);
    }
  }

  /** The loop of `vu_set_inflight_fd` over the bytes of the mapping. */
  method Carve(area: array<int>, queues: U16, entries: U16) returns (slices: seq<nat>)
    requires LabelsFit(area.Length, queues, entries)
    modifies area
    ensures |slices| == queues && forall i :: 0 <= i < queues ==> slices[i] == Start(i, entries)
    ensures area[..] == Labelled(old(area[..]), queues, entries)
  {
    hide QueueSize;
    slices := [];
    var rc: nat, i: nat := 0, 0;
    ghost var bytes := area[..];
    while i < queues
      invariant i <= queues && rc == Start(i, entries) && |slices| == i && LabelsFit(area.Length, i, entries)
      invariant forall j :: 0 <= j < i ==> slices[j] == Start(j, entries)
      invariant area[..] == Labelled(bytes, i, entries)
    {
      ReachedBefore(area.Length, i + 1, queues, entries);
      slices := slices + [rc];
      area[rc + DESC_NUM], area[rc + DESC_NUM + 1] := entries % 256, entries / 256;
      rc := rc + QueueSize(entries);
      i := i + 1;
    }
  }
}
