// Fixed-width words, free-running ring indices and the event-index test of the split virtqueue.

module Words {

  const WORD16 := 0x1_0000
  const WORD32 := 0x1_0000_0000
  const WORD64 := 0x1_0000_0000_0000_0000

  /** The longest queue, and the most segments one element may have. */
  const VIRTQUEUE_MAX_SIZE := 1024

  type U16 = x: nat | x < WORD16
  type U32 = x: nat | x < WORD32
  type U64 = x: nat | x < WORD64

  datatype Option<+T> = None | Some(value: T)

  /** The truncating cast to `uint16_t`. */
  function Low16(x: int): (r: U16) {
    x % WORD16
  }

  function Low32(x: int): (r: U32) {
    x % WORD32
  }

  function Low64(x: int): (r: U64) {
    x % WORD64
  }

  lemma Low32Small(x: nat)
    requires x < WORD32
    ensures Low32(x) == x
  {
  }

  /** The cast of a `uint16_t` to `int16_t`. */
  function Signed16(x: U16): int {
    if x < 0x8000 then x as int else x - WORD16
  }

  /** `vring_need_event`: unsigned 16-bit arithmetic on free-running indices. */
  predicate NeedEvent(event: U16, next16: U16, prev16: U16) {
    Low16(next16 - event - 1) < Low16(next16 - prev16)
  }

  /** Ring sizes: the divisors of 2^16 up to 2^15 are the powers of two a queue may have. */
  predicate RingSize(num: nat): (yes: bool)
    ensures yes ==> 0 < num <= 0x8000
  {
    0 < num <= 0x8000 && WORD16 % num == 0
  }

  /** The ring slot of an index. */
  function Slot(idx: nat, num: nat): (slot: nat)
    requires 0 < num
    ensures slot < num
  {
    idx % num
  }

  /** Two counters less than 2^16 apart agree in 16 bits only when they are equal. */
  lemma Low16Injective(a: nat, b: nat)
    requires Low16(a) == Low16(b)
    requires a <= b < a + WORD16
    ensures a == b
  {
  }

  lemma Low16Difference(a: nat, b: nat)
    requires a <= b < a + WORD16
    ensures Low16(Low16(b) - Low16(a)) == b - a
  {
  }

  lemma Low16Step(p: int, k: int)
    ensures Low16(Low16(p) + k) == Low16(p + k)
  {
  }

  lemma MulGrows(num: nat, k: int)
    ensures k >= 1 ==> num * k >= num
    ensures k <= -1 ==> num * k <= 0 - num
  {
    assert num * k == num + num * (k - 1);
    assert num * k == 0 - num - num * (-k - 1);
  }

  /** A multiple of `num` strictly between `-num` and `num` is zero. */
  lemma SmallMultiple(num: nat, k: int)
    requires 0 - num < num * k < num
    ensures k == 0
  {
    MulGrows(num, k);
  }

  lemma ModUnique(x: nat, num: nat, q: nat, s: nat)
    requires s < num && x == num * q + s
    ensures x % num == s
  {
    assert num * (q - x / num) == x % num - s;
    SmallMultiple(num, q - x / num);
  }

  lemma MulMod(k: nat, num: nat, r: nat)
    requires 0 < num
    ensures (num * k + r) % num == r % num
  {
    assert num * (k + r / num) == num * k + num * (r / num);
    ModUnique(num * k + r, num, k + r / num, r % num);
  }

  /** The slot of a 16-bit index is the slot of the counter behind it, across every wrap. */
  lemma {:induction false} SlotOfWrapped(p: nat, num: nat)
    requires RingSize(num)
    ensures Slot(Low16(p), num) == Slot(p, num)
  {
    var k := WORD16 / num;
    assert WORD16 == num * k;
    var a := p / WORD16;
    assert p == WORD16 * a + p % WORD16;
    assert WORD16 * a == num * (k * a) by {
      assert num * k * a == num * (k * a);
    }
    MulMod(k * a, num, p % WORD16);
  }

  lemma SameSlot(a: nat, b: nat, num: nat)
    requires 0 < num && Slot(a, num) == Slot(b, num)
    requires a <= b < a + num
    ensures a == b
  {
    assert b - a == num * (b / num - a / num);
    SmallMultiple(num, b / num - a / num);
  }

  /** Counters less than one ring apart occupy different slots. */
  lemma SlotsDistinct(a: nat, b: nat, num: nat)
    requires 0 < num
    requires a < b < a + num
    ensures Slot(a, num) != Slot(b, num)
  {
    if Slot(a, num) == Slot(b, num) {
      SameSlot(a, b, num);
    }
  }

  /** The event lies in the unwrapped window of entries `prev <= e < new`. */
  ghost predicate InWindow(event: U16, prev: nat, next: nat) {
    exists e: nat :: prev <= e < next && Low16(e) == event
  }

  /** The 16-bit test is exact on counters: it answers whether the other side's event index was
      passed between the two counters, for any distance below 2^16. */
  lemma NeedEventExact(event: U16, prev: nat, next: nat)
    requires prev <= next < prev + WORD16
    ensures NeedEvent(event, Low16(next), Low16(prev)) <==> InWindow(event, prev, next)
  {
    hide Low16;
    Low16Difference(prev, next);
    var back := Low16(Low16(next) - event - 1);
    if NeedEvent(event, Low16(next), Low16(prev)) {
      LastBefore(event, next);
      assert prev <= next - 1 - back < next;
    }
    if InWindow(event, prev, next) {
      var e: nat :| prev <= e < next && Low16(e) == event;
      DistanceBack(e, next);
    }
  }

  /** The newest counter before `next` whose low 16 bits are `event`, when there is one. */
  lemma LastBefore(event: U16, next: nat)
    ensures var e := next - 1 - Low16(Low16(next) - event - 1);
            e >= 0 ==> Low16(e) == event
  {
  }

  lemma DistanceBack(e: nat, next: nat)
    requires e < next <= e + WORD16
    ensures Low16(Low16(next) - Low16(e) - 1) == next - 1 - e
  {
  }
}
