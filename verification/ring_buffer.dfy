/**
 A fixed-capacity circular FIFO of integers.

 The buffer owns `C` backing slots (`C == |storage|`, always at least 1),
 a write cursor `head` (the slot the next push writes), a read cursor
 `tail` (the slot of the oldest live element) and a live-element count
 `size`. When `head == tail` the buffer is either empty or full, and only
 `size` tells the two apart.

 The abstraction function `Contents` reads the live window oldest first;
 every operation is stated against it.
 */
module RingBuffers {

  /** `size_t` arithmetic wraps modulo 2^64. */
  const SizeTModulus: int := 0x1_0000_0000_0000_0000

  datatype RingBuffer = RingBuffer(storage: seq<int>, head: nat, tail: nat, size: nat)

  /** Outcome of `TryPush`: whether the value was accepted, and the new buffer. */
  datatype PushResult = PushResult(ok: bool, buffer: RingBuffer)

  /** Outcome of `TryPop`: whether an element was removed, the value of the
      caller's out-parameter afterwards, and the new buffer. */
  datatype PopResult = PopResult(ok: bool, value: int, buffer: RingBuffer)

  /** The representation invariant: cursors inside the storage, at most `C`
      live elements, and `head` exactly `size` slots past `tail`. */
  predicate Valid(b: RingBuffer) {
    && |b.storage| >= 1
    && b.head < |b.storage|
    && b.tail < |b.storage|
    && b.size <= |b.storage|
    && b.head == Wrap(b.tail + b.size, |b.storage|)
  }

  /** `x mod c` for `x < 2c`, written as the single subtraction it amounts to. */
  function Wrap(x: nat, c: nat): (k: nat)
    requires c >= 1 && x < 2 * c
    ensures k < c
  {
    if x < c then x else x - c
  }

  /** Storage slot of the live element at logical index `i` (0 is the oldest):
      `(tail + i) mod C`. */
  function Slot(b: RingBuffer, i: nat): (k: nat)
    requires b.tail < |b.storage| && i < |b.storage|
    ensures k < |b.storage|
  {
    Wrap(b.tail + i, |b.storage|)
  }

  /** The live elements, oldest first. */
  function Contents(b: RingBuffer): (s: seq<int>)
    requires Valid(b)
    ensures |s| == b.size
  {
    seq(b.size, i requires 0 <= i < b.size => b.storage[Slot(b, i)])
  }

  function Min(a: nat, b: nat): nat {
    if a <= b then a else b
  }

  /** A requested capacity of 0 becomes 1. */
  function EffectiveCapacity(capacity: nat): (c: nat)
    ensures c >= 1
    ensures capacity >= 1 ==> c == capacity
  {
    if capacity == 0 then 1 else capacity
  }

  // ---------------------------------------------------------------------
  // Modular-arithmetic helpers
  // ---------------------------------------------------------------------

  /** Below `2c`, reduction modulo `c` is `Wrap`. */
  lemma ModBelowTwice(x: nat, c: nat)
    requires c >= 1 && x < 2 * c
    ensures x % c == Wrap(x, c)
  {
    if x < c {
      assert x == c * 0 + x;
    } else {
      assert x == c * 1 + (x - c);
    }
  }

  /** The source's cursor advance `(k + 1) % C`. */
  function Next(k: nat, c: nat): (n: nat)
    requires k < c
    ensures n == Wrap(k + 1, c)
  {
    ModBelowTwice(k + 1, c);
    (k + 1) % c
  }

  /** Slots of distinct logical indices below `C` are distinct. */
  lemma SlotInjective(b: RingBuffer, i: nat, j: nat)
    requires b.tail < |b.storage|
    requires i < |b.storage| && j < |b.storage| && i != j
    ensures Slot(b, i) != Slot(b, j)
  {
  }

  /** Moving `tail` one slot forward shifts every logical index by one. */
  lemma SlotAfterAdvance(b: RingBuffer, i: nat)
    requires b.tail < |b.storage|
    requires i + 1 < |b.storage|
    ensures Slot(b.(tail := Next(b.tail, |b.storage|)), i) == Slot(b, i + 1)
  {
  }

  // ---------------------------------------------------------------------
  // Constructors
  // ---------------------------------------------------------------------

  /** `RingBuffer()`: one slot, empty. */
  function Default(): (b: RingBuffer)
    ensures Valid(b)
    ensures Contents(b) == []
    ensures Capacity(b) == 1
  {
    RingBuffer([0], 0, 0, 0)
  }

  /** `RingBuffer(capacity)`: an empty buffer with `max(capacity, 1)` slots. */
  function WithCapacity(capacity: nat): (b: RingBuffer)
    ensures Valid(b)
    ensures Contents(b) == []
    ensures Capacity(b) == EffectiveCapacity(capacity)
  {
    RingBuffer(seq(EffectiveCapacity(capacity), _ => 0), 0, 0, 0)
  }

  /** `RingBuffer(capacity, value)`: a full buffer of `max(capacity, 1)`
      copies of `value`. */
  function Filled(capacity: nat, value: int): (b: RingBuffer)
    ensures Valid(b)
    ensures Full(b)
    ensures Capacity(b) == EffectiveCapacity(capacity)
    ensures |Contents(b)| == EffectiveCapacity(capacity)
    ensures forall i :: 0 <= i < |Contents(b)| ==> Contents(b)[i] == value
  {
    var c := EffectiveCapacity(capacity);
    RingBuffer(seq(c, _ => value), 0, 0, c)
  }

  /** `RingBuffer{...}`: a full buffer holding `list` in order, or an empty
      one-slot buffer when `list` is empty. */
  function FromList(list: seq<int>): (b: RingBuffer)
    ensures Valid(b)
    ensures Contents(b) == list
    ensures Capacity(b) == if list == [] then 1 else |list|
    ensures list != [] ==> Full(b)
  {
    if list != [] then
      assert Contents(RingBuffer(list, 0, 0, |list|)) == list by {
        forall i | 0 <= i < |list| ensures Slot(RingBuffer(list, 0, 0, |list|), i) == i {
          ModBelowTwice(i, |list|);
        }
      }
      RingBuffer(list, 0, 0, |list|)
    else
      RingBuffer([0], 0, 0, 0)
  }

  // ---------------------------------------------------------------------
  // Queries
  // ---------------------------------------------------------------------

  function Size(b: RingBuffer): (n: nat)
    requires Valid(b)
    ensures n == |Contents(b)|
    ensures n <= Capacity(b)
  {
    b.size
  }

  /** The number of slots: at least one, and never fewer than the live
      elements. */
  function Capacity(b: RingBuffer): (c: nat)
    requires Valid(b)
    ensures c >= 1
    ensures |Contents(b)| <= c
  {
    |b.storage|
  }

  predicate Empty(b: RingBuffer)
    requires Valid(b)
    ensures Empty(b) <==> Contents(b) == []
  {
    b.size == 0
  }

  predicate Full(b: RingBuffer)
    requires Valid(b)
    ensures Full(b) <==> |Contents(b)| == Capacity(b)
  {
    b.size == |b.storage|
  }

  /** An empty buffer is never full, because `C >= 1`. */
  lemma EmptyAndFullExclusive(b: RingBuffer)
    requires Valid(b)
    ensures !(Empty(b) && Full(b))
  {
  }

  /** `Back()`: the slot at `tail`; on a non-empty buffer the oldest element. */
  function Back(b: RingBuffer): (v: int)
    requires Valid(b)
    ensures b.size > 0 ==> v == Contents(b)[0]
  {
    b.storage[b.tail]
  }

  /** `Front()`: the slot before `head`; on a non-empty buffer the newest
      element. Where the source's `head - 1` is defined (`head > 0`) this is
      the same slot. */
  function Front(b: RingBuffer): (v: int)
    requires Valid(b)
    ensures b.size > 0 ==> v == Contents(b)[b.size - 1]
    ensures b.head > 0 ==> v == b.storage[b.head - 1]
  {
    var c := |b.storage|;
    ModBelowTwice(b.head + c - 1, c);
    b.storage[(b.head + c - 1) % c]
  }

  /** `operator[](idx)`: the slot `idx` past `tail`, with no bound check.
      `idx` is a `size_t` and so is the sum `tail + idx`, which wraps modulo
      2^64 before it is reduced modulo `C`. A `std::vector<int>` never holds
      2^63 elements, and below that the sum for an index under `size` cannot
      wrap. */
  function At(b: RingBuffer, idx: nat): (v: int)
    requires Valid(b) && idx < SizeTModulus
    ensures idx < b.size && Capacity(b) <= SizeTModulus / 2 ==> v == Contents(b)[idx]
    ensures v in b.storage
  {
    var c := |b.storage|;
    var sum := (b.tail + idx) % SizeTModulus;
    assert idx < b.size && c <= SizeTModulus / 2 ==> sum % c == Slot(b, idx) by {
      if idx < b.size && c <= SizeTModulus / 2 {
        SizeTNoWrap(b.tail + idx);
        ModBelowTwice(b.tail + idx, c);
      }
    }
    b.storage[sum % c]
  }

  /** A `size_t` value below 2^64 is its own reduction. */
  lemma SizeTNoWrap(x: nat)
    requires x < SizeTModulus
    ensures x % SizeTModulus == x
  {
    assert x == SizeTModulus * 0 + x;
  }

  /** An index near 2^64 makes `tail + idx` wrap: with `C == 3`, `tail == 1`
      and `idx == 2^64 - 1` the sum is 0 in `size_t`, so `operator[]` reads
      slot 0 and not slot `(1 + 2^64 - 1) mod 3 == 1`. */
  lemma AtWrapsSizeT()
    ensures var b := RingBuffer([10, 20, 30], 1, 1, 0);
      && Valid(b)
      && At(b, SizeTModulus - 1) == 10
      && b.storage[(b.tail + SizeTModulus - 1) % |b.storage|] == 20
  {
    var b := RingBuffer([10, 20, 30], 1, 1, 0);
    assert b.tail + SizeTModulus - 1 == SizeTModulus * 1 + 0;
    assert SizeTModulus == 3 * 6148914691236517205 + 1;
  }

  // ---------------------------------------------------------------------
  // Mutators (as functions returning the new state)
  // ---------------------------------------------------------------------

  /** `Push(value)`: writes at `head`; when full, also evicts the oldest
      element by advancing `tail`. */
  function Push(b: RingBuffer, value: int): (r: RingBuffer)
    requires Valid(b)
    ensures Valid(r)
    ensures Capacity(r) == Capacity(b)
    ensures !Full(b) ==> Contents(r) == Contents(b) + [value]
    ensures !Full(b) ==> r.tail == b.tail && r.size == b.size + 1
    ensures Full(b) ==> Contents(r) == Contents(b)[1..] + [value]
    ensures Full(b) ==> r.size == b.size
    ensures r.head == (b.head + 1) % Capacity(b)
  {
    var c := |b.storage|;
    if b.size < c then
      PushAppends(b, value);
      Appended(b, value)
    else
      PushEvicts(b, value);
      RingBuffer(b.storage[b.head := value], Next(b.head, c), Next(b.tail, c), b.size)
  }

  /** The non-evicting write shared by `Push` and `TryPush`. */
  function Appended(b: RingBuffer, value: int): (r: RingBuffer)
    requires Valid(b)
  {
    RingBuffer(b.storage[b.head := value], Next(b.head, |b.storage|), b.tail, b.size + 1)
  }

  lemma PushAppends(b: RingBuffer, value: int)
    requires Valid(b) && b.size < |b.storage|
    ensures Valid(Appended(b, value))
    ensures Contents(Appended(b, value)) == Contents(b) + [value]
  {
    var r := Appended(b, value);
    assert Valid(r);
    forall i | 0 <= i < b.size
      ensures Contents(r)[i] == Contents(b)[i]
    {
      SlotInjective(b, i, b.size);
    }
  }

  lemma PushEvicts(b: RingBuffer, value: int)
    requires Valid(b) && b.size == |b.storage|
    ensures var c := |b.storage|;
      var r := RingBuffer(b.storage[b.head := value], Next(b.head, c), Next(b.tail, c), b.size);
      Valid(r) && Contents(r) == Contents(b)[1..] + [value]
  {
    var c := |b.storage|;
    var r := RingBuffer(b.storage[b.head := value], Next(b.head, c), Next(b.tail, c), b.size);
    assert b.head == b.tail;
    assert Valid(r);
    forall i | 0 <= i < c
      ensures Contents(r)[i] == (Contents(b)[1..] + [value])[i]
    {
      if i < c - 1 {
        SlotAfterAdvance(b, i);
        SlotInjective(b, i + 1, 0);
      }
    }
  }

  /** `TryPush(value)`: rejects with no change when full; otherwise writes
      at `head` without evicting. */
  function TryPush(b: RingBuffer, value: int): (r: PushResult)
    requires Valid(b)
    ensures Valid(r.buffer)
    ensures r.ok <==> !Full(b)
    ensures !r.ok ==> r.buffer == b
    ensures r.ok ==> Contents(r.buffer) == Contents(b) + [value]
    ensures r.ok ==> r.buffer == Push(b, value)
  {
    if b.size == |b.storage| then
      PushResult(false, b)
    else
      PushAppends(b, value);
      PushResult(true, Appended(b, value))
  }

  /** The tail advance shared by `Pop` and `TryPop`. */
  function Dropped(b: RingBuffer): (r: RingBuffer)
    requires Valid(b) && b.size > 0
  {
    RingBuffer(b.storage, b.head, Next(b.tail, |b.storage|), b.size - 1)
  }

  lemma PopDrops(b: RingBuffer)
    requires Valid(b) && b.size > 0
    ensures Valid(Dropped(b))
    ensures Contents(Dropped(b)) == Contents(b)[1..]
  {
    var r := Dropped(b);
    assert Valid(r);
    forall i | 0 <= i < r.size
      ensures Contents(r)[i] == Contents(b)[i + 1]
    {
      SlotAfterAdvance(b, i);
    }
  }

  /** `Pop()`: drops the oldest element; a no-op on an empty buffer. */
  function Pop(b: RingBuffer): (r: RingBuffer)
    requires Valid(b)
    ensures Valid(r)
    ensures r.storage == b.storage
    ensures Empty(b) ==> r == b
    ensures !Empty(b) ==> Contents(r) == Contents(b)[1..]
  {
    if b.size > 0 then
      PopDrops(b);
      Dropped(b)
    else
      b
  }

  /** `TryPop(val)`: on a non-empty buffer moves the oldest element into
      `val`; on an empty one reports failure and leaves `val` as it was. */
  function TryPop(b: RingBuffer, val: int): (r: PopResult)
    requires Valid(b)
    ensures Valid(r.buffer)
    ensures r.ok <==> !Empty(b)
    ensures r.ok ==> r.value == Contents(b)[0] && Contents(r.buffer) == Contents(b)[1..]
    ensures !r.ok ==> r.value == val && r.buffer == b
    ensures r.buffer == Pop(b)
  {
    if b.size > 0 then
      PopDrops(b);
      PopResult(true, b.storage[b.tail], Dropped(b))
    else
      PopResult(false, val, b)
  }

  /** `Clear()`: forgets every element; the storage is left as it was. */
  function Clear(b: RingBuffer): (r: RingBuffer)
    requires Valid(b)
    ensures Valid(r) && Contents(r) == []
    ensures r.storage == b.storage
    ensures r.head == 0 && r.tail == 0
  {
    RingBuffer(b.storage, 0, 0, 0)
  }

  /** Clearing twice is clearing once. */
  lemma ClearIdempotent(b: RingBuffer)
    requires Valid(b)
    ensures Clear(Clear(b)) == Clear(b)
  {
  }

  // ---------------------------------------------------------------------
  // Export and resize (loops, as in the source)
  // ---------------------------------------------------------------------

  /** `Vector()`: the live elements, oldest first, read slot by slot. */
  method Vector(b: RingBuffer) returns (v: seq<int>)
    requires Valid(b)
    ensures |v| == Size(b)
    ensures Capacity(b) <= SizeTModulus / 2 ==> forall i :: 0 <= i < |v| ==> v[i] == At(b, i)
    ensures v == Contents(b)
  {
    var c := |b.storage|;
    v := [];
    var i := 0;
    while i < b.size
      invariant i <= b.size
      invariant v == Contents(b)[..i]
    {
      ModBelowTwice(b.tail + i, c);
      v := v + [b.storage[(b.tail + i) % c]];
      i := i + 1;
    }
  }

  /** The backing store after `std::vector::resize(n)`: truncated, or
      extended with zero slots. */
  function ResizeStorage(s: seq<int>, n: nat): (t: seq<int>)
    ensures |t| == n
    ensures forall i :: 0 <= i < n ==> t[i] == if i < |s| then s[i] else 0
  {
    if n <= |s| then s[..n] else s + seq(n - |s|, _ => 0)
  }

  /** The first loop of `Resize`: the `k` slots from `tail` on, in logical
      order. Within the live window they are the oldest `k` elements. */
  method ReadOldest(b: RingBuffer, k: nat) returns (temp: seq<int>)
    requires Valid(b)
    requires k <= Capacity(b)
    ensures |temp| == k
    ensures forall j :: 0 <= j < k ==> temp[j] == b.storage[Slot(b, j)]
    ensures k <= Size(b) ==> temp == Contents(b)[..k]
  {
    var c := |b.storage|;
    temp := [];
    var i := 0;
    while i < k
      invariant i <= k
      invariant |temp| == i
      invariant forall j :: 0 <= j < i ==> temp[j] == b.storage[Slot(b, j)]
    {
      ModBelowTwice(b.tail + i, c);
      temp := temp + [b.storage[(b.tail + i) % c]];
      i := i + 1;
    }
  }

  /** The second loop of `Resize`: `temp` written over the first slots of
      `storage`; the later slots keep their values. */
  method WriteFront(storage: seq<int>, temp: seq<int>) returns (s: seq<int>)
    requires |temp| <= |storage|
    ensures |s| == |storage|
    ensures s[..|temp|] == temp
    ensures s[|temp|..] == storage[|temp|..]
  {
    s := storage;
    var i := 0;
    while i < |temp|
      invariant i <= |temp|
      invariant |s| == |storage|
      invariant s[..i] == temp[..i]
      invariant s[|temp|..] == storage[|temp|..]
    {
      s := s[i := temp[i]];
      i := i + 1;
    }
  }

  /** A buffer whose `k` live elements start at slot 0 holds the first `k`
      slots. */
  lemma Anchored(s: seq<int>, k: nat)
    requires 1 <= |s| && k <= |s|
    ensures Valid(RingBuffer(s, Wrap(k, |s|), 0, k))
    ensures Contents(RingBuffer(s, Wrap(k, |s|), 0, k)) == s[..k]
  {
    var r := RingBuffer(s, Wrap(k, |s|), 0, k);
    forall j | 0 <= j < k
      ensures Contents(r)[j] == s[j]
    {
      assert Slot(r, j) == j;
    }
  }

  /** `Resize(newSize)`: keeps the oldest `min(size, newSize)` elements,
      re-anchored at slot 0. A no-op when `newSize` is the capacity. As in
      the source, a buffer with nothing to keep still keeps one element:
      the stale slot at `tail`. */
  method Resize(b: RingBuffer, newSize: nat) returns (r: RingBuffer)
    requires Valid(b)
    requires newSize >= 1
    ensures Valid(r)
    ensures newSize == Capacity(b) ==> r == b
    ensures newSize != Capacity(b) ==> Capacity(r) == newSize && r.tail == 0
    ensures newSize != Capacity(b) && !Empty(b) ==>
              Contents(r) == Contents(b)[..Min(Size(b), newSize)]
    ensures newSize != Capacity(b) && Empty(b) ==> Contents(r) == [b.storage[b.tail]]
  {
    var c := |b.storage|;
    if newSize == c {
      return b;
    }
    var sz := Min(b.size, newSize);
    if sz == 0 {
      sz := 1;
    }
    var temp := ReadOldest(b, sz);
    var storage := WriteFront(ResizeStorage(b.storage, newSize), temp);
    ModBelowTwice(sz, newSize);
    Anchored(storage, sz);
    r := RingBuffer(storage, sz % newSize, 0, sz);
    if b.size == 0 {
      assert Slot(b, 0) == b.tail;
    }
  }

  // ---------------------------------------------------------------------
  // Sequences of pushes
  // ---------------------------------------------------------------------

  /** Pushing each value of `vs` in turn. */
  function PushAll(b: RingBuffer, vs: seq<int>): (r: RingBuffer)
    requires Valid(b)
    ensures Valid(r)
    ensures Capacity(r) == Capacity(b)
    decreases |vs|
  {
    if vs == [] then b else PushAll(Push(b, vs[0]), vs[1..])
  }

  /** The last `n` elements of `s` (all of `s` when it is shorter). */
  function Newest(s: seq<int>, n: nat): (t: seq<int>)
    ensures |t| == Min(|s|, n)
  {
    s[|s| - Min(|s|, n)..]
  }

  lemma NewestOfNewest(s: seq<int>, t: seq<int>, n: nat)
    ensures Newest(Newest(s, n) + t, n) == Newest(s + t, n)
  {
    var k := |s| - Min(|s|, n);
    assert Newest(s, n) + t == (s + t)[k..];
  }

  /** One push keeps the newest `C` of the old contents and the value. */
  lemma PushKeepsNewest(b: RingBuffer, value: int)
    requires Valid(b)
    ensures Contents(Push(b, value)) == Newest(Contents(b) + [value], Capacity(b))
  {
  }

  /** After any run of pushes the buffer holds the newest `C` values of its
      old contents followed by the pushed values, oldest first. */
  lemma {:induction false} PushAllKeepsNewest(b: RingBuffer, vs: seq<int>)
    requires Valid(b)
    ensures Contents(PushAll(b, vs)) == Newest(Contents(b) + vs, Capacity(b))
    decreases |vs|
  {
    if vs == [] {
      assert Contents(b) + vs == Contents(b);
    } else {
      var b' := Push(b, vs[0]);
      PushAllKeepsNewest(b', vs[1..]);
      PushKeepsNewest(b, vs[0]);
      NewestStep(Contents(b), Contents(b'), vs, Capacity(b));
    }
  }

  /** If `t` is the newest `n` of `s + [v0]`, then the newest `n` of
      `t + rest` are the newest `n` of `s + ([v0] + rest)`. */
  lemma NewestStep(s: seq<int>, t: seq<int>, vs: seq<int>, n: nat)
    requires vs != []
    requires t == Newest(s + [vs[0]], n)
    ensures Newest(t + vs[1..], n) == Newest(s + vs, n)
  {
    NewestOfNewest(s + [vs[0]], vs[1..], n);
    assert s + [vs[0]] + vs[1..] == s + vs;
  }

  /** Once at least `C` values have been pushed the buffer is full and holds
      exactly the last `C` of them. */
  lemma PushAllFillsWithLatest(b: RingBuffer, vs: seq<int>)
    requires Valid(b)
    requires |vs| >= Capacity(b)
    ensures Full(PushAll(b, vs))
    ensures Contents(PushAll(b, vs)) == vs[|vs| - Capacity(b)..]
  {
    PushAllKeepsNewest(b, vs);
    NewestOfLongSuffix(Contents(b), vs, Capacity(b));
  }

  /** When `t` alone has at least `n` elements, the newest `n` of `s + t`
      all come from `t`. */
  lemma NewestOfLongSuffix(s: seq<int>, t: seq<int>, n: nat)
    requires |t| >= n
    ensures Newest(s + t, n) == t[|t| - n..]
  {
    var u := s + t;
    assert u[|u| - n..] == t[|t| - n..];
  }

  /** Capacity 3: pushing 1, 2, 3 fills the buffer; pushing 4 evicts 1;
      `TryPop` yields 2; `TryPush(5)` succeeds and leaves 3, 4, 5. */
  lemma ThreeSlotScenario()
    ensures var b := PushAll(WithCapacity(3), [1, 2, 3]);
      && Full(b) && Contents(b) == [1, 2, 3]
      && Contents(Push(b, 4)) == [2, 3, 4]
      && TryPop(Push(b, 4), 0).value == 2
      && Size(TryPop(Push(b, 4), 0).buffer) == 2
      && TryPush(TryPop(Push(b, 4), 0).buffer, 5).ok
      && Contents(TryPush(TryPop(Push(b, 4), 0).buffer, 5).buffer) == [3, 4, 5]
  {
    var b := PushAll(WithCapacity(3), [1, 2, 3]);
    PushAllFillsWithLatest(WithCapacity(3), [1, 2, 3]);
    assert [1, 2, 3][1..] == [2, 3];
    var p := TryPop(Push(b, 4), 0);
    assert Contents(p.buffer) == [3, 4];
  }
}
