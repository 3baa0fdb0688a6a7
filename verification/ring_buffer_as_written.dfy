/**
 The ring buffer's behaviour where it differs from the model in
 `RingBuffers`: the `isFull` / `isEmpty` flags the class keeps beside
 `size`, the unreduced `head` its fill and list constructors leave, and
 the `head - 1` read in `Front`. Each is related to the corrected
 definition in `RingBuffers`.
 */
module RingBufferAsWritten {
  import opened RingBuffers

  // ---------------------------------------------------------------------
  // The isFull / isEmpty flags
  // ---------------------------------------------------------------------

  /** A buffer together with the two flags the class stores. */
  datatype Flagged = Flagged(buf: RingBuffer, isFull: bool, isEmpty: bool)

  /** Outcome of the flagged `TryPush`: whether the value was accepted, and
      the new buffer with its flags. */
  datatype FlaggedPushResult = FlaggedPushResult(ok: bool, flagged: Flagged)

  /** Outcome of the flagged `TryPop`: whether an element was removed, the
      caller's out-parameter afterwards, and the new buffer with its flags. */
  datatype FlaggedPopResult = FlaggedPopResult(ok: bool, value: int, flagged: Flagged)

  /** What the flags can be relied on for, on states reached without
      `Resize`: `isFull` is exact, while `isEmpty` only ever errs towards
      `false`. `Resize` touches neither flag and breaks both (see
      `FlaggedResize`). */
  predicate FlagsSound(f: Flagged) {
    && Valid(f.buf)
    && (f.isFull <==> Full(f.buf))
    && (f.isEmpty ==> Empty(f.buf))
  }

  /** `RingBuffer(capacity)`: flags keep their defaults, not full and empty. */
  function FlaggedWithCapacity(capacity: nat): (f: Flagged)
    ensures FlagsSound(f)
    ensures f.isEmpty && !f.isFull
  {
    Flagged(WithCapacity(capacity), false, true)
  }

  /** `RingBuffer(capacity, value)`: starts full. */
  function FlaggedFilled(capacity: nat, value: int): (f: Flagged)
    ensures FlagsSound(f)
    ensures f.isFull && !f.isEmpty
  {
    Flagged(Filled(capacity, value), true, false)
  }

  /** `RingBuffer{...}`: full unless the list is empty. */
  function FlaggedFromList(list: seq<int>): (f: Flagged)
    ensures FlagsSound(f)
    ensures f.isEmpty <==> list == []
  {
    if list != [] then Flagged(FromList(list), true, false)
    else Flagged(FromList(list), false, true)
  }

  /** `Push`: clears `isEmpty`, and sets `isFull` once `size` reaches the
      capacity (it never clears it). */
  function FlaggedPush(f: Flagged, value: int): (r: Flagged)
    requires FlagsSound(f)
    ensures FlagsSound(r)
    ensures r.buf == Push(f.buf, value)
    ensures !r.isEmpty
  {
    var b := Push(f.buf, value);
    Flagged(b, if b.size == |b.storage| then true else f.isFull, false)
  }

  /** `TryPush`: decides on the `isFull` flag, not on `size`. */
  function FlaggedTryPush(f: Flagged, value: int): (r: FlaggedPushResult)
    requires FlagsSound(f)
    ensures FlagsSound(r.flagged)
    ensures r.ok == TryPush(f.buf, value).ok
    ensures r.flagged.buf == TryPush(f.buf, value).buffer
  {
    if f.isFull then
      FlaggedPushResult(false, f)
    else
      var b := TryPush(f.buf, value).buffer;
      FlaggedPushResult(true, Flagged(b, if b.size == |b.storage| then true else f.isFull, false))
  }

  /** `Pop`: clears `isFull`; sets `isEmpty` only when nothing was left to
      pop, not when the last element goes. */
  function FlaggedPop(f: Flagged): (r: Flagged)
    requires FlagsSound(f)
    ensures FlagsSound(r)
    ensures r.buf == Pop(f.buf)
  {
    if f.buf.size > 0 then Flagged(Pop(f.buf), false, f.isEmpty)
    else Flagged(f.buf, false, true)
  }

  /** `TryPop`: the same flag updates as `Pop`. */
  function FlaggedTryPop(f: Flagged, val: int): (r: FlaggedPopResult)
    requires FlagsSound(f)
    ensures FlagsSound(r.flagged)
    ensures r.ok == TryPop(f.buf, val).ok
    ensures r.value == TryPop(f.buf, val).value
    ensures r.flagged.buf == TryPop(f.buf, val).buffer
  {
    var p := TryPop(f.buf, val);
    if f.buf.size > 0 then FlaggedPopResult(p.ok, p.value, Flagged(p.buffer, false, f.isEmpty))
    else FlaggedPopResult(p.ok, p.value, Flagged(p.buffer, false, true))
  }

  /** `Clear`: resets both flags. */
  function FlaggedClear(f: Flagged): (r: Flagged)
    requires FlagsSound(f)
    ensures FlagsSound(r)
    ensures r.buf == Clear(f.buf)
    ensures r.isEmpty
  {
    Flagged(Clear(f.buf), false, true)
  }

  /** `Resize(newSize)`: resizes the buffer and leaves both flags as they
      were. Resizing an empty buffer to another capacity keeps one element
      (the count is bumped from 0 to 1), yet `isEmpty` stays true, so the
      class's `Empty()` then reports an empty buffer of size 1. */
  method FlaggedResize(f: Flagged, newSize: nat) returns (r: Flagged)
    requires Valid(f.buf)
    requires newSize >= 1
    ensures Valid(r.buf)
    ensures r.isFull == f.isFull && r.isEmpty == f.isEmpty
    ensures newSize == Capacity(f.buf) ==> r == f
    ensures newSize != Capacity(f.buf) ==> Capacity(r.buf) == newSize
    ensures newSize != Capacity(f.buf) && !Empty(f.buf) ==>
              Contents(r.buf) == Contents(f.buf)[..Min(Size(f.buf), newSize)]
    ensures newSize != Capacity(f.buf) && Empty(f.buf) ==>
              Size(r.buf) == 1 && !Empty(r.buf) && (f.isEmpty ==> r.isEmpty && !FlagsSound(r))
  {
    var b := Resize(f.buf, newSize);
    r := Flagged(b, f.isFull, f.isEmpty);
  }

  /** The stale-`true` case: `RingBuffer()` then `Resize(2)` leaves one
      element while `isEmpty` still holds. */
  method StaleEmptyAfterResize() returns (r: Flagged)
    ensures Valid(r.buf)
    ensures r.isEmpty && Size(r.buf) == 1 && !Empty(r.buf)
    ensures !FlagsSound(r)
  {
    var f := Flagged(Default(), false, true);
    r := FlaggedResize(f, 2);
  }

  /** The stale-`isFull` case: `RingBuffer(2, 5)` then `Resize(3)` keeps
      both elements in three slots, yet `isFull` still holds, so the class's
      `Full()` answers true and its `TryPush` rejects a value that fits. */
  method StaleFullAfterResize() returns (r: Flagged)
    ensures Valid(r.buf)
    ensures r.isFull && Size(r.buf) == 2 && Capacity(r.buf) == 3
    ensures !Full(r.buf) && TryPush(r.buf, 1).ok
    ensures !FlagsSound(r)
  {
    r := FlaggedResize(FlaggedFilled(2, 5), 3);
  }

  /** The class's `Empty()` goes stale: one push into a one-slot buffer and
      one pop leave `size == 0`, yet `isEmpty` is still false. */
  lemma StaleEmptyAfterLastPop()
    ensures var f := FlaggedPop(FlaggedPush(FlaggedWithCapacity(1), 7));
      !f.isEmpty && Empty(f.buf) && Size(f.buf) == 0
  {
    var f0 := FlaggedWithCapacity(1);
    var f1 := FlaggedPush(f0, 7);
    assert Contents(f1.buf) == [7];
  }

  // ---------------------------------------------------------------------
  // The unreduced head of the fill and list constructors
  // ---------------------------------------------------------------------

  /** `head` as the fill constructor stores it: the requested capacity,
      taken before 0 is bumped to 1. */
  function FilledHeadAsWritten(capacity: nat): nat {
    capacity
  }

  /** `head` as the list constructor stores it: the list's length. */
  function FromListHeadAsWritten(list: seq<int>): nat {
    |list|
  }

  /** For any positive capacity the stored `head` equals `C`, one past the
      last slot, so the next `Push` writes `ringBuff[C]`; reduced modulo `C`
      it is the `head` of the corrected constructor. */
  lemma FilledHeadOutOfRange(capacity: nat, value: int)
    requires capacity >= 1
    ensures FilledHeadAsWritten(capacity) == Capacity(Filled(capacity, value))
    ensures FilledHeadAsWritten(capacity) % Capacity(Filled(capacity, value)) == Filled(capacity, value).head
  {
    assert capacity == capacity * 1 + 0;
  }

  /** The same for a non-empty initializer list. */
  lemma FromListHeadOutOfRange(list: seq<int>)
    requires list != []
    ensures FromListHeadAsWritten(list) == Capacity(FromList(list))
    ensures FromListHeadAsWritten(list) % Capacity(FromList(list)) == FromList(list).head
  {
    assert |list| == |list| * 1 + 0;
  }

  /** With `head` reduced, a push after the fill constructor evicts the
      oldest copy as intended. */
  lemma PushAfterFilled()
    ensures Contents(Push(Filled(2, 5), 1)) == [5, 1]
  {
    var b := Filled(2, 5);
    assert Contents(b) == [5, 5];
  }

  /** With `head` reduced, a push after the list constructor evicts the
      oldest element as intended. */
  lemma PushAfterFromList()
    ensures Contents(Push(FromList([1, 2]), 3)) == [2, 3]
  {
    var b := FromList([1, 2]);
    assert Contents(b) == [1, 2];
  }

  // ---------------------------------------------------------------------
  // Front's head - 1
  // ---------------------------------------------------------------------

  /** The slot `Front()` reads: `head - 1` in `size_t` arithmetic. */
  function FrontIndexAsWritten(b: RingBuffer): nat {
    (b.head - 1) % SizeTModulus
  }

  /** Where `head > 0` the source's slot is the corrected one (a storage
      of `C` slots has `C <= 2^64`). */
  lemma FrontIndexAgrees(b: RingBuffer)
    requires Valid(b) && b.head > 0
    requires Capacity(b) <= SizeTModulus
    ensures FrontIndexAsWritten(b) < Capacity(b)
    ensures b.storage[FrontIndexAsWritten(b)] == Front(b)
  {
    var k: int := b.head - 1;
    assert 0 <= k < SizeTModulus;
    assert k == SizeTModulus * 0 + k;
    assert FrontIndexAsWritten(b) == k;
  }

  /** Two pushes into an empty two-slot buffer wrap `head` back to 0. */
  lemma TwoPushesWrapHead()
    ensures Push(Push(WithCapacity(2), 1), 2) == RingBuffer([1, 2], 0, 0, 2)
  {
    var b0 := RingBuffer([0, 0], 0, 0, 0);
    assert WithCapacity(2) == b0;
    assert Next(0, 2) == 1 && Next(1, 2) == 0;
    var b1 := RingBuffer([1, 0], 1, 0, 1);
    assert Push(b0, 1) == Appended(b0, 1) == b1;
    assert Push(b1, 2) == Appended(b1, 2) == RingBuffer([1, 2], 0, 0, 2);
  }

  /** Two pushes into a two-slot buffer bring `head` back to 0; `Front()`
      then reads slot 2^64 - 1, far outside the storage, while the newest
      element is 2. */
  lemma FrontUnderflowsAfterWrap()
    ensures var b := Push(Push(WithCapacity(2), 1), 2);
      && b.head == 0
      && FrontIndexAsWritten(b) == SizeTModulus - 1
      && FrontIndexAsWritten(b) >= Capacity(b)
      && Front(b) == 2
  {
    TwoPushesWrapHead();
    var b := RingBuffer([1, 2], 0, 0, 2);
    assert Front(b) == b.storage[1];
    assert b.head - 1 == SizeTModulus * -1 + (SizeTModulus - 1);
  }
}
