# Ring buffer, check flags and record comparisons

A Dafny model of three small C++ exercises and proofs of their properties.

- **`RingBuffer`** (`ring_buffer.dfy`, module `RingBuffers`) is a fixed-capacity circular FIFO of `int`.
  - The state is an immutable record `(storage, head, tail, size)` with `C == |storage|`.
  - `Valid` is the representation invariant: `C >= 1`, both cursors below `C`, `size <= C`, and `head == (tail + size) mod C`.
  - `Contents` is the abstraction function. It returns the live window `storage[(tail + i) mod C]` for `i < size`, oldest first.
  - Every constructor and operation is stated against `Contents` and keeps `Valid`. The operations are `Push`, `TryPush`, `Pop`, `TryPop`, `Front`, `Back`, `Empty`, `Full`, `Size`, `Capacity`, `Clear`, `Resize`, `Vector` and `operator[]`.
  - `Vector` and `Resize` are methods with loops, as in the source.
  - `PushAllKeepsNewest` covers any run of pushes: the buffer ends up holding the newest `C` values.
- **`RingBufferAsWritten`** (`ring_buffer_as_written.dfy`) models the parts of the class that `RingBuffers` corrects.
  - It models the `isFull`/`isEmpty` flags the class keeps beside `size`, including `Resize` leaving both untouched.
  - It models the unreduced `head` left by the fill and list constructors.
  - It models the `head - 1` read in `Front`.
  - Each is tied to the corrected definition by a lemma, with a concrete input where they differ.
- **`CheckFlags`** (`check_flags.dfy`) is the six-flag enumeration over `uint8_t`, modelled as `bv8`.
  - Each operator is specified bit by bit through `Has(f, i)`.
  - `|` is masked to `ALL`; `&`, `^` and `~` are not.
- **`EasyCompare`** (`easy_compare.dfy`) holds the comparison operators of `Date` and `StudentInfo`.
  - `LexLess` models the lexicographic `<` of `std::tuple`, which `std::tie` comparisons use.
  - `Date` orders by (year, month, day).
  - `StudentInfo`'s `<` is the lexicographic order of a mixed-direction key. It is proved a strict order.
  - Its `==` compares only `mark` and `score`.

Integer widths: the ring buffer's stored `size_t` cursors (`head`, `tail`, `size`) are `nat`. They never exceed `C`, so they never wrap. Two computed `size_t` values can wrap, and the model writes that wrap out modulo 2^64: the `tail + idx` sum in `operator[]` and the `head - 1` read in `Front`. The record fields use bounded newtypes (`U32`, `I32`, `I8`, `U64`); the comparisons only order them and never compute with them.

The model follows the code where the code does not check its inputs:

- `Front`, `Back` and `operator[]` do not check for an empty buffer or an index beyond `size`. The model raises no out-of-range error. It states the result for the defined cases.
- `Resize` on a buffer with nothing to keep bumps the kept count from 0 to 1. It keeps the stale slot at `tail` as a one-element buffer. The model reproduces this.
- `operator[]` computes `tail + idx` in `size_t`, so the sum wraps modulo 2^64. It then reduces the result modulo the storage length, with no bound check. `At` models both steps, and `AtWrapsSizeT` gives an index where the wrap changes the slot.

## Model

| member | source | states |
|---|---|---|
| RingBuffers.Default | 04_week/tasks/ring_buffer/ring_buffer.cpp:7 | the default buffer is valid, empty, with one slot |
| RingBuffers.WithCapacity | 04_week/tasks/ring_buffer/ring_buffer.cpp:9-14 | an empty valid buffer whose capacity is the request, with 0 coerced to 1 |
| RingBuffers.Filled | 04_week/tasks/ring_buffer/ring_buffer.cpp:16-25 | a full valid buffer of max(capacity,1) elements, every one equal to the fill value |
| RingBuffers.FromList | 04_week/tasks/ring_buffer/ring_buffer.cpp:27-42 | the contents are exactly the list and the buffer is full with capacity = list length; the empty list gives an empty one-slot buffer |
| RingBuffers.Size | 04_week/tasks/ring_buffer/ring_buffer.cpp:168-170 | the size is the number of live elements and never exceeds the capacity |
| RingBuffers.Capacity | 04_week/tasks/ring_buffer/ring_buffer.cpp:172-174 | the capacity is at least 1 and at least the number of live elements |
| RingBuffers.Empty | 04_week/tasks/ring_buffer/ring_buffer.cpp:159-161 | empty iff the contents are the empty sequence |
| RingBuffers.Full | 04_week/tasks/ring_buffer/ring_buffer.cpp:164-166 | full iff the number of live elements equals the capacity |
| RingBuffers.EmptyAndFullExclusive | 04_week/tasks/ring_buffer/ring_buffer.cpp:159-166 | no valid buffer is both empty and full |
| RingBuffers.Back | 04_week/tasks/ring_buffer/ring_buffer.cpp:151-157 | on a non-empty buffer Back is the oldest element, Contents[0] |
| RingBuffers.Front | 04_week/tasks/ring_buffer/ring_buffer.cpp:143-149 | on a non-empty buffer Front is the newest element, Contents[size-1]; whenever head > 0 it is the slot head-1 the source reads |
| RingBuffers.At | 04_week/tasks/ring_buffer/ring_buffer.cpp:60-66 | for an index below size, operator[] is the element at that logical position of the contents (for any vector small enough to exist, below 2^63 elements); for any index the result is some storage slot |
| RingBuffers.AtWrapsSizeT | 04_week/tasks/ring_buffer/ring_buffer.cpp:60-66 | the size_t sum tail + idx wraps before the reduction modulo C: with C = 3, tail = 1 and idx = 2^64-1 operator[] reads slot 0, not slot 1 |
| RingBuffers.Push | 04_week/tasks/ring_buffer/ring_buffer.cpp:77-95 | keeps the invariant and capacity; when not full appends the value, size+1, tail unchanged; when full drops the oldest and appends (contents[1..] + [v]), size stays C; head advances by one mod C |
| RingBuffers.TryPush | 04_week/tasks/ring_buffer/ring_buffer.cpp:97-116 | returns false and changes nothing iff full; otherwise returns true, appends the value and equals the non-evicting Push |
| RingBuffers.Pop | 04_week/tasks/ring_buffer/ring_buffer.cpp:118-127 | keeps the invariant and the storage; drops the oldest element; on an empty buffer changes nothing (size never goes below 0) |
| RingBuffers.TryPop | 04_week/tasks/ring_buffer/ring_buffer.cpp:129-141 | succeeds iff non-empty, then yields Contents[0] and leaves Contents[1..]; on an empty buffer fails with the out-value and the buffer untouched; its buffer effect is Pop's |
| RingBuffers.Clear | 04_week/tasks/ring_buffer/ring_buffer.cpp:176-182 | result is valid and empty with head = tail = 0 and the storage untouched |
| RingBuffers.ClearIdempotent | 04_week/tasks/ring_buffer/ring_buffer.cpp:176-182 | clearing twice equals clearing once |
| RingBuffers.Vector | 04_week/tasks/ring_buffer/ring_buffer.cpp:213-221 | the exported sequence has length size and equals the contents; for storage below 2^63 slots its i-th element is operator[](i) |
| RingBuffers.Resize | 04_week/tasks/ring_buffer/ring_buffer.cpp:184-211 | a no-op when the new size is the capacity; otherwise capacity becomes the new size, tail 0, and the contents are the oldest min(size, newSize) elements in order (the stale slot at tail when the buffer was empty) |
| RingBuffers.ReadOldest | 04_week/tasks/ring_buffer/ring_buffer.cpp:195-200 | the copied-out sequence holds the k slots from tail on in logical order, and within the live window it is the oldest k elements |
| RingBuffers.WriteFront | 04_week/tasks/ring_buffer/ring_buffer.cpp:202-206 | the copied-back storage starts with the kept elements and keeps every later slot as it was |
| RingBuffers.PushAllKeepsNewest | 04_week/tasks/ring_buffer/ring_buffer.cpp:77-95 | after any run of pushes the contents are the newest C values of old contents followed by the pushed values |
| RingBuffers.PushAllFillsWithLatest | 04_week/tasks/ring_buffer/ring_buffer.cpp:85-90 | after at least C pushes the buffer is full and holds exactly the last C pushed values |
| RingBuffers.ThreeSlotScenario | 04_week/tasks/ring_buffer/ring_buffer.cpp:77-141 | capacity 3: pushes 1,2,3 fill it; push 4 leaves [2,3,4]; TryPop yields 2 leaving two elements; TryPush 5 succeeds leaving [3,4,5] |
| RingBufferAsWritten.FlaggedWithCapacity | 04_week/tasks/ring_buffer/ring_buffer.cpp:9-14 | the capacity constructor's default flags say empty and not full, consistent with the state |
| RingBufferAsWritten.FlaggedFilled | 04_week/tasks/ring_buffer/ring_buffer.cpp:16-25 | the fill constructor's flags say full and not empty, consistent with the state |
| RingBufferAsWritten.FlaggedFromList | 04_week/tasks/ring_buffer/ring_buffer.cpp:27-42 | the list constructor's flags are sound and isEmpty holds iff the list is empty |
| RingBufferAsWritten.FlaggedPush | 04_week/tasks/ring_buffer/ring_buffer.cpp:77-95 | Push's flag updates keep isFull exact and isEmpty sound, and its buffer is the modelled Push |
| RingBufferAsWritten.FlaggedTryPush | 04_week/tasks/ring_buffer/ring_buffer.cpp:97-116 | deciding on the isFull flag gives the same answer and buffer as deciding on size, on every state with sound flags |
| RingBufferAsWritten.FlaggedPop | 04_week/tasks/ring_buffer/ring_buffer.cpp:118-127 | Pop's flag updates keep the flags sound, and its buffer is the modelled Pop |
| RingBufferAsWritten.FlaggedTryPop | 04_week/tasks/ring_buffer/ring_buffer.cpp:129-141 | TryPop's flag updates keep the flags sound, and its result is the modelled TryPop |
| RingBufferAsWritten.FlaggedClear | 04_week/tasks/ring_buffer/ring_buffer.cpp:176-182 | Clear resets the flags soundly and sets isEmpty |
| RingBufferAsWritten.StaleEmptyAfterLastPop | 04_week/tasks/ring_buffer/ring_buffer.cpp:118-127 | capacity 1, push 7, pop: size is 0 yet the isEmpty flag is still false |
| RingBufferAsWritten.FilledHeadOutOfRange | 04_week/tasks/ring_buffer/ring_buffer.cpp:16-25 | the fill constructor stores head = C, one past the last slot; reduced mod C it is the corrected head 0 |
| RingBufferAsWritten.FromListHeadOutOfRange | 04_week/tasks/ring_buffer/ring_buffer.cpp:27-33 | the list constructor stores head = list length = C; reduced mod C it is the corrected head 0 |
| RingBufferAsWritten.PushAfterFilled | 04_week/tasks/ring_buffer/ring_buffer.cpp:81-90 | with head reduced, pushing 1 into a two-slot buffer filled with 5 gives [5,1] |
| RingBufferAsWritten.PushAfterFromList | 04_week/tasks/ring_buffer/ring_buffer.cpp:81-90 | with head reduced, pushing 3 into the buffer built from {1, 2} gives [2, 3] |
| RingBufferAsWritten.FlaggedResize | 04_week/tasks/ring_buffer/ring_buffer.cpp:184-211 | Resize leaves both flags as they were. It changes the buffer as RingBuffers.Resize does. Resizing an empty buffer to another capacity gives size 1, and a set isEmpty then stays set, which breaks the flags' soundness |
| RingBufferAsWritten.StaleEmptyAfterResize | 04_week/tasks/ring_buffer/ring_buffer.cpp:184-211 | the default buffer resized to 2 holds one element while isEmpty is still true |
| RingBufferAsWritten.StaleFullAfterResize | 04_week/tasks/ring_buffer/ring_buffer.cpp:184-211 | the fill-constructed buffer RingBuffer(2, 5) resized to 3 holds 2 elements in 3 slots while isFull is still true, so the source's Full() is true and its TryPush rejects a value the corrected TryPush accepts |
| RingBufferAsWritten.FrontIndexAgrees | 04_week/tasks/ring_buffer/ring_buffer.cpp:143-149 | when head > 0 the source's slot head-1 is in range and holds the corrected Front |
| RingBufferAsWritten.FrontUnderflowsAfterWrap | 04_week/tasks/ring_buffer/ring_buffer.cpp:143-149 | after pushing 1 and 2 into two slots head is 0 and the source reads slot 2^64-1 (out of range), while the newest element is 2 |
| CheckFlags.AllIsTheSixFlags | 03_week/tasks/enum_operators/enum_operators.cpp:6-15 | ALL is 0x3F, exactly bits 0..5 |
| CheckFlags.ToBool | 03_week/tasks/enum_operators/enum_operators.cpp:18-20 | true iff some bit is set |
| CheckFlags.LogicalNot | 03_week/tasks/enum_operators/enum_operators.cpp:22-24 | true iff no bit is set, the exact negation of the bool conversion |
| CheckFlags.Equal | 03_week/tasks/enum_operators/enum_operators.cpp:26-29 | true iff the two bytes agree on all eight bits |
| CheckFlags.NotEqual | 03_week/tasks/enum_operators/enum_operators.cpp:31-33 | the exact negation of ==, i.e. some bit differs |
| CheckFlags.Or | 03_week/tasks/enum_operators/enum_operators.cpp:35-40 | bit i is set iff i < 6 and it is set in either operand |
| CheckFlags.And | 03_week/tasks/enum_operators/enum_operators.cpp:42-47 | bit i is set iff it is set in both operands (no mask) |
| CheckFlags.Xor | 03_week/tasks/enum_operators/enum_operators.cpp:49-54 | bit i is set iff it is set in exactly one operand (no mask) |
| CheckFlags.Complement | 03_week/tasks/enum_operators/enum_operators.cpp:56-58 | every one of the eight bits is flipped (no mask) |
| CheckFlags.OrWithinAll | 03_week/tasks/enum_operators/enum_operators.cpp:35-40 | the union of a and b has no bit outside ALL and the operator is commutative |
| CheckFlags.OrNoneIdentityIffWithinAll | 03_week/tasks/enum_operators/enum_operators.cpp:35-40 | the union of f with NONE equals f exactly when f has no bit outside ALL |
| CheckFlags.AndIsIntersection | 03_week/tasks/enum_operators/enum_operators.cpp:42-47 | & is commutative and its bits are a subset of each operand's |
| CheckFlags.XorLaws | 03_week/tasks/enum_operators/enum_operators.cpp:49-54 | f ^ f is NONE and f ^ NONE is f for all 8-bit values |
| CheckFlags.ComplementLaws | 03_week/tasks/enum_operators/enum_operators.cpp:56-58 | ~~f is f, ~NONE is 0xFF and so differs from ALL |
| EasyCompare.LexIrreflexive | 03_week/tasks/easy_compare/easy_compare.cpp:17-19 | tuple < is irreflexive |
| EasyCompare.LexTransitive | 03_week/tasks/easy_compare/easy_compare.cpp:17-19 | tuple < is transitive |
| EasyCompare.LexTrichotomy | 03_week/tasks/easy_compare/easy_compare.cpp:17-19 | for equal-length tuples exactly one of s < t, s == t, t < s holds |
| EasyCompare.DateEq | 03_week/tasks/easy_compare/easy_compare.cpp:9-11 | == holds iff year, month and day are all equal |
| EasyCompare.DateNe | 03_week/tasks/easy_compare/easy_compare.cpp:13-15 | != holds iff the dates differ |
| EasyCompare.DateLess | 03_week/tasks/easy_compare/easy_compare.cpp:17-19 | < compares the (year, month, day) ties as std::tuple does, which is the year, then month, then day chain |
| EasyCompare.DateStrictOrder | 03_week/tasks/easy_compare/easy_compare.cpp:17-19 | date < is irreflexive and transitive |
| EasyCompare.DateGreater | 03_week/tasks/easy_compare/easy_compare.cpp:21-27 | a > b iff b < a |
| EasyCompare.DateTrichotomy | 03_week/tasks/easy_compare/easy_compare.cpp:21-27 | exactly one of a < b, a == b, a > b holds |
| EasyCompare.DateLessEq | 03_week/tasks/easy_compare/easy_compare.cpp:29-31 | a <= b iff a < b or a == b |
| EasyCompare.DateGreaterEq | 03_week/tasks/easy_compare/easy_compare.cpp:33-35 | a >= b iff a > b or a == b (that is, not a < b) |
| EasyCompare.StudentEq | 03_week/tasks/easy_compare/easy_compare.cpp:45-47 | == holds iff the first two sort-key positions (mark, score) agree |
| EasyCompare.StudentNe | 03_week/tasks/easy_compare/easy_compare.cpp:49-51 | != holds iff mark or score differs |
| EasyCompare.StudentEqIgnoresOtherFields | 03_week/tasks/easy_compare/easy_compare.cpp:45-47 | changing id, course or birth date never changes == |
| EasyCompare.StudentEqIsEquivalence | 03_week/tasks/easy_compare/easy_compare.cpp:45-47 | == is reflexive, symmetric and transitive |
| EasyCompare.StudentLess | 03_week/tasks/easy_compare/easy_compare.cpp:53-55 | the swapped-argument tie comparison is the lexicographic order of the key (-mark, score, -course, year, month, day) |
| EasyCompare.StudentLessByFields | 03_week/tasks/easy_compare/easy_compare.cpp:53-59 | < equals the field-by-field chain: mark descending, score ascending, course descending, birth date ascending |
| EasyCompare.StudentStrictOrder | 03_week/tasks/easy_compare/easy_compare.cpp:53-60 | student < is irreflexive, transitive and asymmetric |
| EasyCompare.StudentLessIgnoresId | 03_week/tasks/easy_compare/easy_compare.cpp:53-55 | changing the ids never changes < |
| EasyCompare.EqualStudentsCanBeOrdered | 03_week/tasks/easy_compare/easy_compare.cpp:45-55 | two students equal under == can still be strictly ordered by < through course |

## Left out

- `std::vector` internals are abstracted to one `seq<int>` of length `C`: `reserve` versus `resize`, `capacity()` versus `size()`, and `std::move`.
  - The capacity constructor only reserves, so the source's storage has `size() == 0` and `operator[]`/`Vector()` would reduce modulo 0. The model gives it `C` zero slots.
  - `Capacity()` is `vector::capacity()`, which does not shrink when `Resize` shrinks the vector. The model uses the one length `C` throughout.
- Undefined behaviour is excluded rather than modelled:
  - `Resize(0)` writes into an empty vector. `Resize` requires `newSize >= 1`.
  - The out-of-range write at `head == C` is avoided by keeping `head` reduced (see Findings).
- RingBuffers.Resize: `head` is stored as `sz mod newSize`, where the source stores `sz` unreduced. When the kept count equals the new size, the source's next `Push` writes out of range.
- RingBuffers.Resize: the source leaves both the `isFull` and the `isEmpty` flags untouched. After `Resize`, its `Full()`/`TryPush` can therefore disagree with `size`. After resizing an empty buffer, `Empty()` is true while `Size()` is 1 (see Findings). The model derives `Full` and `Empty` from `size`. `FlagsSound` holds on the states reached without `Resize`, and `RingBufferAsWritten.FlaggedResize` shows how `Resize` breaks it.
- RingBuffers.Empty: derived from `size`. The source's `Empty()` returns the `isEmpty` flag, which can be stale (see Findings and `RingBufferAsWritten`).
- RingBuffers.Full: derived from `size`. The source's `Full()` returns the `isFull` flag, which `Resize` leaves stale. For example, after `RingBuffer(2, 5)` then `Resize(3)`, `Full()` is true at size 2 (see Findings and `RingBufferAsWritten.StaleFullAfterResize`).
- RingBuffers.TryPush: decides on `size`. The source tests the `isFull` flag, so after that `Resize` it rejects a push the model accepts. `RingBufferAsWritten.FlaggedTryPush` models the flag test, and it covers only states whose flags are sound.
- RingBuffers.Front: on an empty buffer with `head == 0` nothing is stated, because the source reads index `head - 1`, which is 2^64-1 in `size_t`, there. The model returns the slot before `head`.
- RingBuffers.At: for an index at or beyond `size` the contract only says the result is some storage slot. The source reads slot `((tail + idx) mod 2^64) mod C` without a bound check, as the body computes.
- RingBuffers.At: the logical-position clause assumes a storage below 2^63 slots. Above that, `tail + idx` could wrap even for an index below `size`. A `std::vector<int>` can never be that large.
- RingBuffers.Vector: its clause relating each element to `operator[]` carries the same storage bound as `At`. The clause saying the result equals the contents holds unconditionally.
- RingBuffers.WithCapacity: the contents of never-written slots are unspecified in the source. The model fills them with 0, and no contract depends on them.
- `Front`, `Back` and `operator[]` return references in the source, and the const and non-const overloads read the same slot. The model returns values, so writing through a returned reference is not modelled.
- `operator<<` for `CheckFlags` is a stream stub that writes nothing and is not modelled.
- The free `explicit operator bool` is not valid C++ as written. `CheckFlags.ToBool` models its intent.
- `char` signedness is implementation-defined. `mark` is modelled as a signed byte (`I8`), and `<` compares its numeric value.
- Header includes and I/O are not modelled. There is no concurrency or floating point in the source.

## Findings

| source | as written | input that shows it | evidently intended | confidence | as-written member | corrected member |
|---|---|---|---|---|---|---|
| 04_week/tasks/ring_buffer/ring_buffer.cpp:16-25 | the fill constructor sets `head = capacity`, one past the last slot, and `Push` writes `ringBuff[head]` before reducing it | `RingBuffer(2, 5)` then `Push(1)` writes `ringBuff[2]` | `head = 0`, so that push evicts the oldest copy and gives [5, 1] | high (not executed) | RingBufferAsWritten.FilledHeadOutOfRange | RingBuffers.Filled |
| 04_week/tasks/ring_buffer/ring_buffer.cpp:27-33 | the list constructor sets `head = size`, one past the last slot of a full buffer, and `Push` writes `ringBuff[head]` before reducing it | `RingBuffer{1, 2}` then `Push(3)` writes `ringBuff[2]` | `head = 0`, so that push evicts the oldest element and gives [2, 3] | high (not executed) | RingBufferAsWritten.FromListHeadOutOfRange | RingBuffers.FromList |
| 04_week/tasks/ring_buffer/ring_buffer.cpp:143-149 | `Front()` reads `ringBuff[head - 1]`, which wraps to 2^64-1 when `head == 0` | capacity 2, `Push(1)`, `Push(2)`: `head` is 0 and `Front()` reads out of range | read slot `(head + C - 1) mod C`, the newest element 2 | high (not executed) | RingBufferAsWritten.FrontUnderflowsAfterWrap | RingBuffers.Front |
| 04_week/tasks/ring_buffer/ring_buffer.cpp:118-127 | `Pop` sets `isEmpty` only when there was nothing to pop, not when it removes the last element | capacity 1, `Push(7)`, `Pop()`: `Size()` is 0 but `Empty()` is false | `Empty()` true exactly when `size == 0` | high (not executed) | RingBufferAsWritten.StaleEmptyAfterLastPop | RingBuffers.Empty |
| 04_week/tasks/ring_buffer/ring_buffer.cpp:184-211 | `Resize` bumps a kept count of 0 to 1 but leaves `isEmpty` as it was | `RingBuffer()` then `Resize(2)`: `Size()` is 1 but `Empty()` is true | `Empty()` true exactly when `size == 0` | high (not executed) | RingBufferAsWritten.StaleEmptyAfterResize | RingBuffers.Empty |
| 04_week/tasks/ring_buffer/ring_buffer.cpp:184-211 | `Resize` can grow a full buffer's storage but leaves `isFull` as it was | `RingBuffer(2, 5)` then `Resize(3)`: `Size()` is 2 of 3 slots, but `Full()` is true and `TryPush(1)` returns false | `Full()` true exactly when `size` equals the capacity, so that push succeeds | high (not executed) | RingBufferAsWritten.StaleFullAfterResize | RingBuffers.TryPush |
