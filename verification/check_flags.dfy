/**
 The `CheckFlags` enumeration: six single-bit flags over an 8-bit
 underlying type, with the bitwise operators defined on it. `|` masks its
 result to `ALL`; `&`, `^` and `~` work on all eight bits.
 */
module CheckFlags {

  /** The underlying `uint8_t`. */
  type Flags = bv8

  const NONE: Flags := 0
  const TIME: Flags := 1 << 0
  const DATE: Flags := 1 << 1
  const USER: Flags := 1 << 2
  const CERT: Flags := 1 << 3
  const KEYS: Flags := 1 << 4
  const DEST: Flags := 1 << 5
  const ALL: Flags := TIME | DATE | USER | CERT | KEYS | DEST

  /** The single-bit mask of bit `i`. */
  function Bit(i: nat): Flags
    requires i < 8
  {
    if i == 0 then 0x01 else if i == 1 then 0x02 else if i == 2 then 0x04
    else if i == 3 then 0x08 else if i == 4 then 0x10 else if i == 5 then 0x20
    else if i == 6 then 0x40 else 0x80
  }

  /** Bit `i` of `f` is set. */
  predicate Has(f: Flags, i: nat)
    requires i < 8
  {
    f & Bit(i) != 0
  }

  /** A byte is determined by its eight bits. */
  lemma BitsDetermine(a: Flags, b: Flags)
    ensures a == b <==> forall i :: 0 <= i < 8 ==> (Has(a, i) <==> Has(b, i))
  {
    if forall i :: 0 <= i < 8 ==> (Has(a, i) <==> Has(b, i)) {
      assert Has(a, 0) == Has(b, 0) && Has(a, 1) == Has(b, 1);
      assert Has(a, 2) == Has(b, 2) && Has(a, 3) == Has(b, 3);
      assert Has(a, 4) == Has(b, 4) && Has(a, 5) == Has(b, 5);
      assert Has(a, 6) == Has(b, 6) && Has(a, 7) == Has(b, 7);
    }
  }

  /** The free `operator bool`: some bit is set. */
  function ToBool(f: Flags): (r: bool)
    ensures r <==> exists i :: 0 <= i < 8 && Has(f, i)
  {
    if f != 0 then
      assert Has(f, 0) || Has(f, 1) || Has(f, 2) || Has(f, 3)
          || Has(f, 4) || Has(f, 5) || Has(f, 6) || Has(f, 7);
      true
    else
      false
  }

  /** `operator!`: no bit is set, the negation of the bool conversion. */
  function LogicalNot(f: Flags): (r: bool)
    ensures r <==> !ToBool(f)
    ensures r <==> forall i :: 0 <= i < 8 ==> !Has(f, i)
  {
    f == 0
  }

  /** `operator==`: the underlying bytes are equal, bit for bit. */
  function Equal(a: Flags, b: Flags): (r: bool)
    ensures r <==> forall i :: 0 <= i < 8 ==> (Has(a, i) <==> Has(b, i))
  {
    BitsDetermine(a, b);
    a == b
  }

  /** `operator!=`: the negation of `==`. */
  function NotEqual(a: Flags, b: Flags): (r: bool)
    ensures r <==> !Equal(a, b)
    ensures r <==> exists i :: 0 <= i < 8 && Has(a, i) != Has(b, i)
  {
    !(a == b)
  }

  /** `operator|`: the union of the bits, cut down to the six defined flags. */
  function Or(a: Flags, b: Flags): (r: Flags)
    ensures forall i :: 0 <= i < 8 ==> (Has(r, i) <==> i < 6 && (Has(a, i) || Has(b, i)))
  {
    (a | b) & ALL
  }

  /** `operator&`: the common bits, unmasked. */
  function And(a: Flags, b: Flags): (r: Flags)
    ensures forall i :: 0 <= i < 8 ==> (Has(r, i) <==> Has(a, i) && Has(b, i))
  {
    a & b
  }

  /** `operator^`: the bits set in exactly one operand, unmasked. */
  function Xor(a: Flags, b: Flags): (r: Flags)
    ensures forall i :: 0 <= i < 8 ==> (Has(r, i) <==> Has(a, i) != Has(b, i))
  {
    a ^ b
  }

  /** `operator~`: every one of the eight bits flipped, unmasked. */
  function Complement(f: Flags): (r: Flags)
    ensures forall i :: 0 <= i < 8 ==> (Has(r, i) <==> !Has(f, i))
  {
    !f
  }

  // ---------------------------------------------------------------------
  // Algebra
  // ---------------------------------------------------------------------

  /** `ALL` is `0x3F`: exactly the six flag bits. */
  lemma AllIsTheSixFlags()
    ensures ALL == 0x3F
    ensures forall i :: 0 <= i < 8 ==> (Has(ALL, i) <==> i < 6)
  {
  }

  /** `|` never sets a bit outside `ALL`, and is commutative. */
  lemma OrWithinAll(a: Flags, b: Flags)
    ensures Or(a, b) & !ALL == 0
    ensures Or(a, b) == Or(b, a)
  {
  }

  /** Because of the mask, `f | NONE` is `f` exactly when `f` has no bit
      outside `ALL`. */
  lemma OrNoneIdentityIffWithinAll(f: Flags)
    ensures Or(f, NONE) == f <==> f & !ALL == 0
  {
  }

  /** `&` is commutative and keeps only bits of each operand. */
  lemma AndIsIntersection(a: Flags, b: Flags)
    ensures And(a, b) == And(b, a)
    ensures And(a, b) & a == And(a, b)
    ensures And(a, b) & b == And(a, b)
  {
  }

  /** `f ^ f` is `NONE` and `f ^ NONE` is `f`, for all eight bits. */
  lemma XorLaws(f: Flags)
    ensures Xor(f, f) == NONE
    ensures Xor(f, NONE) == f
  {
  }

  /** `~` is an involution and is not masked: `~NONE` is `0xFF`, not `ALL`. */
  lemma ComplementLaws(f: Flags)
    ensures Complement(Complement(f)) == f
    ensures Complement(NONE) == 0xFF
    ensures Complement(NONE) != ALL
  {
  }
}
