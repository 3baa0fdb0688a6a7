/**
 Comparison operators of the `Date` and `StudentInfo` records.

 Both compare `std::tie` tuples, whose `<` is lexicographic and decides
 each position with `<` alone: the first position where one side is
 smaller decides, and equal prefixes fall through to the next position.
 `LexLess` models that rule on integer sequences; `Date` orders by
 (year, month, day), and `StudentInfo` by a key with mixed directions.
 */
module EasyCompare {

  /** `unsigned`, `int`, `char` (signed) and `size_t` as the fields use them. */
  newtype U32 = x: int | 0 <= x < 0x1_0000_0000
  newtype I32 = x: int | -0x8000_0000 <= x < 0x8000_0000
  newtype I8 = x: int | -0x80 <= x < 0x80
  newtype U64 = x: int | 0 <= x < 0x1_0000_0000_0000_0000

  datatype Date = Date(year: U32, month: U32, day: U32)

  datatype StudentInfo = StudentInfo(id: U64, mark: I8, score: I32, course: U32, birthDate: Date)

  // ---------------------------------------------------------------------
  // Lexicographic order of tuples
  // ---------------------------------------------------------------------

  /** `std::tuple`'s `<` on two tuples of equal length. */
  predicate LexLess(s: seq<int>, t: seq<int>)
    requires |s| == |t|
    decreases |s|
  {
    if s == [] then false
    else if s[0] < t[0] then true
    else if t[0] < s[0] then false
    else LexLess(s[1..], t[1..])
  }

  lemma {:induction false} LexIrreflexive(s: seq<int>)
    ensures !LexLess(s, s)
    decreases |s|
  {
    if s != [] {
      LexIrreflexive(s[1..]);
    }
  }

  lemma {:induction false} LexTransitive(s: seq<int>, t: seq<int>, u: seq<int>)
    requires |s| == |t| == |u|
    requires LexLess(s, t) && LexLess(t, u)
    ensures LexLess(s, u)
    decreases |s|
  {
    if s[0] == t[0] == u[0] {
      LexTransitive(s[1..], t[1..], u[1..]);
    }
  }

  /** Exactly one of `s < t`, `s == t`, `t < s` holds. */
  lemma {:induction false} LexTrichotomy(s: seq<int>, t: seq<int>)
    requires |s| == |t|
    ensures LexLess(s, t) || s == t || LexLess(t, s)
    ensures !(LexLess(s, t) && LexLess(t, s))
    ensures s == t ==> !LexLess(s, t)
    decreases |s|
  {
    if s == [] {
    } else if s[0] == t[0] {
      LexTrichotomy(s[1..], t[1..]);
      if s[1..] == t[1..] {
        assert s == [s[0]] + s[1..] && t == [t[0]] + t[1..];
      }
      LexIrreflexive(s);
    }
  }

  // ---------------------------------------------------------------------
  // Date
  // ---------------------------------------------------------------------

  /** `std::tie(year, month, day)`. */
  function DateTie(d: Date): (t: seq<int>)
    ensures |t| == 3
  {
    [d.year as int, d.month as int, d.day as int]
  }

  /** `Date::operator==`: the ties are equal, so all three fields are. */
  predicate DateEq(a: Date, b: Date)
    ensures DateEq(a, b) <==> a == b
  {
    DateTie(a) == DateTie(b)
  }

  /** `Date::operator!=`. */
  predicate DateNe(a: Date, b: Date)
    ensures DateNe(a, b) <==> a != b
  {
    !DateEq(a, b)
  }

  /** `Date::operator<`: the ties compared lexicographically, which is the
      year-month-day order written out field by field. */
  predicate DateLess(a: Date, b: Date)
    ensures DateLess(a, b) <==>
      || a.year < b.year
      || (a.year == b.year && a.month < b.month)
      || (a.year == b.year && a.month == b.month && a.day < b.day)
  {
    var s, t := DateTie(a), DateTie(b);
    assert LexLess(s, t) <==> s[0] < t[0] || (s[0] == t[0] && LexLess(s[1..], t[1..]));
    assert LexLess(s[1..], t[1..]) <==> s[1] < t[1] || (s[1] == t[1] && LexLess(s[2..], t[2..]));
    assert LexLess(s[2..], t[2..]) <==> s[2] < t[2] || (s[2] == t[2] && LexLess(s[3..], t[3..]));
    LexLess(s, t)
  }

  /** `Date::operator>`: false on equal dates, otherwise "not less". It is
      the converse of `<`. */
  predicate DateGreater(a: Date, b: Date)
    ensures DateGreater(a, b) <==> DateLess(b, a)
  {
    LexTrichotomy(DateTie(a), DateTie(b));
    if DateEq(a, b) then false else !DateLess(a, b)
  }

  /** `Date::operator<=`: not greater, i.e. less or equal. */
  predicate DateLessEq(a: Date, b: Date)
    ensures DateLessEq(a, b) <==> DateLess(a, b) || a == b
  {
    LexTrichotomy(DateTie(a), DateTie(b));
    !DateGreater(a, b)
  }

  /** `Date::operator>=`: not less, i.e. greater or equal. */
  predicate DateGreaterEq(a: Date, b: Date)
    ensures DateGreaterEq(a, b) <==> DateGreater(a, b) || a == b
  {
    LexTrichotomy(DateTie(a), DateTie(b));
    !DateLess(a, b)
  }

  /** `<` on dates is a strict order: irreflexive and transitive. */
  lemma DateStrictOrder(a: Date, b: Date, c: Date)
    ensures !DateLess(a, a)
    ensures DateLess(a, b) && DateLess(b, c) ==> DateLess(a, c)
  {
    LexIrreflexive(DateTie(a));
    if DateLess(a, b) && DateLess(b, c) {
      LexTransitive(DateTie(a), DateTie(b), DateTie(c));
    }
  }

  /** For any two dates exactly one of `a < b`, `a == b`, `a > b` holds. */
  lemma DateTrichotomy(a: Date, b: Date)
    ensures DateLess(a, b) || DateEq(a, b) || DateGreater(a, b)
    ensures !(DateLess(a, b) && DateEq(a, b))
    ensures !(DateLess(a, b) && DateGreater(a, b))
    ensures !(DateEq(a, b) && DateGreater(a, b))
  {
    LexTrichotomy(DateTie(a), DateTie(b));
  }

  // ---------------------------------------------------------------------
  // StudentInfo
  // ---------------------------------------------------------------------

  /** `StudentInfo::operator==`: only `mark` and `score` are compared, the
      first two positions of the sort key. */
  predicate StudentEq(a: StudentInfo, b: StudentInfo)
    ensures StudentEq(a, b) <==> StudentKey(a)[..2] == StudentKey(b)[..2]
  {
    assert StudentKey(a)[..2] == [-(a.mark as int), a.score as int];
    assert StudentKey(b)[..2] == [-(b.mark as int), b.score as int];
    a.mark == b.mark && a.score == b.score
  }

  /** `StudentInfo::operator!=`. */
  predicate StudentNe(a: StudentInfo, b: StudentInfo)
    ensures StudentNe(a, b) <==> a.mark != b.mark || a.score != b.score
  {
    !StudentEq(a, b)
  }

  /** `StudentInfo::operator<`: the tie `(other.mark, score, other.course,
      birth_date)` against `(mark, other.score, course, other.birth_date)`,
      compared position by position with `<` as `std::tuple` does; the last
      position uses `Date`'s `<`. The result is the lexicographic order of
      the sort keys. */
  predicate StudentLess(a: StudentInfo, b: StudentInfo)
    ensures StudentLess(a, b) <==> LexLess(StudentKey(a), StudentKey(b))
  {
    var ka, kb := StudentKey(a), StudentKey(b);
    assert LexLess(ka, kb) <==> ka[0] < kb[0] || (ka[0] == kb[0] && LexLess(ka[1..], kb[1..]));
    assert LexLess(ka[1..], kb[1..]) <==> ka[1] < kb[1] || (ka[1] == kb[1] && LexLess(ka[2..], kb[2..]));
    assert LexLess(ka[2..], kb[2..]) <==> ka[2] < kb[2] || (ka[2] == kb[2] && LexLess(ka[3..], kb[3..]));
    assert ka[3..] == DateTie(a.birthDate) && kb[3..] == DateTie(b.birthDate);
    if b.mark < a.mark then true
    else if a.mark < b.mark then false
    else if a.score < b.score then true
    else if b.score < a.score then false
    else if b.course < a.course then true
    else if a.course < b.course then false
    else DateLess(a.birthDate, b.birthDate)
  }

  /** The sort key the order follows: `mark` descending, `score` ascending,
      `course` descending, then the birth date ascending. */
  function StudentKey(s: StudentInfo): (k: seq<int>)
    ensures |k| == 6
  {
    [-(s.mark as int), s.score as int, -(s.course as int)] + DateTie(s.birthDate)
  }

  /** The same order, as the chain of field comparisons: a larger `mark`
      sorts first, then a smaller `score`, then a larger `course`, then an
      earlier birth date. */
  lemma StudentLessByFields(a: StudentInfo, b: StudentInfo)
    ensures StudentLess(a, b) <==>
      if a.mark != b.mark then a.mark > b.mark
      else if a.score != b.score then a.score < b.score
      else if a.course != b.course then a.course > b.course
      else DateLess(a.birthDate, b.birthDate)
  {
  }

  /** `<` on students is a strict order. */
  lemma StudentStrictOrder(a: StudentInfo, b: StudentInfo, c: StudentInfo)
    ensures !StudentLess(a, a)
    ensures StudentLess(a, b) && StudentLess(b, c) ==> StudentLess(a, c)
    ensures !(StudentLess(a, b) && StudentLess(b, a))
  {
    LexIrreflexive(StudentKey(a));
    LexTrichotomy(StudentKey(a), StudentKey(b));
    if StudentLess(a, b) && StudentLess(b, c) {
      LexTransitive(StudentKey(a), StudentKey(b), StudentKey(c));
    }
  }

  /** `<` never looks at `id`. */
  lemma StudentLessIgnoresId(a: StudentInfo, b: StudentInfo, i: U64, j: U64)
    ensures StudentLess(a.(id := i), b.(id := j)) == StudentLess(a, b)
  {
  }

  /** `==` never looks at `id`, `course` or `birth_date`. */
  lemma StudentEqIgnoresOtherFields(a: StudentInfo, b: StudentInfo, i: U64, c: U32, d: Date)
    ensures StudentEq(a.(id := i, course := c, birthDate := d), b) == StudentEq(a, b)
  {
  }

  /** `==` is an equivalence relation on students. */
  lemma StudentEqIsEquivalence(a: StudentInfo, b: StudentInfo, c: StudentInfo)
    ensures StudentEq(a, a)
    ensures StudentEq(a, b) ==> StudentEq(b, a)
    ensures StudentEq(a, b) && StudentEq(b, c) ==> StudentEq(a, c)
  {
  }

  /** `==` is not the equivalence `<` induces: two students with the same
      mark and score are `==`, yet the one in the higher course is `<`. */
  lemma EqualStudentsCanBeOrdered()
    ensures var a := StudentInfo(1, 'A' as I8, 90, 3, Date(2000, 1, 1));
      var b := StudentInfo(2, 'A' as I8, 90, 2, Date(2000, 1, 1));
      StudentEq(a, b) && StudentLess(a, b) && !StudentLess(b, a)
  {
  }
}
