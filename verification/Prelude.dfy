/** Shared vocabulary: optional values and the string order Python's sort uses. */
module Prelude {

  datatype Option<+T> = None | Some(value: T)

  function Max(a: int, b: int): int { if a < b then b else a }

  function Min(a: int, b: int): int { if a < b then a else b }

  /** All but the last, and the last. */
  function Init<T>(s: seq<T>): seq<T> requires s != [] { s[..|s| - 1] }
  function Last<T>(s: seq<T>): T requires s != [] { s[|s| - 1] }

  lemma {:induction false} SubsetSize<T>(a: set<T>, b: set<T>)
    requires a <= b
    ensures |a| <= |b|
    decreases |a|
  {
    if a != {} {
      var x :| x in a;
      SubsetSize(a - {x}, b - {x});
    }
  }

  ghost predicate Repeats<T>(s: seq<T>) { exists i, j :: 0 <= i < j < |s| && s[i] == s[j] }

  ghost function SetOf<T>(s: seq<T>): set<T> { set k | k in s }

  lemma {:induction false} SetOfSize<T>(s: seq<T>)
    requires !Repeats(s)
    ensures |SetOf(s)| == |s|
  {
    if s != [] {
      var init, last := s[..|s| - 1], s[|s| - 1];
      assert !Repeats(init);
      SetOfSize(init);
      assert s == init + [last];
      assert SetOf(s) == SetOf(init) + {last};
      assert last !in init;
    }
  }

  lemma {:induction false} Enumerate<T>(g: set<T>) returns (s: seq<T>)
    ensures SetOf(s) == g && !Repeats(s)
    decreases |g|
  {
    if g == {} {
      s := [];
    } else {
      var k :| k in g;
      var t := Enumerate(g - {k});
      assert k !in SetOf(t);
      assert forall i :: 0 <= i < |t| ==> t[i] in SetOf(t);
      s := [k] + t;
      assert SetOf(s) == {k} + SetOf(t);
    }
  }

  /** A calendar date; the code keeps its ISO text, which orders and compares the same way. */
  datatype Date = Date(year: int, month: int, day: int)

  /** The `YYYY-MM` of a date. */
  datatype Month = Month(year: int, month: int)

  function MonthOf(d: Date): Month { Month(d.year, d.month) }

  predicate NotLater(a: Date, b: Date) {
    a.year < b.year || (a.year == b.year && (a.month < b.month || (a.month == b.month && a.day <= b.day)))
  }

  /** Code-point order on strings (Dafny's own `<` on sequences is "proper prefix"). */
  predicate StrLess(a: string, b: string) {
    b != [] && (a == [] || a[0] < b[0] || (a[0] == b[0] && StrLess(a[1..], b[1..])))
  }

  lemma {:induction false} StrLessTrichotomy(a: string, b: string)
    ensures StrLess(a, b) || StrLess(b, a) || a == b
    ensures StrLess(a, b) ==> !StrLess(b, a)
    ensures !StrLess(a, a)
  {
    if a != [] && b != [] {
      StrLessTrichotomy(a[1..], b[1..]);
      StrLessTrichotomy(a[1..], a[1..]);
      if a[0] == b[0] && a[1..] == b[1..] {
        assert a == [a[0]] + a[1..] == b;
      }
    } else if a != [] {
      StrLessTrichotomy(a[1..], a[1..]);
    }
  }

  lemma {:induction false} StrLessTransitive(a: string, b: string, c: string)
    requires StrLess(a, b) && StrLess(b, c)
    ensures StrLess(a, c)
  {
    if a != [] && a[0] == b[0] && b[0] == c[0] {
      StrLessTransitive(a[1..], b[1..], c[1..]);
    }
  }
}
