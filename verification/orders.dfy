/** Three-way comparators, as the Java `Comparator.compareTo(e1, e2)`
    contract describes them: only the sign of the result matters, the sign
    flips when the arguments are swapped, and "at most" is transitive. */
module Orders {

  function Sign(x: int): (r: int)
    ensures r == -1 || r == 0 || r == 1
    ensures (r < 0 <==> x < 0) && (r > 0 <==> x > 0)
  {
    if x < 0 then -1 else if x > 0 then 1 else 0
  }

  ghost predicate Antisymmetric<T(!new)>(c: (T, T) -> int) {
    forall a, b :: Sign(c(a, b)) == -Sign(c(b, a))
  }

  ghost predicate AtMost<T>(c: (T, T) -> int, a: T, b: T) {
    c(a, b) <= 0
  }

  ghost predicate Transitive<T(!new)>(c: (T, T) -> int) {
    forall a, b, d :: AtMost(c, a, b) && AtMost(c, b, d) ==> AtMost(c, a, d)
  }

  /** A comparator that obeys the contract of the Java interface. */
  ghost predicate IsComparator<T(!new)>(c: (T, T) -> int) {
    Antisymmetric(c) && Transitive(c)
  }

  /** Ascending order under `c`: no later element is strictly below an earlier one. */
  ghost predicate SortedBy<T>(c: (T, T) -> int, s: seq<T>) {
    forall i, j :: 0 <= i < j < |s| ==> c(s[i], s[j]) <= 0
  }

  lemma ComparatorReflexive<T(!new)>(c: (T, T) -> int, a: T)
    requires IsComparator(c)
    ensures c(a, a) == 0
  {
    assert Sign(c(a, a)) == -Sign(c(a, a));
  }

  lemma ComparatorFlip<T(!new)>(c: (T, T) -> int, a: T, b: T)
    requires IsComparator(c)
    ensures c(a, b) < 0 <==> c(b, a) > 0
    ensures c(a, b) == 0 <==> c(b, a) == 0
  {
    assert Sign(c(a, b)) == -Sign(c(b, a));
  }

  lemma ComparatorTransitive<T(!new)>(c: (T, T) -> int, a: T, b: T, d: T)
    requires IsComparator(c)
    requires c(a, b) <= 0 && c(b, d) <= 0
    ensures c(a, d) <= 0
  {
    assert AtMost(c, a, b) && AtMost(c, b, d);
  }

  /** Strictly below followed by at most is strictly below. */
  lemma ComparatorStrictLeft<T(!new)>(c: (T, T) -> int, a: T, b: T, d: T)
    requires IsComparator(c)
    requires c(a, b) < 0 && c(b, d) <= 0
    ensures c(a, d) < 0
  {
    ComparatorFlip(c, a, d);
    ComparatorFlip(c, a, b);
    if c(d, a) <= 0 {
      ComparatorTransitive(c, b, d, a);
    }
  }

  /** At most followed by strictly below is strictly below. */
  lemma ComparatorStrictRight<T(!new)>(c: (T, T) -> int, a: T, b: T, d: T)
    requires IsComparator(c)
    requires c(a, b) <= 0 && c(b, d) < 0
    ensures c(a, d) < 0
  {
    ComparatorFlip(c, a, d);
    ComparatorFlip(c, b, d);
    if c(d, b) >= 0 && c(d, a) <= 0 {
      ComparatorTransitive(c, d, a, b);
    }
  }

  /** Sortedness only needs to be checked between neighbours. */
  lemma {:induction false} SortedByAdjacent<T(!new)>(c: (T, T) -> int, s: seq<T>)
    requires IsComparator(c)
    requires forall i :: 0 <= i < |s| - 1 ==> c(s[i], s[i + 1]) <= 0
    ensures SortedBy(c, s)
  {
    if |s| > 1 {
      SortedByAdjacent(c, s[1..]);
      forall j | 1 <= j < |s|
        ensures c(s[0], s[j]) <= 0
      {
        if j > 1 {
          assert s[1..][0] == s[1] && s[1..][j - 1] == s[j];
          ComparatorTransitive(c, s[0], s[1], s[j]);
        }
      }
      forall i, j | 0 <= i < j < |s|
        ensures c(s[i], s[j]) <= 0
      {
        if i > 0 {
          assert s[1..][i - 1] == s[i] && s[1..][j - 1] == s[j];
        }
      }
    }
  }
}
